/** From the client's CONNECT request to the relay's dial: the parser, the address frames and the tunnel together. */
module EndToEnd {
  import opened Bytes
  import opened Constants
  import opened Frames
  import opened AddressText
  import opened Spelling
  import opened Parser
  import S = Session
  import T = TcpTunnel

  /** The one kind of accepted request whose text does not reach the relay: a 250-byte name with a port, as parsed, of
      five digits. */
  predicate TextTooLong(req: bytes) {
    |req| > 255 && req[3] == DOMAIN && req[4] == 250 && req[255] >= 40
  }

  /** A tunnel opened for this CONNECT request has been told this address. */
  predicate OpenedFor(req: bytes, addr: bytes) {
    ParseConnect(req) == Accepted(CONNECT, addr)
  }

  lemma OpenedFacts(req: bytes, addr: bytes)
    requires OpenedFor(req, addr)
    ensures |req| >= 7 && req[1] == CONNECT && addr != []
    ensures |addr| <= 255 <==> !TextTooLong(req)
    ensures |addr| <= 256
  {
    TextFits(req);
    TextOf(req);
  }

  /** In every run of a tunnel opened for an accepted CONNECT request, whatever the relay has dialled is the text the
      parser produced, except for that kind of request, for which it is the empty text. */
  lemma RelayDialsText(req: bytes, a: Aead, states: seq<T.State>, acts: seq<T.Action>, i: nat)
    requires Lawful(a) && T.IsRun(a, states, acts) && i < |states| && OpenedFor(req, states[0].addr)
    ensures states[i].dialled.Some? ==>
              && (states[i].dialled.value == states[0].addr <==> !TextTooLong(req))
              && (states[i].dialled.value == [] <==> TextTooLong(req))
              && (!TextTooLong(req) ==>
                    AsksForAddress(req, states[i].dialled.value) || AsksForName(req, states[i].dialled.value))
  {
    AsksExactly(req, states[0].addr);
    hide T.IsRun, T.Inv, OpenedFor, TextTooLong, Lawful, ParseConnect, AsksForAddress, AsksForName;
    T.RunInv(a, states, acts, i);
    T.RunDials(a, states, acts, i);
    OpenedFacts(req, states[0].addr);
    FrontOf(states[0].addr);
  }

  lemma FrontOf(addr: bytes)
    requires 1 <= |addr| <= 256
    ensures addr[..|addr| % 256] == addr <==> |addr| <= 255
    ensures addr[..|addr| % 256] == [] <==> |addr| == 256
  {
    var front := addr[..|addr| % 256];
    assert |front| == |addr| % 256;
    assert |addr| <= 255 ==> front == addr;
  }

  /** From the session on: when a session has sent the address frames for some address, the client asked for it, and in
      every run of the tunnel for that address the relay dials what the client asked for, as far as its text gets
      through. */
  lemma SessionRelayDials(w: S.World, heard: seq<bytes>, events: seq<S.Event>, ok: bool,
                          a: Aead, states: seq<T.State>, acts: seq<T.Action>, i: nat) returns (req: bytes)
    requires S.Sane(w) && events <= S.Script(w, heard)
    requires Lawful(a) && T.IsRun(a, states, acts) && i < |states|
    requires S.Announced(states[0].addr, ok) in events
    ensures req in heard && OpenedFor(req, states[0].addr)
    ensures states[i].dialled.Some? ==>
              && (states[i].dialled.value == states[0].addr <==> !TextTooLong(req))
              && (states[i].dialled.value == [] <==> TextTooLong(req))
              && (!TextTooLong(req) ==>
                    AsksForAddress(req, states[i].dialled.value) || AsksForName(req, states[i].dialled.value))
  {
    hide S.Script, T.IsRun, ParseConnect, AsksForAddress, AsksForName;
    var addr := states[0].addr;
    S.AnnouncedIsRequested(w, heard, addr, ok);
    var k :| 0 <= k < |heard| && S.Passed(w, heard[..k]) && ParseConnect(heard[k]) == Accepted(CONNECT, addr);
    req := heard[k];
    RelayDialsText(req, a, states, acts, i);
  }

  /** For an IPv4 request the relay dials four octets and a port that are the request's own. */
  lemma RelayDialsOctets(rsv: byte, ip: bytes, port: bytes, a: Aead, states: seq<T.State>, acts: seq<T.Action>, i: nat)
    requires |ip| == 4 && |port| == 2
    requires Lawful(a) && T.IsRun(a, states, acts) && i < |states|
    requires OpenedFor(EncodeIpv4(rsv, ip, port), states[0].addr)
    ensures states[i].dialled.Some? ==>
              var split := SplitHostPort(states[i].dialled.value);
              && split.Some? && ParseQuad(split.value.0) == Some(ip)
              && Atoi(split.value.1) == BE16(port[0], port[1])
              && Dotted(split.value.0, ip) && HostPort(states[i].dialled.value, split.value.0, BE16(port[0], port[1]))
  {
    QuadSpelled(Quad(ip), ip);
    HostPortSpelled(AddrText(Quad(ip), BE16(port[0], port[1])), Quad(ip), BE16(port[0], port[1]));
    hide Dotted, HostPort, AsksForAddress, AsksForName;
    hide T.IsRun, Quad, Dec, ParseConnect, SplitHostPort, ParseQuad, Atoi, Lawful;
    RelayDialsText(EncodeIpv4(rsv, ip, port), a, states, acts, i);
    ConnectIpv4(rsv, ip, port);
    QuadIsPlain(ip);
    QuadParses(ip);
    PlainSplits(Quad(ip), BE16(port[0], port[1]));
    AtoiDec(BE16(port[0], port[1]));
  }

  /** Two requests, of whatever kind, make the relay dial the same target exactly when they ask for the same one in the
      sense of SameTarget, or when both are of the kind whose text does not get through. */
  lemma DistinctTargets(p: bytes, q: bytes, a: Aead, states: seq<T.State>, acts: seq<T.Action>, i: nat,
                        states': seq<T.State>, acts': seq<T.Action>, j: nat)
    requires Lawful(a) && T.IsRun(a, states, acts) && i < |states| && OpenedFor(p, states[0].addr)
    requires T.IsRun(a, states', acts') && j < |states'| && OpenedFor(q, states'[0].addr)
    ensures |p| >= 7 && |q| >= 7
    ensures states[i].dialled.Some? && states'[j].dialled.Some? ==>
              (states[i].dialled == states'[j].dialled <==> SameTarget(p, q) || (TextTooLong(p) && TextTooLong(q)))
  {
    RelayDialsText(p, a, states, acts, i);
    RelayDialsText(q, a, states', acts', j);
    OpenedFacts(p, states[0].addr);
    OpenedFacts(q, states'[0].addr);
    TextDetermines(p, q);
    hide ParseConnect, T.IsRun, SameTarget, Lawful;
  }

  /** For every address and port, a request for the address and one for the domain spelled like it, and a run of a
      tunnel opened for either in which the relay dials the one text both lead to. */
  lemma CollidingRun(a: Aead, rsv: byte, rsv': byte, ip: bytes, port: bytes, up: bytes, down: bytes)
    returns (p: bytes, q: bytes, states: seq<T.State>, acts: seq<T.Action>)
    requires Lawful(a) && |ip| == 4 && |port| == 2
    ensures |Quad(ip)| <= 249 && p == EncodeIpv4(rsv, ip, port) && q == EncodeDomain(rsv', Quad(ip), port) && p != q
    ensures T.IsRun(a, states, acts) && OpenedFor(p, states[0].addr) && OpenedFor(q, states[0].addr)
    ensures states[0].up.supply == up && states[0].down.supply == down
    ensures states[|acts|].dialled == Some(states[0].addr)
  {
    KindsCollide(rsv, rsv', ip, port);
    p, q := EncodeIpv4(rsv, ip, port), EncodeDomain(rsv', Quad(ip), port);
    assert p[3] != q[3];
    var addr := AddrText(Quad(ip), BE16(port[0], port[1]));
    assert OpenedFor(p, addr) && OpenedFor(q, addr);
    TextFits(p);
    assert 1 <= |addr| <= 255;
    hide ParseConnect, Quad, AddrText, EncodeIpv4, EncodeDomain, T.IsRun;
    var s := T.SomeStart(a, addr, up, down);
    states, acts := T.WorkingRun(a, s);
  }
}
