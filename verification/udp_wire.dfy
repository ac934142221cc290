/** A UDP association byte by byte: what stands in each datagram and frame, in terms of the client's datagrams alone. */
module UdpWire {
  import opened Bytes
  import opened Constants
  import opened Frames
  import opened Link
  import opened AddressText
  import opened Spelling
  import opened UdpHeader
  import opened UdpAssociation
  import R = UdpRelay
  import H = UdpHandler

  /** What a server reads of a datagram or a response. */
  function Block(s: bytes): bytes {
    s[..Min(|s|, 1500)]
  }

  /** `d` begins with a whole request header of section 7 of RFC 1928, for an address or a name. */
  predicate Readable(d: bytes) {
    |d| >= 4 && ((d[3] == 1 && |d| >= 10) || (d[3] == 3 && |d| >= 5 && |d| >= 7 + d[4] as nat))
  }

  /** Where that header ends. */
  function HeadEnd(d: bytes): nat
    requires Readable(d)
  {
    if d[3] == 1 then 10 else 7 + d[4] as nat
  }

  function HostIn(d: bytes): bytes
    requires Readable(d)
  {
    if d[3] == 1 then d[4..8] else d[5..HeadEnd(d) - 2]
  }

  function PortIn(d: bytes): nat
    requires Readable(d)
  {
    256 * d[HeadEnd(d) - 2] as nat + d[HeadEnd(d) - 1]
  }

  /** `t` is the header's destination: the dotted address or the name, in brackets if it has colons, and the port. */
  ghost predicate Destination(d: bytes, t: bytes)
    requires Readable(d)
  {
    var host := HostIn(d);
    if d[3] == 1 then exists q :: Dotted(q, host) && HostPort(t, q, PortIn(d))
    else HostPort(t, if ':' as int in host then ['[' as int] + host + [']' as int] else host, PortIn(d))
  }

  // ---------- one datagram ----------

  lemma ParseOnWire(d: bytes)
    ensures Parse(d).Some? <==> Readable(d)
    ensures Readable(d) ==>
              var (h, payload) := Parse(d).value;
              && h.atyp == d[3] && h.addr == HostIn(d) && BE16(h.port[0], h.port[1]) == PortIn(d)
              && payload == d[HeadEnd(d)..]
              && HeaderBytes(h) == [0, 0, 0] + d[3..HeadEnd(d)]
  {
    if Readable(d) {
      var (h, payload) := Parse(d).value;
      var n := HeadEnd(d);
      assert d[3..n] == (if d[3] == 1 then [d[3]] else [d[3], d[4]]) + h.addr + h.port;
    }
  }

  lemma DstOnWire(d: bytes, t: bytes)
    requires Readable(d)
    ensures Destination(d, t) <==> Parse(d).Some? && t == Dst(Parse(d).value.0)
  {
    ParseOnWire(d);
    var (h, _) := Parse(d).value;
    hide Parse, HeaderBytes, HeadEnd, Dec, Quad, HostPort, Dotted, Joined;
    if d[3] == 1 {
      QuadSpelled(Quad(h.addr), h.addr);
      QuadIsPlain(h.addr);
      JoinSpelled(t, Quad(h.addr), PortIn(d));
      forall q | Dotted(q, h.addr)
        ensures q == Quad(h.addr)
      {
        QuadSpelled(q, h.addr);
      }
    } else {
      JoinSpelled(t, h.addr, PortIn(d));
    }
  }

  /** What the relay makes of a datagram: the payload goes out as it is behind the header, to where the header says. */
  lemma RequestOnWire(datagram: bytes, t: bytes)
    ensures var d := Block(datagram);
            && (Request(datagram).Some? <==> Readable(d))
            && (Readable(d) ==> Target(datagram).1 == d[HeadEnd(d)..]
                                && (Destination(d, t) <==> t == Target(datagram).0))
  {
    assert Block(datagram) == Fit(datagram, BLOCK_SIZE);
    ParseOnWire(Block(datagram));
    if Readable(Block(datagram)) {
      DstOnWire(Block(datagram), t);
    }
    hide Parse, Dst, Destination, Readable, HeadEnd;
  }

  /** The reply frame's payload: the request's header with its first three bytes zeroed, and what was read of the
      response; and what is left of the response when the reply has passed the client's side. */
  lemma ReplyOnWire(datagram: bytes, response: bytes)
    requires Readable(Block(datagram))
    ensures var d := Block(datagram);
            var n := HeadEnd(d);
            && n <= 262
            && ReplyTo(datagram, response) == [0, 0, 0] + d[3..n] + Block(response)
            && Survives(datagram, response) == response[..Min(|response|, 1500 - n)]
  {
    assert Block(response) == Fit(response, BLOCK_SIZE);
    hide Parse, HeaderBytes, Survives, Fit, Block, Readable, HeadEnd;
    HeadOnWire(datagram);
    ReplySurvives(datagram, response);
    hide Request;
  }

  lemma HeadOnWire(datagram: bytes)
    requires Readable(Block(datagram))
    ensures var d := Block(datagram);
            && Request(datagram).Some? && 3 <= HeadEnd(d) <= |d|
            && HeaderBytes(Request(datagram).value.0) == [0, 0, 0] + d[3..HeadEnd(d)]
            && |HeaderBytes(Request(datagram).value.0)| == HeadEnd(d)
  {
    assert Block(datagram) == Fit(datagram, BLOCK_SIZE);
    ParseOnWire(Block(datagram));
    hide Parse, HeaderBytes;
  }

  /** What is given back to the client: its own address and port in the header, then the payload. */
  lemma ClientOnWire(to: Addr, payload: bytes)
    ensures ForClient(to, payload) == [0, 0, 0, 1] + to.ip + [to.port / 256, to.port % 256] + payload
  {
    BuildOfAddr(to);
    hide HeaderBytes, AddrHeader;
  }

  /** One exchange of the relay as code, for any payload of a frame. */
  lemma ExchangeOnWire(targets: R.Targets, k: nat, body: bytes, reply: bytes)
    ensures var d := Block(body);
            R.Exchange(targets, k, body) == Some(reply) <==>
            Readable(d) && exists t :: Destination(d, t) && Answers(targets(k, t, d[HeadEnd(d)..]), d, reply)
  {
    var d := Block(body);
    assert d == Fit(body, BLOCK_SIZE);
    ParseOnWire(d);
    if Readable(d) {
      forall t
        ensures Destination(d, t) <==> t == Dst(Parse(d).value.0)
      {
        DstOnWire(d, t);
      }
    }
    hide Parse, HeaderBytes, Dst, Destination, Readable, HeadEnd;
  }

  /** `reply` is the header of `d`, its first three bytes zeroed, and what is read of the response. */
  predicate Answers(response: Option<bytes>, d: bytes, reply: bytes)
    requires Readable(d)
  {
    response.Some? && reply == [0, 0, 0] + d[3..HeadEnd(d)] + Block(response.value)
  }

  /** The same of the three loops as code: what is an answer to a datagram, and what is none. */
  lemma AnsweredOnWire(datagram: bytes, targets: R.Targets, k: nat, part: bytes)
    ensures var d := Block(datagram);
            H.Answered(datagram, targets, k, part) <==>
            Readable(d) && exists t :: Destination(d, t) && FrontOf(targets(k, t, d[HeadEnd(d)..]), HeadEnd(d), part)
    ensures var d := Block(datagram);
            H.Unanswered(datagram, targets, k) <==>
            Readable(d) ==> exists t :: Destination(d, t) && targets(k, t, d[HeadEnd(d)..]).None?
  {
    var d := Block(datagram);
    RequestOnWire(datagram, []);
    if Readable(d) {
      forall t
        ensures Destination(d, t) <==> t == Target(datagram).0
      {
        RequestOnWire(datagram, t);
      }
      var response := targets(k, Target(datagram).0, Target(datagram).1);
      if response.Some? {
        ReplyOnWire(datagram, response.value);
      }
    }
    hide Request, Target, Destination, Readable, HeadEnd, Block, Survives, ReplyTo;
  }

  /** `part` is the front of a response that fits in one block behind a header of this length. */
  predicate FrontOf(response: Option<bytes>, head: nat, part: bytes) {
    response.Some? && head <= 1500 && part == response.value[..Min(|response.value|, 1500 - head)]
  }

  // ---------- a whole association ----------

  /** In every run, in terms of the datagrams received and the responses of the targets: the k-th request frame carries
      what was read of the k-th datagram; the k-th payload sent out is what follows its header, to the destination in
      it; the k-th reply frame carries that header, reserved bytes and fragment number zeroed, and what was read of the
      k-th response; and the k-th datagram given back goes to the first sender, headed with its address and port, with
      the front of the response that fits with the request's header in 1500 bytes. */
  lemma RunOnWire(a: Aead, states: seq<State>, steps: seq<Step>, i: nat, k: nat)
    requires Lawful(a) && IsRun(a, states, steps) && i < |states| && k < |states[i].received|
    ensures var s := states[i];
            var d := Block(s.received[k].1);
            var first := s.received[0].0;
            && (k < |s.up.sent| ==> s.up.sent[k].body == d)
            && (k < |s.targets| ==>
                  Readable(d) && Destination(d, s.targets[k].0) && s.targets[k].1 == d[HeadEnd(d)..])
            && (k < |s.down.sent| ==>
                  Readable(d) && k < |s.responses|
                  && s.down.sent[k].body == [0, 0, 0] + d[3..HeadEnd(d)] + Block(s.responses[k]))
            && (k < |s.returned| ==>
                  Readable(d) && k < |s.responses| && HeadEnd(d) <= 262 && s.returned[k].0 == first
                  && s.returned[k].1 == [0, 0, 0, 1] + first.ip + [first.port / 256, first.port % 256]
                                        + s.responses[k][..Min(|s.responses[k]|, 1500 - HeadEnd(d))])
  {
    RunPairs(a, states, steps, i);
    var s := states[i];
    var datagram := s.received[k].1;
    assert Block(datagram) == Fit(datagram, BLOCK_SIZE);
    hide IsRun, Lawful, Request, Target, ReplyTo, Survives, ForClient, Destination, Readable, HeadEnd, Fit, Block;
    hide Asked, Replied, Returned;
    if k < |s.targets| {
      TargetAt(s, k);
    }
    if k < |s.down.sent| {
      ReplyAt(s, k);
    }
    if k < |s.returned| {
      ReturnAt(s, k);
    }
  }

  lemma TargetAt(s: State, k: nat)
    requires Asked(s.received, s.targets) && k < |s.targets|
    ensures var d := Block(s.received[k].1);
            Readable(d) && Destination(d, s.targets[k].0) && s.targets[k].1 == d[HeadEnd(d)..]
  {
    RequestOnWire(s.received[k].1, s.targets[k].0);
    hide Request, Target, Destination, Readable, HeadEnd, Block;
  }

  lemma ReplyAt(s: State, k: nat)
    requires Replied(s.received, s.responses, s.down.sent) && k < |s.down.sent|
    ensures var d := Block(s.received[k].1);
            Readable(d) && s.down.sent[k].body == [0, 0, 0] + d[3..HeadEnd(d)] + Block(s.responses[k])
  {
    RequestOnWire(s.received[k].1, []);
    ReplyOnWire(s.received[k].1, s.responses[k]);
    hide Request, ReplyTo, Target, Destination, Readable, HeadEnd, Block;
  }

  lemma ReturnAt(s: State, k: nat)
    requires Returned(s.received, s.responses, s.returned) && k < |s.returned|
    requires Request(s.received[k].1).Some?
    ensures var d := Block(s.received[k].1);
            var first := s.received[0].0;
            && Readable(d) && HeadEnd(d) <= 262 && s.returned[k].0 == first
            && s.returned[k].1 == [0, 0, 0, 1] + first.ip + [first.port / 256, first.port % 256]
                                  + s.responses[k][..Min(|s.responses[k]|, 1500 - HeadEnd(d))]
  {
    RequestOnWire(s.received[k].1, []);
    ReplyOnWire(s.received[k].1, s.responses[k]);
    ClientOnWire(s.received[0].0, Survives(s.received[k].1, s.responses[k]));
    hide Request, ReplyTo, Target, Destination, Readable, HeadEnd, Block, Survives, ForClient;
  }
}
