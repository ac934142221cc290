/** The UDP request header of section 7 of RFC 1928, as pkg/udp_associate/header.go builds, prints and parses it. */
module UdpHeader {
  import opened Bytes
  import opened Constants
  import opened AddressText
  import opened Spelling

  datatype Header = Header(atyp: byte, addr: bytes, port: bytes)

  /** The headers the code can get hold of: both ways of making one give two port bytes and one of two types. */
  predicate Made(h: Header) {
    |h.port| == 2 && (h.atyp == DOMAIN || (h.atyp == IPV4 && |h.addr| == 4))
  }

  /** Those that fit the wire format, whose name length is one byte. */
  predicate WellFormed(h: Header) {
    Made(h) && |h.addr| <= 255
  }

  /** Bytes. */
  function HeaderBytes(h: Header): bytes {
    if h.atyp == IPV4 then [0, 0, 0, IPV4] + h.addr + h.port
    else [0, 0, 0, DOMAIN, Low8(|h.addr|)] + h.addr + h.port
  }

  /** ParseUDPPacket; None stands for its errors. The reserved bytes and the fragment number are not looked at. */
  function Parse(packet: bytes): (r: Option<(Header, bytes)>)
    ensures r.Some? ==> WellFormed(r.value.0)
  {
    if |packet| < 4 then None
    else if packet[3] == IPV4 then
      if |packet| < 10 then None
      else Some((Header(IPV4, packet[4..8], packet[8..10]), packet[10..]))
    else if packet[3] == DOMAIN then
      if |packet| < 5 then None
      else
        var n: nat := packet[4];
        if |packet| < 7 + n then None
        else Some((Header(DOMAIN, packet[5..5 + n], packet[5 + n..7 + n]), packet[7 + n..]))
    else None
  }

  lemma HeaderLength(h: Header)
    requires Made(h)
    ensures |HeaderBytes(h)| == if h.atyp == IPV4 then 10 else 7 + |h.addr|
    ensures WellFormed(h) ==> |HeaderBytes(h)| <= 262
  {
  }

  /** Parsing undoes encoding for every payload exactly when the name is at most 255 bytes long. */
  lemma ParseUndoesBytes(h: Header, payload: bytes)
    requires Made(h)
    ensures Parse(HeaderBytes(h) + payload) == Some((h, payload)) <==> WellFormed(h)
  {
    var p := HeaderBytes(h) + payload;
    if h.atyp == IPV4 {
      Cuts([0, 0, 0, IPV4], h.addr, h.port, payload);
    } else {
      Cuts([0, 0, 0, DOMAIN, Low8(|h.addr|)], h.addr, h.port, payload);
    }
  }

  lemma Cuts(head: bytes, addr: bytes, port: bytes, payload: bytes)
    ensures var p := head + addr + port + payload;
            var i, j := |head| + |addr|, |head| + |addr| + |port|;
            p[..|head|] == head && p[|head|..i] == addr && p[i..j] == port && p[j..] == payload
  {
    var p := head + addr + port + payload;
    assert p == head + (addr + (port + payload));
  }

  /** A packet is accepted exactly when, reserved bytes and fragment number aside, it is the encoding of a header
      followed by the payload; and these are what is returned. */
  lemma ParseExactly(packet: bytes, h: Header, payload: bytes)
    ensures Parse(packet) == Some((h, payload)) <==>
            WellFormed(h) && |packet| >= 3 && [0, 0, 0] + packet[3..] == HeaderBytes(h) + payload
  {
    if Parse(packet) == Some((h, payload)) {
      Rebuild(packet);
    }
    if WellFormed(h) && |packet| >= 3 && [0, 0, 0] + packet[3..] == HeaderBytes(h) + payload {
      ParseUndoesBytes(h, payload);
      SamePastThree(packet, HeaderBytes(h) + payload);
    }
  }

  lemma Rebuild(packet: bytes)
    requires Parse(packet).Some?
    ensures var (h, payload) := Parse(packet).value;
            [0, 0, 0] + packet[3..] == HeaderBytes(h) + payload
  {
    if packet[3] == IPV4 {
      Reassemble(packet, 4, 8, [IPV4]);
    } else {
      Reassemble(packet, 5, 5 + packet[4] as nat, [DOMAIN, packet[4]]);
    }
  }

  lemma Reassemble(p: bytes, i: nat, j: nat, head: bytes)
    requires 3 <= i <= j && j + 2 <= |p| && head == p[3..i]
    ensures [0, 0, 0] + p[3..] == [0, 0, 0] + head + p[i..j] + p[j..j + 2] + p[j + 2..]
  {
    assert p[3..] == head + p[i..j] + p[j..j + 2] + p[j + 2..];
  }

  /** Parsing depends on nothing in front of the address type. */
  lemma SamePastThree(p: bytes, q: bytes)
    requires |p| >= 3 && |q| >= 3 && [0, 0, 0] + p[3..] == q
    ensures Parse(p) == Parse(q)
  {
    assert |p| == |q| && forall i :: 3 <= i < |p| ==> p[i] == q[i] by {
      assert forall i :: 3 <= i < |p| ==> p[i] == ([0, 0, 0] + p[3..])[i];
    }
    assert forall i, j :: 3 <= i <= j <= |p| ==> p[i..j] == q[i..j];
    if Parse(p).Some? {
      assert forall i :: 3 <= i <= |p| ==> p[i..] == q[i..];
    }
  }

  // ---------- headers as text ----------

  /** The text of the address: what DST hands to JoinHostPort. */
  function HostText(h: Header): bytes
    requires Made(h)
  {
    if h.atyp == IPV4 then Quad(h.addr) else h.addr
  }

  /** DST. */
  function Dst(h: Header): bytes
    requires Made(h)
  {
    JoinHostPort(HostText(h), Dec(BE16(h.port[0], h.port[1])))
  }

  /** What net.ParseIP(host).To4 recognises: dotted quads, and such texts with colons as `mapped` says. */
  function IpLiteral(host: bytes, mapped: bytes -> Option<bytes>): Option<bytes> {
    if COLON in host then mapped(host) else ParseQuad(host)
  }

  /** BuildSocks5UDPHeader; None stands for its errors. */
  function Build(t: bytes, mapped: bytes -> Option<bytes>): Option<Header> {
    match SplitHostPort(t)
    case None => None
    case Some((host, portText)) =>
      var port := Atoi(portText);
      if port < 0 || port > 65535 then None
      else
        match IpLiteral(host, mapped)
        case Some(ip) => Some(Header(IPV4, ip, PutBE16(port)))
        case None => Some(Header(DOMAIN, host, PutBE16(port)))
  }

  /** Printing a header and building it again gives the header back for every IPv4 address, and for a name exactly
      when it contains no bracket and is not itself the text of an IPv4 address. */
  lemma BuildUndoesDst(h: Header, mapped: bytes -> Option<bytes>)
    requires Made(h)
    ensures Build(Dst(h), mapped) == Some(h) <==>
            h.atyp == IPV4 || (BracketFree(h.addr) && IpLiteral(h.addr, mapped) == None)
  {
    hide SplitHostPort, JoinHostPort, Dec, Quad, ParseQuad, Atoi;
    var host := if h.atyp == IPV4 then Quad(h.addr) else h.addr;
    var port := BE16(h.port[0], h.port[1]);
    JoinSplits(host, port);
    AtoiDec(port);
    assert PutBE16(port) == h.port;
    if h.atyp == IPV4 {
      QuadIsPlain(h.addr);
      QuadParses(h.addr);
    } else if !BracketFree(host) {
      SplitNeverWrong(host, port);
    }
  }

  /** What any text is built into: it has to come apart into a host and a text that reads as a port; a host that is an
      address, in dotted form or as far as `mapped` knows one, gives its octets, any other stands for itself. */
  lemma BuildExactly(t: bytes, mapped: bytes -> Option<bytes>, h: Header)
    ensures var split := SplitHostPort(t);
            Build(t, mapped) == Some(h) <==>
            && split.Some? && |h.port| == 2 && BE16(h.port[0], h.port[1]) == Atoi(split.value.1)
            && (if ':' as int in split.value.0
                then if mapped(split.value.0).Some? then h.atyp == 1 && mapped(split.value.0) == Some(h.addr)
                     else h.atyp == 3 && h.addr == split.value.0
                else if exists ip :: |ip| == 4 && Dotted(split.value.0, ip)
                     then h.atyp == 1 && |h.addr| == 4 && Dotted(split.value.0, h.addr)
                     else h.atyp == 3 && h.addr == split.value.0)
  {
    if SplitHostPort(t).Some? {
      var (host, text) := SplitHostPort(t).value;
      hide SplitHostPort, Dotted, ParseQuad, Quad, Atoi;
      forall ip: bytes | |ip| == 4
        ensures Dotted(host, ip) <==> ParseQuad(host) == Some(ip)
      {
        QuadSpelled(host, ip);
        QuadExactly(host, ip);
      }
      QuadLengths(host);
      if |h.port| == 2 {
        assert h.port == [h.port[0], h.port[1]];
      }
    }
  }

  lemma QuadLengths(host: bytes)
    ensures ParseQuad(host).Some? ==> |ParseQuad(host).value| == 4
  {
  }

  /** On a host with brackets, what Split returns, if anything, is another host. */
  lemma SplitNeverWrong(host: bytes, port: nat)
    requires !BracketFree(host)
    ensures var r := SplitHostPort(JoinHostPort(host, Dec(port)));
            r.Some? ==> r.value.0 != host
  {
    if COLON in host {
      hide Dec, Joined;
      LastColon([LBRACKET] + host + [RBRACKET], port);
      FirstClosing(host, port);
    } else {
      LastColon(host, port);
    }
  }

  /** Headers name the same destination exactly when address text and port are the same. */
  lemma DstInjective(g: Header, h: Header)
    requires Made(g) && Made(h)
    ensures Dst(g) == Dst(h) <==> HostText(g) == HostText(h) && g.port == h.port
    ensures g.atyp == h.atyp ==> (Dst(g) == Dst(h) <==> g == h)
  {
    hide Dec, Quad;
    if Dst(g) == Dst(h) {
      JoinInjective(HostText(g), BE16(g.port[0], g.port[1]), HostText(h), BE16(h.port[0], h.port[1]));
      assert g.port == [g.port[0], g.port[1]] && h.port == [h.port[0], h.port[1]];
    }
    if HostText(g) == HostText(h) && g.atyp == h.atyp == IPV4 {
      QuadParses(g.addr);
      QuadParses(h.addr);
    }
  }

  function Bracketed(host: bytes): (front: bytes)
    ensures COLON in front <==> COLON in host
  {
    if COLON in host then
      var front := [LBRACKET] + host + [RBRACKET];
      assert forall c :: c in host ==> c in front;
      front
    else host
  }

  lemma BracketedInjective(host: bytes, host': bytes)
    requires Bracketed(host) == Bracketed(host')
    ensures host == host'
  {
    if COLON in host {
      assert Bracketed(host)[1..|Bracketed(host)| - 1] == host;
      assert Bracketed(host')[1..|Bracketed(host')| - 1] == host';
    }
  }

  lemma JoinInjective(host: bytes, port: nat, host': bytes, port': nat)
    requires JoinHostPort(host, Dec(port)) == JoinHostPort(host', Dec(port'))
    ensures host == host' && port == port'
  {
    hide Dec, Joined;
    assert JoinHostPort(host, Dec(port)) == Joined(Bracketed(host), COLON, Dec(port));
    assert JoinHostPort(host', Dec(port')) == Joined(Bracketed(host'), COLON, Dec(port'));
    hide Bracketed, JoinHostPort;
    LastColon(Bracketed(host), port);
    LastColon(Bracketed(host'), port');
    BracketedInjective(host, host');
    AtoiDec(port);
    AtoiDec(port');
  }
}
