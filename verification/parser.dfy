/** The three request parsers of socks5-server/internal/parser/parser.go (RFC 1928, RFC 1929). */
module Parser {
  import opened Bytes
  import opened Constants
  import opened AddressText
  import opened Spelling

  // ---------- method selection, section 3 of RFC 1928 ----------

  const NO_AUTH: byte := 0
  const PASSWORD: byte := 2

  datatype Handshake = Method(code: byte) | NoAcceptable | Invalid

  /** The choice among the offered methods: user and password if offered, else none if offered and allowed. */
  function Choose(offered: set<byte>, allowNoAuth: bool): Handshake {
    if PASSWORD in offered then Method(PASSWORD)
    else if allowNoAuth && NO_AUTH in offered then Method(NO_AUTH)
    else NoAcceptable
  }

  function Elements(s: bytes): set<byte> {
    set c | c in s
  }

  predicate HandshakeForm(req: bytes) {
    |req| >= 3 && req[0] == 5 && req[1] >= 1 && |req| >= 2 + req[1] as nat
  }

  /** What a handshake request selects. */
  function Selected(req: bytes, allowNoAuth: bool): Handshake {
    if HandshakeForm(req) then Choose(Elements(req[2..2 + req[1] as nat]), allowNoAuth) else Invalid
  }

  /** `code` is among the methods the request says it offers. */
  predicate Offers(req: bytes, code: byte)
    requires |req| >= 2
  {
    exists i :: 2 <= i < 2 + req[1] as nat && i < |req| && req[i] == code
  }

  /** The selection in terms of the request's bytes: 2 exactly if it is offered, 0 exactly if it is offered and allowed
      and 2 is not. */
  lemma SelectedExactly(req: bytes, allowNoAuth: bool)
    ensures var r := Selected(req, allowNoAuth);
            var form := |req| >= 3 && req[0] == 5 && 1 <= req[1] as nat <= |req| - 2;
            && (r == Invalid <==> !form)
            && (r == Method(2) <==> form && Offers(req, 2))
            && (r == Method(0) <==> form && !Offers(req, 2) && Offers(req, 0) && allowNoAuth)
            && (r == NoAcceptable <==> form && !Offers(req, 2) && !(Offers(req, 0) && allowNoAuth))
  {
    if HandshakeForm(req) {
      var offered := req[2..2 + req[1] as nat];
      forall code: byte
        ensures code in Elements(offered) <==> Offers(req, code)
      {
        if Offers(req, code) {
          var i :| 2 <= i < 2 + req[1] as nat && i < |req| && req[i] == code;
          assert offered[i - 2] == code;
        }
      }
    }
  }

  /** The scan with its early return makes the declarative choice: order, repetitions and unknown codes among the
      offered methods do not matter. */
  method ParseHandshake(req: bytes, allowNoAuth: bool) returns (r: Handshake)
    ensures r == Selected(req, allowNoAuth)
    ensures r == Method(2) <==>
            |req| >= 3 && req[0] == 5 && 1 <= req[1] as nat <= |req| - 2 && Offers(req, 2)
    ensures r == Method(0) <==>
            |req| >= 3 && req[0] == 5 && 1 <= req[1] as nat <= |req| - 2 && !Offers(req, 2) && Offers(req, 0)
            && allowNoAuth
  {
    SelectedExactly(req, allowNoAuth);
    hide Offers;
    if |req| < 3 {
      return Invalid;
    }
    var nMethods: nat := req[1];
    if req[0] != 5 {
      return Invalid;
    }
    if nMethods < 1 || |req| < 2 + nMethods {
      return Invalid;
    }
    ghost var offered := req[2..2 + nMethods];
    var hasNoAuth := false;
    for i := 0 to nMethods
      invariant PASSWORD !in offered[..i]
      invariant hasNoAuth <==> allowNoAuth && NO_AUTH in offered[..i]
    {
      assert req[2 + i] == offered[i] && offered[..i + 1] == offered[..i] + [offered[i]];
      match req[2 + i] {
        case 0 =>
          if allowNoAuth {
            hasNoAuth := true;
          }
        case 2 =>
          assert PASSWORD in offered;
          return Method(PASSWORD);
        case _ =>
      }
    }
    assert offered[..nMethods] == offered;
    return if hasNoAuth then Method(NO_AUTH) else NoAcceptable;
  }

  /** Permuting the offered methods changes nothing. */
  lemma ChoiceIgnoresOrder(p: bytes, q: bytes, allowNoAuth: bool)
    requires multiset(p) == multiset(q)
    ensures Choose(Elements(p), allowNoAuth) == Choose(Elements(q), allowNoAuth)
  {
    assert forall c :: c in p <==> c in multiset(p);
    assert forall c :: c in q <==> c in multiset(q);
    assert Elements(p) == Elements(q);
  }

  // ---------- user and password, section 2 of RFC 1929 ----------

  datatype User = User(name: bytes, password: bytes)

  /** ParseAuthRequest; None stands for its error. */
  function ParseAuth(req: bytes): Option<User> {
    if |req| < 5 || req[0] != 1 then None
    else
      var uLen: nat := req[1];
      if |req| < 3 + uLen then None
      else
        var pLen: nat := req[2 + uLen];
        if |req| != 3 + uLen + pLen then None
        else Some(User(req[2..2 + uLen], req[3 + uLen..]))
  }

  predicate Encodable(u: User) {
    |u.name| <= 255 && |u.password| <= 255
  }

  function EncodeAuth(u: User): bytes
    requires Encodable(u)
  {
    [1, |u.name|] + u.name + [|u.password|] + u.password
  }

  /** A request is accepted exactly when it is the encoding of the returned pair; of all encodable pairs only those
      with fewer than two characters in all are refused. */
  lemma AuthExactly(req: bytes, u: User)
    ensures ParseAuth(req) == Some(u) <==> Encodable(u) && |u.name| + |u.password| >= 2 && req == EncodeAuth(u)
  {
    if ParseAuth(req) == Some(u) {
      AuthPieces(req);
    } else if Encodable(u) && |u.name| + |u.password| >= 2 {
      EncodedAuth(u);
    }
  }

  lemma AuthPieces(req: bytes)
    requires ParseAuth(req).Some?
    ensures Encodable(ParseAuth(req).value) && req == EncodeAuth(ParseAuth(req).value)
  {
    var uLen: nat := req[1];
    assert req == [req[0], req[1]] + req[2..2 + uLen] + [req[2 + uLen]] + req[3 + uLen..];
  }

  lemma EncodedAuth(u: User)
    requires Encodable(u) && |u.name| + |u.password| >= 2
    ensures ParseAuth(EncodeAuth(u)) == Some(u)
  {
    var req := EncodeAuth(u);
    var n := |u.name|;
    assert req == [1, n] + (u.name + ([|u.password|] + u.password));
    assert req[2..2 + n] == u.name && req[2 + n] == |u.password| && req[3 + n..] == u.password;
  }

  /** No two pairs share an encoding. */
  lemma AuthInjective(u: User, v: User)
    requires Encodable(u) && Encodable(v) && EncodeAuth(u) == EncodeAuth(v)
    ensures u == v
  {
    var n := |u.name|;
    assert EncodeAuth(u)[1] == n && EncodeAuth(v)[1] == |v.name|;
    assert EncodeAuth(u)[2..2 + n] == u.name && EncodeAuth(v)[2..2 + n] == v.name;
    assert EncodeAuth(u)[3 + n..] == u.password && EncodeAuth(v)[3 + n..] == v.password;
  }

  // ---------- the request, sections 4 and 5 of RFC 1928 ----------

  const CONNECT: byte := 1
  const UDP_ASSOCIATE: byte := 3

  /** Panics stands for an index or a slice bound out of range, which the caller does not recover from. */
  datatype Request = Accepted(cmd: byte, addr: bytes) | Refused | Panics

  function AddrText(host: bytes, port: nat): bytes {
    Joined(host, COLON, Dec(port))
  }

  /** ParseConnectRequest. The name's length is a byte, so the positions behind the name are computed modulo 256. */
  function ParseConnect(req: bytes): Request {
    if |req| < 4 then Refused
    else if req[0] != 5 || (req[1] != CONNECT && req[1] != UDP_ASSOCIATE) then Refused
    else if req[1] == UDP_ASSOCIATE then Accepted(UDP_ASSOCIATE, [])
    else if req[3] == IPV4 then
      if |req| != 10 then Refused
      else Accepted(CONNECT, AddrText(Quad(req[4..8]), BE16(req[8], req[9])))
    else if req[3] == DOMAIN then
      if |req| < 5 then Panics
      else
        var nameLen := req[4];
        if |req| != 7 + nameLen as nat then Refused
        else
          var behind, behind1 := Low8(5 + nameLen as nat), Low8(6 + nameLen as nat);
          if behind < 5 then Panics
          else Accepted(CONNECT, AddrText(req[5..behind], BE16(req[behind], req[behind1])))
    else Refused
  }

  function EncodeIpv4(rsv: byte, ip: bytes, port: bytes): bytes {
    [5, CONNECT, rsv, IPV4] + ip + port
  }

  function EncodeDomain(rsv: byte, name: bytes, port: bytes): bytes
    requires |name| <= 255
  {
    [5, CONNECT, rsv, DOMAIN, |name|] + name + port
  }

  lemma ConnectIpv4(rsv: byte, ip: bytes, port: bytes)
    requires |ip| == 4 && |port| == 2
    ensures ParseConnect(EncodeIpv4(rsv, ip, port))
            == Accepted(CONNECT, AddrText(Quad(ip), BE16(port[0], port[1])))
  {
    var req := EncodeIpv4(rsv, ip, port);
    assert req[4..8] == ip;
  }

  /** A name of 0 to 249 bytes is parsed as encoded. One of 250 bytes keeps its name but always gets 5, the version
      byte of the request, for the low byte of its port. Longer ones panic. */
  lemma ConnectDomainExactly(rsv: byte, name: bytes, port: bytes)
    requires |name| <= 255 && |port| == 2
    ensures var r := ParseConnect(EncodeDomain(rsv, name, port));
            && (r == Accepted(CONNECT, AddrText(name, BE16(port[0], port[1]))) <==>
                  |name| <= 249 || (|name| == 250 && port[1] == 5))
            && (|name| == 250 ==> r == Accepted(CONNECT, AddrText(name, BE16(port[0], 5))))
            && (r == Panics <==> |name| >= 251)
  {
    hide Dec;
    var req := EncodeDomain(rsv, name, port);
    var n := |name|;
    assert req[4] == n && |req| == 7 + n && req[5..5 + n] == name && req[5 + n] == port[0] && req[6 + n] == port[1];
    if n == 250 {
      assert Low8(6 + n) == 0 && req[0] == 5;
      if port[1] != 5 && AddrText(name, BE16(port[0], 5)) == AddrText(name, BE16(port[0], port[1])) {
        TextInjective(name, BE16(port[0], 5), name, BE16(port[0], port[1]));
        assert false;
      }
    }
  }

  /** The part behind the last colon is the port and the part in front the host, whatever the host contains. */
  lemma TextDecodes(host: bytes, port: nat)
    ensures var t := AddrText(host, port);
            var i := FindLast(t, COLON);
            i >= 0 && t[..i] == host && Atoi(t[i + 1..]) == port
  {
    LastColon(host, port);
    AtoiDec(port);
  }

  /** The 8-bit positions agree with the integer ones exactly for names up to 249 bytes. */
  lemma EightBitIndices(nameLen: byte)
    ensures Low8(5 + nameLen as nat) == 5 + nameLen as nat && Low8(6 + nameLen as nat) == 6 + nameLen as nat
            <==> nameLen <= 249
  {
  }

  /** Exactly the requests that are accepted, and those that panic; all others are refused. */
  lemma ConnectExactly(req: bytes)
    ensures ParseConnect(req).Accepted? <==>
            |req| >= 4 && req[0] == 5
            && (req[1] == UDP_ASSOCIATE
                || (req[1] == CONNECT && req[3] == IPV4 && |req| == 10)
                || (req[1] == CONNECT && req[3] == DOMAIN && |req| >= 5 && |req| == 7 + req[4] as nat && req[4] <= 250))
    ensures ParseConnect(req).Panics? <==>
            |req| >= 4 && req[0] == 5 && req[1] == CONNECT && req[3] == DOMAIN
            && (|req| == 4 || (|req| == 7 + req[4] as nat && req[4] >= 251))
  {
    hide Quad, Dec, AddrText;
  }

  /** The address text is too long for its one length byte exactly for a 250-byte name whose port, as parsed, needs
      five digits. */
  lemma TextFits(req: bytes)
    requires ParseConnect(req).Accepted? && req[1] == CONNECT
    ensures 1 <= |ParseConnect(req).addr| <= 256
    ensures |ParseConnect(req).addr| <= 255 <==> !(req[3] == DOMAIN && req[4] == 250 && req[255] >= 40)
  {
    hide Quad, Dec;
    if req[3] == IPV4 {
      var port := BE16(req[8], req[9]);
      DecLength(port);
      QuadLength(req[4..8]);
      JoinedParts(Quad(req[4..8]), COLON, Dec(port));
    } else {
      var n: nat := req[4];
      var port := BE16(req[5 + n], req[Low8(6 + n)]);
      DecLength(port);
      JoinedParts(req[5..5 + n], COLON, Dec(port));
    }
  }

  lemma QuadLength(ip: bytes)
    requires |ip| == 4
    ensures |Quad(ip)| <= 23
  {
    hide Dec;
    DecLength(ip[0]);
    DecLength(ip[1]);
    DecLength(ip[2]);
    DecLength(ip[3]);
  }

  /** Two requests that agree in type, address and port, except that with a 250-byte name the low byte of the port does
      not count. */
  predicate SameBytes(p: bytes, q: bytes)
    requires |p| >= 5 && |q| >= 5
  {
    && |p| == |q| && p[3..|p| - 1] == q[3..|q| - 1]
    && (p[|p| - 1] == q[|q| - 1] || (p[3] == DOMAIN && p[4] == 250))
  }

  /** `d` asks for a domain whose name is the text of the address `i` asks for, and for the same port. */
  predicate Spells(d: bytes, i: bytes) {
    |i| == 10 && |d| >= 3 && (QuadLength(i[4..8]); d == EncodeDomain(d[2], Quad(i[4..8]), i[8..10]))
  }

  /** What makes two accepted requests lead to one text, in terms of their bytes. */
  predicate SameTarget(p: bytes, q: bytes)
    requires |p| >= 5 && |q| >= 5
  {
    if p[3] == q[3] then SameBytes(p, q) else if p[3] == DOMAIN then Spells(p, q) else Spells(q, p)
  }

  /** Host and port of an accepted request, as parsed. */
  function Host(req: bytes): bytes
    requires ParseConnect(req).Accepted? && req[1] == CONNECT
  {
    if req[3] == IPV4 then Quad(req[4..8]) else req[5..|req| - 2]
  }

  function Port(req: bytes): nat
    requires ParseConnect(req).Accepted? && req[1] == CONNECT
  {
    var n := |req|;
    BE16(req[n - 2], if req[3] == DOMAIN && req[4] == 250 then req[0] else req[n - 1])
  }

  lemma TextOf(req: bytes)
    requires ParseConnect(req).Accepted? && req[1] == CONNECT
    ensures ParseConnect(req) == Accepted(CONNECT, AddrText(Host(req), Port(req)))
    ensures req[0] == 5 && |req| >= 7 && (req[3] == IPV4 || req[3] == DOMAIN)
    ensures if req[3] == IPV4 then |req| == 10 else |req| == 7 + req[4] as nat
  {
    hide Quad, AddrText;
  }

  /** A request for an address, with this dotted form and the port in network order. */
  ghost predicate AsksForAddress(req: bytes, t: bytes)
    requires |req| >= 4
  {
    && req[3] == 1 && |req| == 10
    && exists host :: Dotted(host, req[4..8]) && HostPort(t, host, 256 * req[8] as nat + req[9])
  }

  /** A request for a name; with one of 250 bytes the low byte of the port is 5. */
  ghost predicate AsksForName(req: bytes, t: bytes)
    requires |req| >= 4
  {
    var n := |req|;
    && req[3] == 3 && n >= 5 && n == 7 + req[4] as nat && req[4] <= 250
    && HostPort(t, req[5..n - 2], 256 * req[n - 2] as nat + if req[4] == 250 then 5 else req[n - 1])
  }

  /** What a request is understood to ask for, in terms of its bytes. */
  lemma AsksExactly(req: bytes, t: bytes)
    ensures ParseConnect(req) == Accepted(1, t) <==>
            |req| >= 4 && req[0] == 5 && req[1] == 1 && (AsksForAddress(req, t) || AsksForName(req, t))
    ensures ParseConnect(req) == Accepted(3, t) <==> |req| >= 4 && req[0] == 5 && req[1] == 3 && t == []
    ensures ParseConnect(req).Accepted? ==> ParseConnect(req).cmd == 1 || ParseConnect(req).cmd == 3
  {
    if |req| >= 4 {
      TextAsked(req, t);
    }
    ConnectExactly(req);
    if ParseConnect(req).Accepted? && req[1] == CONNECT {
      TextOf(req);
    }
    hide Quad, AddrText, AsksForAddress, AsksForName, Host, Port;
  }

  lemma TextAsked(req: bytes, t: bytes)
    requires |req| >= 4
    ensures AsksForAddress(req, t) <==>
            req[3] == 1 && |req| == 10 && t == AddrText(Quad(req[4..8]), BE16(req[8], req[9]))
    ensures var n := |req|;
            AsksForName(req, t) <==>
            req[3] == 3 && n >= 5 && n == 7 + req[4] as nat && req[4] <= 250
            && t == AddrText(req[5..n - 2], BE16(req[n - 2], if req[4] == 250 then 5 else req[n - 1]))
  {
    var n := |req|;
    if |req| == 10 {
      var port := BE16(req[8], req[9]);
      HostPortSpelled(t, Quad(req[4..8]), port);
      QuadSpelled(Quad(req[4..8]), req[4..8]);
      forall host | Dotted(host, req[4..8])
        ensures host == Quad(req[4..8])
      {
        QuadSpelled(host, req[4..8]);
      }
    }
    if n >= 7 {
      HostPortSpelled(t, req[5..n - 2], BE16(req[n - 2], if req[4] == 250 then 5 else req[n - 1]));
    }
    hide Quad, Dec, Dotted, HostPort;
  }

  lemma SameParts(p: bytes, q: bytes)
    requires ParseConnect(p).Accepted? && ParseConnect(q).Accepted? && p[1] == q[1] == CONNECT && p[3] == q[3]
    requires |p| >= 7 && |q| >= 7 && Host(p) == Host(q) && Port(p) == Port(q)
    ensures SameBytes(p, q)
  {
    TextOf(p);
    TextOf(q);
    var i := if p[3] == IPV4 then 4 else 5;
    Assembled(p, i);
    Assembled(q, i);
    hide ParseConnect, Quad, AddrText;
    if p[3] == IPV4 {
      QuadParses(p[4..8]);
      QuadParses(q[4..8]);
      assert p[3..4] == [p[3]] == q[3..4];
    } else {
      assert |Host(p)| == p[4] as nat && |Host(q)| == q[4] as nat;
      assert p[3..5] == [p[3], p[4]] == q[3..5];
    }
  }

  lemma PartsSame(p: bytes, q: bytes)
    requires ParseConnect(p).Accepted? && ParseConnect(q).Accepted? && p[1] == q[1] == CONNECT && p[3] == q[3]
    requires |p| >= 7 && |q| >= 7 && SameBytes(p, q)
    ensures Host(p) == Host(q) && Port(p) == Port(q)
  {
    TextOf(p);
    TextOf(q);
    hide ParseConnect, Quad, AddrText;
    Slices(p, q);
  }

  lemma Inner(p: bytes, i: nat)
    requires 3 <= i <= |p| - 2
    ensures p[i..|p| - 2] == p[3..|p| - 1][i - 3..|p| - 5]
  {
    var s := p[3..|p| - 1];
    var r := s[i - 3..|p| - 5];
    assert |r| == |p| - 2 - i && forall k :: 0 <= k < |r| ==> r[k] == s[i - 3 + k] == p[i + k];
  }

  lemma Slices(p: bytes, q: bytes)
    requires |p| == |q| >= 7 && p[3..|p| - 1] == q[3..|q| - 1]
    ensures p[4] == q[4] && p[|p| - 2] == q[|q| - 2]
    ensures p[4..|p| - 2] == q[4..|q| - 2] && p[5..|p| - 2] == q[5..|q| - 2]
  {
    var n := |p|;
    Inner(p, 4);
    Inner(q, 4);
    Inner(p, 5);
    Inner(q, 5);
    assert p[4] == p[3..n - 1][1] && q[4] == q[3..n - 1][1];
    assert p[n - 2] == p[3..n - 1][n - 5] && q[n - 2] == q[3..n - 1][n - 5];
  }

  lemma AcrossKinds(d: bytes, i: bytes)
    requires ParseConnect(d).Accepted? && ParseConnect(i).Accepted? && d[1] == i[1] == CONNECT
    requires d[3] == DOMAIN && i[3] == IPV4
    ensures Host(d) == Host(i) && Port(d) == Port(i) <==> Spells(d, i)
  {
    TextOf(d);
    TextOf(i);
    QuadLength(i[4..8]);
    hide ParseConnect, Quad, AddrText;
    if Host(d) == Host(i) && Port(d) == Port(i) {
      assert d[4] as nat == |Host(d)| <= 23;
      hide Host, Port;
      DomainWhole(d, Quad(i[4..8]), i[8..10]);
    } else if Spells(d, i) {
      DomainParts(d, Quad(i[4..8]), i[8..10]);
    }
  }

  lemma DomainWhole(d: bytes, name: bytes, port: bytes)
    requires |name| <= 255 && |port| == 2 && |d| == 7 + |name| && d[0] == 5 && d[1] == CONNECT && d[3] == DOMAIN
    requires d[4] as nat == |name| && d[5..|d| - 2] == name
    requires BE16(d[|d| - 2], d[|d| - 1]) == BE16(port[0], port[1])
    ensures d == EncodeDomain(d[2], name, port)
  {
    assert [d[|d| - 2], d[|d| - 1]] == port;
    assert d == [d[0], d[1], d[2], d[3], d[4]] + d[5..|d| - 2] + [d[|d| - 2], d[|d| - 1]];
  }

  lemma DomainParts(d: bytes, name: bytes, port: bytes)
    requires |name| <= 255 && |port| == 2 && |d| >= 3 && d == EncodeDomain(d[2], name, port)
    ensures |d| == 7 + |name| && d[4] as nat == |name| && d[5..|d| - 2] == name
    ensures d[|d| - 2] == port[0] && d[|d| - 1] == port[1]
  {
  }

  /** Accepted requests lead to the same text exactly when host and port are parsed the same. That is: for requests of
      one kind, when they are the same but for the reserved byte and, with a 250-byte name, the last one; for an address
      and a name, when the name is the address's own text and the ports are the same. */
  lemma TextDetermines(p: bytes, q: bytes)
    requires ParseConnect(p).Accepted? && ParseConnect(q).Accepted? && p[1] == q[1] == CONNECT
    ensures ParseConnect(p) == ParseConnect(q) <==> Host(p) == Host(q) && Port(p) == Port(q)
    ensures |p| >= 7 && |q| >= 7 && (ParseConnect(p) == ParseConnect(q) <==> SameTarget(p, q))
  {
    TextOf(p);
    TextOf(q);
    hide ParseConnect, Host, Port, SameBytes, Spells, AddrText;
    if ParseConnect(p) == ParseConnect(q) {
      TextInjective(Host(p), Port(p), Host(q), Port(q));
    }
    if p[3] == q[3] {
      if SameBytes(p, q) {
        PartsSame(p, q);
      } else if ParseConnect(p) == ParseConnect(q) {
        SameParts(p, q);
      }
    } else if p[3] == DOMAIN {
      AcrossKinds(p, q);
    } else {
      AcrossKinds(q, p);
    }
  }

  /** Every address collides with a name in this way: two different accepted requests, one text. */
  lemma KindsCollide(rsv: byte, rsv': byte, ip: bytes, port: bytes)
    requires |ip| == 4 && |port| == 2
    ensures |Quad(ip)| <= 249
    ensures var p, q := EncodeIpv4(rsv, ip, port), EncodeDomain(rsv', Quad(ip), port);
            && p[3] != q[3]
            && ParseConnect(p) == ParseConnect(q) == Accepted(CONNECT, AddrText(Quad(ip), BE16(port[0], port[1])))
  {
    QuadLength(ip);
    ConnectIpv4(rsv, ip, port);
    ConnectDomainExactly(rsv', Quad(ip), port);
  }

  lemma Assembled(req: bytes, i: nat)
    requires 3 <= i <= |req| - 2
    ensures req[3..|req| - 1] == req[3..i] + req[i..|req| - 2] + [req[|req| - 2]]
  {
  }

  lemma TextInjective(host: bytes, port: nat, host': bytes, port': nat)
    requires AddrText(host, port) == AddrText(host', port')
    ensures host == host' && port == port'
  {
    TextDecodes(host, port);
    TextDecodes(host', port');
  }
}
