/** A session takes each single Read for a message. What becomes of a client whose messages arrive in other pieces. */
module Segmentation {
  import opened Bytes
  import opened Constants
  import opened AddressText
  import opened Parser
  import opened Session

  /** The session hands this address to the relay. */
  ghost predicate Announces(w: World, heard: seq<bytes>, addr: bytes)
    requires Sane(w)
  {
    exists ok :: Announced(addr, ok) in Script(w, heard)
  }

  /** A handshake of just its stated length. */
  predicate WholeHandshake(m: bytes) {
    HandshakeForm(m) && |m| == 2 + m[1] as nat
  }

  /** What a client has to say to be connected to `addr`: handshake, pair if it has to, request. */
  predicate Dialogue(w: World, ms: seq<bytes>, addr: bytes) {
    && |ms| >= 2 && WholeHandshake(ms[0]) && ParseConnect(ms[|ms| - 1]) == Accepted(CONNECT, addr)
    && match Selected(ms[0], w.allowNoAuth)
       case Method(code) => if code == NO_AUTH then |ms| == 2 else |ms| == 3 && ParseAuth(ms[1]).Some?
       case _ => false
  }

  // ---------- what a script announces ----------

  /** The request to which a script gives an answer, if it comes so far. */
  function Decisive(w: World, heard: seq<bytes>): Option<bytes> {
    if heard == [] then None
    else
      match Selected(heard[0], w.allowNoAuth)
      case Method(code) =>
        if code == NO_AUTH then if |heard| >= 2 then Some(heard[1]) else None
        else if |heard| >= 3 && Known(w, heard[1]) then Some(heard[2]) else None
      case _ => None
  }

  lemma AnnouncesExactly(w: World, heard: seq<bytes>, addr: bytes)
    requires Sane(w)
    ensures Announces(w, heard, addr) <==>
            var req := Decisive(w, heard);
            req.Some? && ParseConnect(req.value) == Accepted(CONNECT, addr) && w.dial(CONNECT).Some?
  {
    var req := Decisive(w, heard);
    forall ok
      ensures Announced(addr, ok) in Script(w, heard) <==> req.Some? && Announced(addr, ok) in Answer(w, req.value)
    {
      AnnouncedWhere(w, heard, addr, ok);
    }
    if req.Some? {
      AnswerAnnounces(w, req.value, addr);
    }
    hide Script, Answer, Decisive, ParseConnect;
  }

  lemma AnnouncedWhere(w: World, heard: seq<bytes>, addr: bytes, ok: bool)
    requires Sane(w)
    ensures var req := Decisive(w, heard);
            Announced(addr, ok) in Script(w, heard) <==> req.Some? && Announced(addr, ok) in Answer(w, req.value)
  {
    hide Answer, Selected, Known;
    if |heard| > 1 {
      JudgementAnnouncesNothing(w, heard, addr, ok);
      hide Judgement;
    }
  }

  lemma AnswerAnnounces(w: World, req: bytes, addr: bytes)
    requires Sane(w)
    ensures (exists ok :: Announced(addr, ok) in Answer(w, req)) <==>
            ParseConnect(req) == Accepted(CONNECT, addr) && w.dial(CONNECT).Some?
  {
    hide Takes;
    if ParseConnect(req).Accepted? {
      CommandKnown(req);
    }
    hide ParseConnect;
    if ParseConnect(req) == Accepted(CONNECT, addr) && w.dial(CONNECT).Some? {
      var es := Associated(w, CONNECT, addr, w.dial(CONNECT).value);
      assert Announced(addr, Takes(w, w.dial(CONNECT).value, addr)) == es[0];
      assert Answer(w, req) == [Dialled(CONNECT, true)] + es;
      assert es[0] in Answer(w, req);
    }
  }

  // ---------- messages cut short ----------

  lemma HandshakeCut(m: bytes, h: bytes)
    requires WholeHandshake(m) && h < m
    ensures !HandshakeForm(h)
  {
  }

  /** Bytes behind a handshake do not change the choice. */
  lemma HandshakeLong(m: bytes, c: bytes, allowNoAuth: bool)
    requires WholeHandshake(m)
    ensures Selected(m + c, allowNoAuth) == Selected(m, allowNoAuth)
  {
    assert (m + c)[2..2 + m[1] as nat] == m[2..2 + m[1] as nat];
  }

  lemma AuthCut(m: bytes, h: bytes)
    requires ParseAuth(m).Some? && h < m
    ensures ParseAuth(h) == None
  {
  }

  lemma RequestCut(m: bytes, h: bytes)
    requires ParseConnect(m).Accepted? && m[1] == CONNECT && h < m
    ensures !ParseConnect(h).Accepted?
  {
    hide Quad, AddrText;
  }

  // ---------- a client that waits for each answer ----------

  /** Every message heard is the beginning of the one the client is at. */
  predicate InStep(heard: seq<bytes>, ms: seq<bytes>) {
    |heard| <= |ms| && forall i :: 0 <= i < |heard| ==> heard[i] <= ms[i]
  }

  /** A client that sends each message only when the one before was answered is connected exactly if each of its
      messages is heard whole, its pair, if one was asked for, is known and the relay can be dialled; and it is
      connected to nothing but what it asked for. */
  lemma InStepOpens(w: World, ms: seq<bytes>, addr: bytes, heard: seq<bytes>)
    requires Sane(w) && Dialogue(w, ms, addr) && InStep(heard, ms)
    ensures Announces(w, heard, addr) <==>
            heard == ms && w.dial(CONNECT).Some? && (|ms| == 3 ==> Known(w, ms[1]))
    ensures forall other :: Announces(w, heard, other) ==> other == addr
  {
    WholeOnly(w, ms, addr, heard);
    forall other
      ensures Announces(w, heard, other) <==>
              Decisive(w, heard).Some? && ParseConnect(Decisive(w, heard).value) == Accepted(CONNECT, other)
              && w.dial(CONNECT).Some?
    {
      AnnouncesExactly(w, heard, other);
    }
    hide Announces, Decisive, ParseConnect, Selected, Known;
  }

  lemma WholeOnly(w: World, ms: seq<bytes>, addr: bytes, heard: seq<bytes>)
    requires Dialogue(w, ms, addr) && InStep(heard, ms)
    ensures heard == ms && (|ms| == 3 ==> Known(w, ms[1])) ==> Decisive(w, heard) == Some(ms[|ms| - 1])
    ensures Decisive(w, heard).Some? && ParseConnect(Decisive(w, heard).value).Accepted? ==>
              heard == ms && (|ms| == 3 ==> Known(w, ms[1]))
  {
    var n := |ms|;
    FirstWhole(w, ms, heard);
    ConnectCommand(ms[n - 1], addr);
    if |heard| == n && heard[n - 1] < ms[n - 1] {
      RequestCut(ms[n - 1], heard[n - 1]);
    }
    hide ParseConnect, ParseAuth, Selected, Known, HandshakeForm, WholeHandshake;
    if heard != [] && heard[0] == ms[0] {
      if n == 2 {
        assert |heard| == 2 && heard[1] == ms[1] ==> heard == ms;
      } else {
        assert |heard| == 3 && heard[1] == ms[1] && heard[2] == ms[2] ==> heard == ms;
      }
    }
  }

  /** The choice, and the verdict if there is one, are made on whole messages only. */
  lemma FirstWhole(w: World, ms: seq<bytes>, heard: seq<bytes>)
    requires |ms| >= 2 && WholeHandshake(ms[0]) && (|ms| == 3 ==> ParseAuth(ms[1]).Some?) && InStep(heard, ms)
    ensures heard != [] && heard[0] != ms[0] ==> Selected(heard[0], w.allowNoAuth) == Invalid
    ensures |ms| == 3 && |heard| > 1 && heard[1] != ms[1] ==> !Known(w, heard[1])
  {
    if heard != [] && heard[0] != ms[0] {
      HandshakeCut(ms[0], heard[0]);
    }
    if |ms| == 3 && |heard| > 1 && heard[1] != ms[1] {
      AuthCut(ms[1], heard[1]);
    }
  }

  lemma ConnectCommand(req: bytes, addr: bytes)
    requires ParseConnect(req) == Accepted(CONNECT, addr)
    ensures |req| >= 7 && req[1] == CONNECT
  {
    TextOf(req);
  }

  // ---------- a client that does not wait ----------

  lemma QuadText(ip: bytes)
    requires |ip| == 4
    ensures |Quad(ip)| >= 7 && forall c :: c in Quad(ip) ==> c == DOT || IsDigit(c)
  {
    hide Dec, Joined;
    DecIsCanonical(ip[0]);
    DecIsCanonical(ip[1]);
    DecIsCanonical(ip[2]);
    DecIsCanonical(ip[3]);
    var t2 := Joined(Dec(ip[2]), DOT, Dec(ip[3]));
    var t1 := Joined(Dec(ip[1]), DOT, t2);
    JoinedParts(Dec(ip[2]), DOT, Dec(ip[3]));
    JoinedParts(Dec(ip[1]), DOT, t2);
    JoinedParts(Dec(ip[0]), DOT, t1);
  }

  /** No proper piece of a CONNECT request asks for what the whole asks for. */
  lemma PieceOfRequest(m: bytes, addr: bytes, i: nat, j: nat)
    requires ParseConnect(m) == Accepted(CONNECT, addr) && i <= j <= |m|
    ensures ParseConnect(m[i..j]) == Accepted(CONNECT, addr) <==> i == 0 && j == |m|
  {
    var q := m[i..j];
    assert m[0..|m|] == m;
    if ParseConnect(q) == Accepted(CONNECT, addr) {
      ConnectCommand(m, addr);
      ConnectCommand(q, addr);
      TextDetermines(m, q);
      TextOf(m);
      TextOf(q);
      hide ParseConnect;
      if m[3] == q[3] {
        assert |m| == |q|;
      } else if m[3] == DOMAIN {
        NoAddressInside(m, q, i);
      }
    }
  }

  /** A request for a domain that spells an address does not contain the request for that address. */
  lemma NoAddressInside(d: bytes, q: bytes, i: nat)
    requires |q| == 10 && Spells(d, q) && i + 10 <= |d|
    ensures !(q[0] == 5 && q[1] == CONNECT && q[3] == IPV4 && d[i..i + 10] == q)
  {
    QuadLength(q[4..8]);
    hide Quad;
    SpelledBytes(d, Quad(q[4..8]), q[8..10], q[4..8], i);
    if d[i..i + 10] == q {
      PieceBytes(d, q, i);
    }
  }

  lemma PieceBytes(d: bytes, q: bytes, i: nat)
    requires i + 10 <= |d| && d[i..i + 10] == q
    ensures d[i] == q[0] && d[i + 1] == q[1] && d[i + 3] == q[3]
  {
  }

  /** No byte of a spelled name can be taken for the version. */
  lemma SpelledBytes(d: bytes, name: bytes, port: bytes, ip: bytes, i: nat)
    requires |ip| == 4 && name == Quad(ip) && |name| <= 255 && |port| == 2
    requires |d| >= 3 && d == EncodeDomain(d[2], name, port) && i + 10 <= |d|
    ensures d[0] == 5 && d[1] == CONNECT && d[3] == DOMAIN && d[4] >= 7
    ensures i >= 5 ==> d[i] >= DOT
  {
    QuadText(ip);
    DomainParts(d, name, port);
    if i >= 5 {
      assert d[i] == name[i - 5] && name[i - 5] in name;
    }
  }

  /** A client that needs no authentication and sends handshake and request in one go is connected to what it asked for
      exactly if the two are heard as the two messages they are. */
  lemma PipelinedOpens(w: World, hello: bytes, req: bytes, addr: bytes, heard: seq<bytes>, left: bytes)
    requires Sane(w) && Dialogue(w, [hello, req], addr) && Listened(w, heard, hello + req, left)
    ensures Announces(w, heard, addr) <==>
            |heard| >= 2 && heard[0] == hello && heard[1] == req && w.dial(CONNECT).Some?
  {
    AnnouncesExactly(w, heard, addr);
    assert [hello, req][1] == req;
    hide Announces;
    if heard != [] {
      var rest := Flatten(heard[1..]);
      if |heard[0]| < |hello| {
        CutFirst(hello, req, heard[0], rest, left);
        HandshakeCut(hello, heard[0]);
      } else {
        PieceAfter(hello, req, heard, left);
        PipelinedDecides(w, hello, req, addr, heard);
      }
    }
  }

  lemma CutFirst(hello: bytes, req: bytes, first: bytes, rest: bytes, left: bytes)
    requires hello + req == first + rest + left && |first| < |hello|
    ensures first < hello
  {
    assert first == (first + rest + left)[..|first|] == (hello + req)[..|first|];
  }

  lemma PipelinedDecides(w: World, hello: bytes, req: bytes, addr: bytes, heard: seq<bytes>)
    requires Dialogue(w, [hello, req], addr) && heard != [] && |hello| <= |heard[0]|
    requires var k := |heard[0]| - |hello|;
             && k <= |req| && heard[0] == hello + req[..k]
             && (|heard| >= 2 ==> k + |heard[1]| <= |req| && heard[1] == req[k..k + |heard[1]|])
    ensures Decisive(w, heard).Some? && ParseConnect(Decisive(w, heard).value) == Accepted(CONNECT, addr)
            <==> |heard| >= 2 && heard[0] == hello && heard[1] == req
  {
    LongDecides(w, hello, req, addr, heard, |heard[0]| - |hello|);
    hide ParseConnect, Decisive, Dialogue;
    if |heard| >= 2 {
      SecondDecides(hello, req, addr, heard[0], heard[1]);
    }
  }

  lemma SecondDecides(hello: bytes, req: bytes, addr: bytes, first: bytes, second: bytes)
    requires ParseConnect(req) == Accepted(CONNECT, addr) && |hello| <= |first|
    requires var k := |first| - |hello|;
             k + |second| <= |req| && first == hello + req[..k] && second == req[k..k + |second|]
    ensures ParseConnect(second) == Accepted(CONNECT, addr) <==> first == hello && second == req
  {
    hide ParseConnect;
    var k := |first| - |hello|;
    PieceOfRequest(req, addr, k, k + |second|);
    Boundary(hello, req, first, second, k);
  }

  lemma Boundary(hello: bytes, req: bytes, first: bytes, second: bytes, k: nat)
    requires k + |second| <= |req| && first == hello + req[..k] && second == req[k..k + |second|]
    ensures k == 0 && k + |second| == |req| <==> first == hello && second == req
  {
    assert |first| == |hello| + k && req[0..|req|] == req;
    if k == 0 {
      assert req[..k] == [];
    }
  }

  lemma LongDecides(w: World, hello: bytes, req: bytes, addr: bytes, heard: seq<bytes>, k: nat)
    requires Dialogue(w, [hello, req], addr) && heard != [] && k <= |req| && heard[0] == hello + req[..k]
    ensures Decisive(w, heard) == if |heard| >= 2 then Some(heard[1]) else None
    ensures ParseConnect(req) == Accepted(CONNECT, addr)
  {
    assert [hello, req][1] == req;
    HandshakeLong(hello, req[..k], w.allowNoAuth);
    hide ParseConnect, Selected, Known, ParseAuth;
  }

  /** What is heard first and second, if the first covers the handshake. */
  lemma PieceAfter(hello: bytes, req: bytes, heard: seq<bytes>, left: bytes)
    requires heard != [] && hello + req == Flatten(heard) + left && |hello| <= |heard[0]|
    ensures var k := |heard[0]| - |hello|;
            && k <= |req| && heard[0] == hello + req[..k]
            && (|heard| >= 2 ==> k + |heard[1]| <= |req| && heard[1] == req[k..k + |heard[1]|])
  {
    var k := |heard[0]| - |hello|;
    var rest := Flatten(heard[1..]);
    Assoc(heard[0], rest, left);
    Aligned(hello, req, heard[0], rest + left);
    if |heard| >= 2 {
      var more := Flatten(heard[1..][1..]);
      assert rest == heard[1] + more;
      Assoc(heard[1], more, left);
      hide Flatten;
      FrontOf(req, k, heard[1], more + left);
    }
  }

  lemma FrontOf(req: bytes, k: nat, second: bytes, more: bytes)
    requires k <= |req| && req[k..] == second + more
    ensures k + |second| <= |req| && second == req[k..k + |second|]
  {
    assert |req[k..]| == |second| + |more|;
    assert req[k..][..|second|] == second;
  }

  lemma Aligned(hello: bytes, req: bytes, first: bytes, rest: bytes)
    requires hello + req == first + rest && |hello| <= |first|
    ensures var k := |first| - |hello|; k <= |req| && first == hello + req[..k] && rest == req[k..]
  {
    var k := |first| - |hello|;
    var s := hello + req;
    assert k <= |req|;
    assert s[..|first|] == first && s[|first|..] == rest;
    assert s[..|first|] == hello + req[..k] && s[|first|..] == req[k..];
  }

  /** What the client sees otherwise: nothing at all on a handshake cut short; and on one heard together with bytes of
      the next message the method reply, while these bytes are gone and the session waits for a message. */
  lemma HandshakePieces(w: World, hello: bytes, h: bytes, c: bytes)
    requires Sane(w) && WholeHandshake(hello) && Selected(hello, w.allowNoAuth).Method? && h < hello
    ensures Script(w, [h]) == [] && !Wants(w, [h])
    ensures Script(w, [hello + c]) == [Wrote([5, Selected(hello, w.allowNoAuth).code])] && Wants(w, [hello + c])
  {
    HandshakeCut(hello, h);
    HandshakeLong(hello, c, w.allowNoAuth);
    OnHandshake(w, h);
    OnMethod(w, hello + c);
    CodesKnown(hello, w.allowNoAuth);
    hide Script, Wants;
  }

  lemma CodesKnown(hello: bytes, allowNoAuth: bool)
    ensures Selected(hello, allowNoAuth).Method? ==> Selected(hello, allowNoAuth).code in {NO_AUTH, PASSWORD}
  {
  }
}
