/**
 One SOCKS5 session: handleConnection and handleAuthMethod of socks5-server/internal/socks5/handler.go together with
 the replies the two association handlers write. What the session does is checked against an automaton of the
 protocol, and what that automaton allows is proved about all its event sequences.
 */
module Session {
  import opened Bytes
  import opened Constants
  import opened SecureChannel
  import opened Parser
  import F = Frames
  import P = Preamble

  const FAILURE: bytes := [5, 1, 0, 1, 0, 0, 0, 0, 0, 0]
  const CONNECTED: bytes := [5, 0, 0, 1, 0, 0, 0, 0, 0, 0]

  function Listening(port: nat): bytes
    requires port < 65536
  {
    [5, 0, 0, 1, 0x7F, 0, 0, 1] + PutBE16(port)
  }

  /** What a client that asked for UDP has to be told: the port of the listener on 127.0.0.1, in network order, or that
      there is none. */
  predicate TellsPort(listens: Option<nat>, d: bytes) {
    if listens.None? then d == [5, 1, 0, 1, 0, 0, 0, 0, 0, 0]
    else |d| == 10 && d[..8] == [5, 0, 0, 1, 127, 0, 0, 1] && BE16(d[8], d[9]) == listens.value
  }

  /** Whatever the session finds outside: the configuration, the user store, how much the link to the relay of a command
      takes before a write fails, if it can be dialled at all, the cipher on it and the nonces drawn for the two address
      frames, the UDP listener, and what comes back through the tunnel. */
  datatype World = World(
    allowNoAuth: bool,
    check: User -> bool,
    dial: byte -> Option<nat>,
    aead: F.Aead,
    nonces: (bytes, bytes),
    listens: Option<nat>,
    back: bytes)

  predicate Sane(w: World) {
    && (w.listens.Some? ==> w.listens.value < 65536)
    && |w.nonces.0| == F.NONCE && |w.nonces.1| == F.NONCE
  }

  /** The frames that tell the relay where to connect. */
  function AddressFrames(w: World, addr: bytes): seq<F.Packet> {
    [F.Packet(w.nonces.0, [P.LengthByte(addr)]), F.Packet(w.nonces.1, addr)]
  }

  /** A link with this much room takes both. */
  predicate Takes(w: World, room: nat, addr: bytes) {
    |F.Encode(w.aead, AddressFrames(w, addr))| <= room
  }

  datatype Event =
    | Wrote(data: bytes)              // a write to the client was started
    | Checked(user: User, ok: bool)   // the user store was asked
    | Dialled(cmd: byte, ok: bool)    // the relay was dialled, key exchange included
    | Announced(addr: bytes, ok: bool) // the address frames were written to the relay's link, which took both if `ok`
    | Tunnelled(data: bytes)          // bytes from the tunnel were written to the client

  // ---------- the protocol as an automaton ----------

  datatype Phase = Start | AwaitAuth | AuthGood | AuthBad | Ready | NoRelay | Linked(cmd: byte) | Told | Open | Over

  function Next(allowNoAuth: bool, p: Phase, e: Event): Option<Phase> {
    match (p, e)
    case (Start, Wrote(d)) =>
      if d == [5, 0xFF] then Some(Over)
      else if d == [5, 0] && allowNoAuth then Some(Ready)
      else if d == [5, 2] then Some(AwaitAuth) else None
    case (AwaitAuth, Checked(_, ok)) => Some(if ok then AuthGood else AuthBad)
    case (AwaitAuth, Wrote(d)) => if d == [1, 1] then Some(Over) else None
    case (AuthBad, Wrote(d)) => if d == [1, 1] then Some(Over) else None
    case (AuthGood, Wrote(d)) => if d == [1, 0] then Some(Ready) else None
    case (Ready, Dialled(cmd, ok)) => Some(if ok then Linked(cmd) else NoRelay)
    case (Ready, Wrote(d)) => if d == FAILURE then Some(Over) else None
    case (NoRelay, Wrote(d)) => if d == FAILURE then Some(Over) else None
    case (Linked(cmd), Wrote(d)) =>
      if d == FAILURE && cmd == UDP_ASSOCIATE then Some(Over)
      else if |d| == 10 && d[..8] == [5, 0, 0, 1, 0x7F, 0, 0, 1] && cmd == UDP_ASSOCIATE then Some(Over)
      else None
    case (Linked(cmd), Announced(_, ok)) => if cmd == CONNECT then Some(if ok then Told else Over) else None
    case (Told, Wrote(d)) => if d == CONNECTED then Some(Open) else None
    case (Open, Tunnelled(_)) => Some(Open)
    case _ => None
  }

  /** The phase after a sequence of events; None if the protocol does not allow them. */
  function Run(allowNoAuth: bool, es: seq<Event>): Option<Phase> {
    if es == [] then Some(Start)
    else
      match Run(allowNoAuth, es[..|es| - 1])
      case None => None
      case Some(p) => Next(allowNoAuth, p, es[|es| - 1])
  }

  /** All bytes written to the client. */
  function Output(es: seq<Event>): bytes {
    if es == [] then []
    else
      var e := es[|es| - 1];
      Output(es[..|es| - 1]) + Adds(e)
  }

  lemma RunMore(allowNoAuth: bool, es: seq<Event>, e: Event)
    requires Run(allowNoAuth, es).Some?
    ensures Run(allowNoAuth, es + [e]) == Next(allowNoAuth, Run(allowNoAuth, es).value, e)
    ensures Output(es + [e]) == Output(es) + Adds(e)
  {
    assert (es + [e])[..|es|] == es;
  }

  // ---------- what every allowed sequence is like ----------

  /** Somebody vouched for the client: no authentication was asked of it, as configured, or the store knew it. */
  ghost predicate Vouched(allowNoAuth: bool, es: seq<Event>) {
    (allowNoAuth && Wrote([5, 0]) in es) || (exists u :: Checked(u, true) in es)
  }

  predicate BehindAuth(p: Phase) {
    p.AuthGood? || p.Ready? || p.NoRelay? || p.Linked? || p.Told? || p.Open?
  }

  ghost predicate HasDialled(es: seq<Event>) {
    exists cmd, ok :: Dialled(cmd, ok) in es
  }

  /** The relay is dialled only for a client somebody vouched for. */
  lemma {:induction false} DialledMeansVouched(allowNoAuth: bool, es: seq<Event>)
    requires Run(allowNoAuth, es).Some?
    ensures BehindAuth(Run(allowNoAuth, es).value) ==> Vouched(allowNoAuth, es)
    ensures HasDialled(es) ==> Vouched(allowNoAuth, es)
  {
    if es != [] {
      var n := |es| - 1;
      var front, e := es[..n], es[n];
      assert es == front + [e];
      DialledMeansVouched(allowNoAuth, front);
      DialledBefore(front, e);
      if Vouched(allowNoAuth, front) {
        VouchedStays(allowNoAuth, front, e);
      }
      VouchedNow(allowNoAuth, front, Run(allowNoAuth, front).value, e);
      hide Vouched, HasDialled, Next;
    }
  }

  lemma DialledBefore(es: seq<Event>, e: Event)
    ensures HasDialled(es + [e]) ==> HasDialled(es) || e.Dialled?
  {
    if HasDialled(es + [e]) {
      var cmd, ok :| Dialled(cmd, ok) in es + [e];
      assert Dialled(cmd, ok) in es || Dialled(cmd, ok) == e;
    }
  }

  /** One gets behind authentication only with somebody vouching. */
  lemma VouchedNow(allowNoAuth: bool, es: seq<Event>, p: Phase, e: Event)
    requires Next(allowNoAuth, p, e).Some?
    ensures BehindAuth(Next(allowNoAuth, p, e).value) ==> BehindAuth(p) || Vouched(allowNoAuth, es + [e])
    ensures e.Dialled? ==> BehindAuth(p)
  {
    assert e in es + [e];
    if e.Checked? && e.ok {
      assert Checked(e.user, true) in es + [e];
    }
  }

  lemma VouchedStays(allowNoAuth: bool, es: seq<Event>, e: Event)
    requires Vouched(allowNoAuth, es)
    ensures Vouched(allowNoAuth, es + [e])
  {
    if exists u :: Checked(u, true) in es {
      var u :| Checked(u, true) in es;
      assert Checked(u, true) in es + [e];
    }
  }

  /** The head of what a client sees: nothing yet, or the method reply and, for a password, the verdict on it. */
  predicate Head(allowNoAuth: bool, h: bytes, passed: bool) {
    if passed then (h == [5, 0] && allowNoAuth) || h == [5, 2, 1, 0]
    else h == [] || h == [5, 0xFF] || h == [5, 2] || h == [5, 2, 1, 1]
  }

  /** One request reply: the failure, or one of the successes. */
  predicate ReplyForm(r: bytes) {
    r == FAILURE || r == CONNECTED || (|r| == 10 && r[..8] == [5, 0, 0, 1, 0x7F, 0, 0, 1])
  }

  /** Everything the client sees: only a client that passed gets a request reply, at most one, of ten bytes; and only
      behind CONNECTED come bytes from the tunnel. */
  ghost predicate Grammar(allowNoAuth: bool, w: bytes) {
    exists h, r, t :: w == h + r + t && Word(allowNoAuth, h, r, t)
  }

  predicate Word(allowNoAuth: bool, h: bytes, r: bytes, t: bytes) {
    || (Head(allowNoAuth, h, false) && r == [] && t == [])
    || (Head(allowNoAuth, h, true) && (r == [] || ReplyForm(r)) && (t != [] ==> r == CONNECTED))
  }

  predicate InPhase(allowNoAuth: bool, p: Phase, h: bytes, r: bytes, t: bytes) {
    match p
    case Start => h == [] && r == [] && t == []
    case AwaitAuth => h == [5, 2] && r == [] && t == []
    case AuthGood => h == [5, 2] && r == [] && t == []
    case AuthBad => h == [5, 2] && r == [] && t == []
    case Ready => Head(allowNoAuth, h, true) && r == [] && t == []
    case NoRelay => Head(allowNoAuth, h, true) && r == [] && t == []
    case Linked(_) => Head(allowNoAuth, h, true) && r == [] && t == []
    case Told => Head(allowNoAuth, h, true) && r == [] && t == []
    case Open => Head(allowNoAuth, h, true) && r == CONNECTED
    case Over => Word(allowNoAuth, h, r, t)
  }

  /** The bytes an event adds. */
  function Adds(e: Event): bytes {
    match e
    case Wrote(d) => d
    case Tunnelled(d) => d
    case _ => []
  }

  lemma StepForm(allowNoAuth: bool, p: Phase, e: Event, h: bytes, r: bytes, t: bytes)
    returns (h': bytes, r': bytes, t': bytes)
    requires Next(allowNoAuth, p, e).Some? && InPhase(allowNoAuth, p, h, r, t)
    ensures InPhase(allowNoAuth, Next(allowNoAuth, p, e).value, h', r', t')
    ensures h' + r' + t' == h + r + t + Adds(e)
  {
    h', r', t' := h, r, t;
    match e {
      case Wrote(d) =>
        if p.Ready? || p.NoRelay? || p.Linked? || p.Told? {
          r' := d;
          assert h + d + [] == h + [] + [] + d;
        } else {
          h' := h + d;
          assert h + d + [] + [] == h + [] + [] + d;
          if p.Start? {
            assert h + d == d;
          }
        }
      case Tunnelled(d) =>
        t' := t + d;
        assert h + r + (t + d) == h + r + t + d;
      case _ =>
        assert h + r + t == h + r + t + [];
    }
  }

  lemma {:induction false} OutputForm(allowNoAuth: bool, es: seq<Event>) returns (h: bytes, r: bytes, t: bytes)
    requires Run(allowNoAuth, es).Some?
    ensures Output(es) == h + r + t && InPhase(allowNoAuth, Run(allowNoAuth, es).value, h, r, t)
  {
    h, r, t := [], [], [];
    if es != [] {
      hide InPhase, Next;
      var n := |es| - 1;
      h, r, t := OutputForm(allowNoAuth, es[..n]);
      h, r, t := StepForm(allowNoAuth, Run(allowNoAuth, es[..n]).value, es[n], h, r, t);
    }
  }

  /** Every allowed sequence writes a word of the grammar. */
  lemma OutputIsGrammar(allowNoAuth: bool, es: seq<Event>)
    requires Run(allowNoAuth, es).Some?
    ensures Grammar(allowNoAuth, Output(es))
  {
    var h, r, t := OutputForm(allowNoAuth, es);
    assert Word(allowNoAuth, h, r, t);
  }

  // ---------- what a session does, as a function of what it hears ----------

  function Verdict(good: bool): Event {
    Wrote([1, if good then 0 else 1])
  }

  /** What follows a successful dial. */
  function Associated(w: World, cmd: byte, addr: bytes, room: nat): seq<Event>
    requires Sane(w)
  {
    if cmd == UDP_ASSOCIATE then [Wrote(if w.listens.None? then FAILURE else Listening(w.listens.value))]
    else if Takes(w, room, addr) then [Announced(addr, true), Wrote(CONNECTED), Tunnelled(w.back)]
    else [Announced(addr, false)]
  }

  /** The answer to the request proper. */
  function Answer(w: World, req: bytes): seq<Event>
    requires Sane(w)
  {
    match ParseConnect(req)
    case Panics => []
    case Refused => [Wrote(FAILURE)]
    case Accepted(cmd, addr) => Relayed(w, cmd, addr)
  }

  function Relayed(w: World, cmd: byte, addr: bytes): seq<Event>
    requires Sane(w)
  {
    match w.dial(cmd)
    case Some(room) => [Dialled(cmd, true)] + Associated(w, cmd, addr, room)
    case None => [Dialled(cmd, false), Wrote(FAILURE)]
  }

  /** What happens once no authentication is selected. */
  function OpenScript(w: World, heard: seq<bytes>): seq<Event>
    requires Sane(w)
  {
    [Wrote([5, 0])] + (if heard == [] then [] else Answer(w, heard[0]))
  }

  /** What the message with name and password brings about. */
  function Judgement(w: World, req: bytes): seq<Event> {
    match ParseAuth(req)
    case None => [Verdict(false)]
    case Some(u) => [Checked(u, w.check(u)), Verdict(w.check(u))]
  }

  predicate Known(w: World, req: bytes) {
    ParseAuth(req).Some? && w.check(ParseAuth(req).value)
  }

  /** What happens once the password method is selected. */
  function PasswordScript(w: World, heard: seq<bytes>): seq<Event>
    requires Sane(w)
  {
    if heard == [] then [Wrote([5, 2])]
    else
      [Wrote([5, 2])] + Judgement(w, heard[0])
      + (if !Known(w, heard[0]) || |heard| == 1 then [] else Answer(w, heard[1]))
  }

  /** Everything a session does that has heard these messages and then nothing more. */
  function Script(w: World, heard: seq<bytes>): seq<Event>
    requires Sane(w)
  {
    if heard == [] then []
    else
      match Selected(heard[0], w.allowNoAuth)
      case Invalid => []
      case NoAcceptable => [Wrote([5, 0xFF])]
      case Method(code) =>
        if code == NO_AUTH then OpenScript(w, heard[1..]) else PasswordScript(w, heard[1..])
  }

  /** The client is through: the next message is the request proper. */
  predicate Passed(w: World, heard: seq<bytes>) {
    && heard != []
    && match Selected(heard[0], w.allowNoAuth)
       case Method(code) =>
         if code == NO_AUTH then |heard| == 1
         else |heard| == 2 && Known(w, heard[1])
       case _ => false
  }

  /** Having heard this, the session reads another message. */
  predicate Wants(w: World, heard: seq<bytes>) {
    heard == [] || Passed(w, heard) || (|heard| == 1 && Selected(heard[0], w.allowNoAuth) == Method(PASSWORD))
  }

  /** The messages are what was read in pieces of at most a buffer, each because it was wanted. */
  predicate Listened(w: World, heard: seq<bytes>, arrived: bytes, left: bytes) {
    && arrived == Flatten(heard) + left
    && (forall i :: 0 <= i < |heard| ==> 1 <= |heard[i]| <= BLOCK_SIZE)
    && (forall i :: 0 <= i < |heard| ==> Wants(w, heard[..i]))
  }

  lemma ListensOn(w: World, heard: seq<bytes>, arrived: bytes, req: bytes, left: bytes)
    requires Listened(w, heard, arrived, req + left) && Wants(w, heard) && 1 <= |req| <= BLOCK_SIZE
    ensures Listened(w, heard + [req], arrived, left)
  {
    hide Wants;
    FlattenAppend(heard, [req]);
    FlattenOne(req);
    assert Flatten(heard) + (req + left) == Flatten(heard + [req]) + left;
    assert forall i :: 0 <= i <= |heard| ==> (heard + [req])[..i] == heard[..i];
    assert heard[..|heard|] == heard;
  }

  /** The message that makes the parser panic is the request proper. */
  predicate Crashes(w: World, heard: seq<bytes>) {
    heard != [] && Passed(w, heard[..|heard| - 1]) && ParseConnect(heard[|heard| - 1]).Panics?
  }

  lemma ScriptGoesOn(w: World, heard: seq<bytes>, req: bytes)
    requires Sane(w) && Passed(w, heard)
    ensures Script(w, heard + [req]) == Script(w, heard) + Answer(w, req)
    ensures !Wants(w, heard + [req])
    ensures Crashes(w, heard + [req]) <==> ParseConnect(req).Panics?
  {
    hide Answer, Selected, ParseAuth, ParseConnect;
    assert (heard + [req])[..|heard|] == heard;
  }

  /** What is left to do with a handshake that selects nothing. */
  lemma OnHandshake(w: World, h: bytes)
    requires Sane(w)
    ensures !Crashes(w, [h])
    ensures !Selected(h, w.allowNoAuth).Method? ==>
              !Wants(w, [h])
              && Script(w, [h]) == if Selected(h, w.allowNoAuth).Invalid? then [] else [Wrote([5, 0xFF])]
  {
    hide ParseConnect;
  }

  /** What is left to do once a method is selected. */
  lemma OnMethod(w: World, h: bytes)
    requires Sane(w) && Selected(h, w.allowNoAuth).Method?
    ensures var code := Selected(h, w.allowNoAuth).code;
            && Script(w, [h]) == [Wrote([5, code])]
            && !Crashes(w, [h]) && Wants(w, [h]) && (Passed(w, [h]) <==> code == NO_AUTH)
  {
    hide ParseConnect;
  }

  /** And once a password was heard. */
  lemma OnPassword(w: World, h: bytes, req: bytes)
    requires Sane(w) && Selected(h, w.allowNoAuth) == Method(PASSWORD)
    ensures !Crashes(w, [h, req]) && (Wants(w, [h, req]) <==> Known(w, req))
    ensures Passed(w, [h, req]) <==> Known(w, req)
    ensures Script(w, [h, req]) == [Wrote([5, 2])] + Judgement(w, req)
  {
    hide ParseConnect, Selected, Answer, Judgement, Known;
    assert [h, req][..1] == [h] && [h, req][1..] == [req];
  }

  lemma {:induction false} RunPrefix(allowNoAuth: bool, es: seq<Event>, n: nat)
    requires n <= |es| && Run(allowNoAuth, es).Some?
    ensures Run(allowNoAuth, es[..n]).Some?
  {
    if n < |es| {
      assert es[..|es| - 1][..n] == es[..n];
      RunPrefix(allowNoAuth, es[..|es| - 1], n);
    } else {
      assert es[..n] == es;
    }
  }

  lemma RunTwo(allowNoAuth: bool, es: seq<Event>, p: Phase, e: Event, q: Phase, f: Event, r: Phase)
    requires Run(allowNoAuth, es) == Some(p)
    requires Next(allowNoAuth, p, e) == Some(q) && Next(allowNoAuth, q, f) == Some(r)
    ensures Run(allowNoAuth, es + [e]) == Some(q) && Run(allowNoAuth, es + [e, f]) == Some(r)
  {
    hide Run, Next;
    RunMore(allowNoAuth, es, e);
    RunMore(allowNoAuth, es + [e], f);
    assert es + [e] + [f] == es + [e, f];
  }

  lemma AssociatedAllowed(w: World, es: seq<Event>, cmd: byte, addr: bytes, room: nat)
    requires Sane(w) && Run(w.allowNoAuth, es) == Some(Linked(cmd)) && (cmd == CONNECT || cmd == UDP_ASSOCIATE)
    ensures Run(w.allowNoAuth, es + Associated(w, cmd, addr, room)).Some?
  {
    hide Run, Takes;
    if cmd == UDP_ASSOCIATE {
      var reply := if w.listens.None? then FAILURE else Listening(w.listens.value);
      ReplyOver(w, reply);
      hide Next;
      RunMore(w.allowNoAuth, es, Wrote(reply));
    } else if Takes(w, room, addr) {
      var told := es + [Announced(addr, true)];
      RunMore(w.allowNoAuth, es, Announced(addr, true));
      RunTwo(w.allowNoAuth, told, Told, Wrote(CONNECTED), Open, Tunnelled(w.back), Open);
      assert told + [Wrote(CONNECTED), Tunnelled(w.back)] == es + Associated(w, cmd, addr, room);
    } else {
      RunMore(w.allowNoAuth, es, Announced(addr, false));
    }
  }

  lemma AnswerAllowed(w: World, es: seq<Event>, req: bytes)
    requires Sane(w) && Run(w.allowNoAuth, es) == Some(Ready)
    ensures Run(w.allowNoAuth, es + Answer(w, req)).Some?
  {
    var allow := w.allowNoAuth;
    hide Run, ParseConnect, Associated;
    match ParseConnect(req) {
      case Panics => assert es + Answer(w, req) == es;
      case Refused => RunMore(allow, es, Wrote(FAILURE));
      case Accepted(cmd, addr) =>
        CommandKnown(req);
        match w.dial(cmd) {
          case Some(room) =>
            var linked := es + [Dialled(cmd, true)];
            RunMore(allow, es, Dialled(cmd, true));
            AssociatedAllowed(w, linked, cmd, addr, room);
            assert linked + Associated(w, cmd, addr, room) == es + Answer(w, req);
          case None =>
            RunTwo(allow, es, Ready, Dialled(cmd, false), NoRelay, Wrote(FAILURE), Over);
        }
    }
  }

  lemma ReplyOver(w: World, reply: bytes)
    requires Sane(w) && reply == if w.listens.None? then FAILURE else Listening(w.listens.value)
    ensures Next(w.allowNoAuth, Linked(UDP_ASSOCIATE), Wrote(reply)) == Some(Over)
  {
    if w.listens.Some? {
      assert reply[..8] == [5, 0, 0, 1, 0x7F, 0, 0, 1];
    }
  }

  lemma CommandKnown(req: bytes)
    requires ParseConnect(req).Accepted?
    ensures ParseConnect(req).cmd == CONNECT || ParseConnect(req).cmd == UDP_ASSOCIATE
  {
  }

  lemma OpenAllowed(w: World, rest: seq<bytes>)
    requires Sane(w) && w.allowNoAuth
    ensures Run(w.allowNoAuth, OpenScript(w, rest)).Some?
    ensures rest == [] ==> Run(w.allowNoAuth, OpenScript(w, rest)) == Some(Ready)
  {
    assert Run(w.allowNoAuth, []) == Some(Start);
    hide Run, Answer;
    RunMore(w.allowNoAuth, [], Wrote([5, 0]));
    assert [] + [Wrote([5, 0])] == [Wrote([5, 0])];
    if rest != [] {
      AnswerAllowed(w, [Wrote([5, 0])], rest[0]);
    }
  }

  /** Whatever a session hears, its script is allowed by the automaton. */
  lemma ScriptAllowed(w: World, heard: seq<bytes>)
    requires Sane(w)
    ensures Run(w.allowNoAuth, Script(w, heard)).Some?
    ensures Passed(w, heard) ==> Run(w.allowNoAuth, Script(w, heard)) == Some(Ready)
  {
    assert Run(w.allowNoAuth, []) == Some(Start);
    hide Run, Answer, PasswordScript, OpenScript, Known;
    if heard != [] {
      match Selected(heard[0], w.allowNoAuth) {
        case Invalid =>
        case NoAcceptable =>
          RunMore(w.allowNoAuth, [], Wrote([5, 0xFF]));
        case Method(code) =>
          hide Next;
          if code == NO_AUTH {
            OpenAllowed(w, heard[1..]);
          } else {
            PasswordAllowed(w, heard[1..]);
          }
      }
    }
  }

  lemma VerdictNext(allowNoAuth: bool)
    ensures Next(allowNoAuth, AwaitAuth, Verdict(false)) == Some(Over)
    ensures Next(allowNoAuth, AuthBad, Verdict(false)) == Some(Over)
    ensures Next(allowNoAuth, AuthGood, Verdict(true)) == Some(Ready)
  {
  }

  lemma CheckedNext(allowNoAuth: bool, u: User, ok: bool)
    ensures Next(allowNoAuth, AwaitAuth, Checked(u, ok)) == Some(if ok then AuthGood else AuthBad)
  {
  }

  lemma PasswordAllowed(w: World, heard: seq<bytes>)
    requires Sane(w)
    ensures Run(w.allowNoAuth, PasswordScript(w, heard)).Some?
    ensures |heard| == 1 && Known(w, heard[0]) ==> Run(w.allowNoAuth, PasswordScript(w, heard)) == Some(Ready)
  {
    var allow := w.allowNoAuth;
    assert Run(allow, []) == Some(Start);
    hide Run, Answer;
    var asked := [Wrote([5, 2])];
    RunMore(allow, [], Wrote([5, 2]));
    assert [] + asked == asked && Run(allow, asked) == Some(AwaitAuth);
    if heard != [] {
      JudgementAllowed(w, asked, heard[0]);
      hide Next, Judgement, Known;
      var es := asked + Judgement(w, heard[0]);
      if Known(w, heard[0]) && |heard| > 1 {
        AnswerAllowed(w, es, heard[1]);
        assert es + Answer(w, heard[1]) == PasswordScript(w, heard);
      } else {
        assert es == PasswordScript(w, heard);
      }
    }
  }

  lemma JudgementAllowed(w: World, asked: seq<Event>, req: bytes)
    requires Run(w.allowNoAuth, asked) == Some(AwaitAuth)
    ensures Run(w.allowNoAuth, asked + Judgement(w, req)) == Some(if Known(w, req) then Ready else Over)
  {
    hide Run, Next, ParseAuth;
    VerdictNext(w.allowNoAuth);
    match ParseAuth(req) {
      case None => RunMore(w.allowNoAuth, asked, Verdict(false));
      case Some(u) =>
        var known := w.check(u);
        CheckedNext(w.allowNoAuth, u, known);
        RunTwo(w.allowNoAuth, asked, AwaitAuth, Checked(u, known), if known then AuthGood else AuthBad,
               Verdict(known), if known then Ready else Over);
    }
  }

  lemma RelayedForms(w: World, cmd: byte, addr: bytes, es: seq<Event>)
    requires Sane(w)
    ensures w.dial(cmd).None? ==> es + Relayed(w, cmd, addr) == es + [Dialled(cmd, false)] + [Wrote(FAILURE)]
    ensures w.dial(cmd).Some? ==>
              es + Relayed(w, cmd, addr) == es + [Dialled(cmd, true)] + Associated(w, cmd, addr, w.dial(cmd).value)
  {
    hide Associated;
  }

  // ---------- the address frames ----------

  /** In every allowed sequence the success reply of a CONNECT comes right behind address frames that the relay's link
      took whole. */
  lemma ConnectedMeansAnnounced(allowNoAuth: bool, es: seq<Event>, i: nat)
    requires Run(allowNoAuth, es).Some? && i < |es| && es[i] == Wrote(CONNECTED)
    ensures i > 0 && es[i - 1].Announced? && es[i - 1].ok
  {
    RunPrefix(allowNoAuth, es, i + 1);
    assert es[..i + 1][..i] == es[..i];
    assert Run(allowNoAuth, es[..i]) == Some(Told) by { OnlyTold(allowNoAuth, Run(allowNoAuth, es[..i]).value); }
    assert i > 0;
    assert es[..i][..i - 1] == es[..i - 1];
    OnlyAnnounced(allowNoAuth, Run(allowNoAuth, es[..i - 1]).value, es[i - 1]);
  }

  lemma OnlyTold(allowNoAuth: bool, p: Phase)
    requires Next(allowNoAuth, p, Wrote(CONNECTED)).Some?
    ensures p == Told
  {
    assert CONNECTED[..8][4] == 0;
  }

  lemma OnlyAnnounced(allowNoAuth: bool, p: Phase, e: Event)
    requires Next(allowNoAuth, p, e) == Some(Told)
    ensures e.Announced? && e.ok
  {
  }

  /** What an event has right in front of it, as far as the client's rights and replies hang on that. */
  predicate Follows(d: Event, e: Event) {
    && (e.Dialled? ==> d == Wrote([5, 0]) || d == Wrote([1, 0]))
    && (e == Wrote([1, 0]) ==> d.Checked? && d.ok)
    && (e.Checked? ==> d == Wrote([5, 2]))
    && (e.Announced? ==> d == Dialled(1, true))
    && (e == Wrote([5, 0, 0, 1, 0, 0, 0, 0, 0, 0]) ==> d.Announced? && d.ok)
    && (e.Wrote? && |e.data| == 10 && e.data[1] == 0 && e.data != [5, 0, 0, 1, 0, 0, 0, 0, 0, 0] ==>
          d == Dialled(3, true) && e.data[..8] == [5, 0, 0, 1, 127, 0, 0, 1])
    && (e.Tunnelled? ==> d.Tunnelled? || d == Wrote([5, 0, 0, 1, 0, 0, 0, 0, 0, 0]))
  }

  lemma AllowedFollows(allowNoAuth: bool, es: seq<Event>, i: nat)
    requires Run(allowNoAuth, es).Some? && 0 < i < |es|
    ensures Follows(es[i - 1], es[i])
  {
    RunPrefix(allowNoAuth, es, i + 1);
    assert es[..i + 1][..i] == es[..i] && es[..i][..i - 1] == es[..i - 1];
    NextFollows(allowNoAuth, Run(allowNoAuth, es[..i - 1]).value, es[i - 1], es[i]);
  }

  lemma NextFollows(allowNoAuth: bool, p: Phase, d: Event, e: Event)
    requires Next(allowNoAuth, p, d).Some? && Next(allowNoAuth, Next(allowNoAuth, p, d).value, e).Some?
    ensures Follows(d, e)
  {
    if e == Wrote([5, 0, 0, 1, 0, 0, 0, 0, 0, 0]) {
      assert e.data[..8][4] == 0;
    }
  }

  /** The address in them is the one the parser made of the request proper. */
  ghost predicate Requested(w: World, heard: seq<bytes>, addr: bytes) {
    exists i :: 0 <= i < |heard| && Passed(w, heard[..i]) && ParseConnect(heard[i]) == Accepted(CONNECT, addr)
  }

  lemma AnnouncedIsRequested(w: World, heard: seq<bytes>, addr: bytes, ok: bool)
    requires Sane(w) && Announced(addr, ok) in Script(w, heard)
    ensures Requested(w, heard, addr)
  {
    hide ParseConnect, Takes, Known, Selected, Judgement;
    JudgementAnnouncesNothing(w, heard, addr, ok);
    var i := if Selected(heard[0], w.allowNoAuth) == Method(NO_AUTH) then 1 else 2;
    assert i < |heard| && Announced(addr, ok) in Answer(w, heard[i]);
    AnsweredRequest(w, heard[i], addr, ok);
    assert Passed(w, heard[..i]);
  }

  lemma JudgementAnnouncesNothing(w: World, heard: seq<bytes>, addr: bytes, ok: bool)
    ensures |heard| > 1 ==> Announced(addr, ok) !in Judgement(w, heard[1])
  {
  }

  lemma AnsweredRequest(w: World, req: bytes, addr: bytes, ok: bool)
    requires Sane(w) && Announced(addr, ok) in Answer(w, req)
    ensures ParseConnect(req) == Accepted(CONNECT, addr)
  {
    hide Takes;
    if ParseConnect(req).Accepted? {
      CommandKnown(req);
      hide ParseConnect;
    }
  }

  // ---------- the code ----------

  /** The session keeps a record of what it heard and did. */
  class Conversation {
    const conn: NetConn
    const world: World
    ghost const in0: bytes
    ghost const out0: bytes
    ghost const limit: nat
    ghost var heard: seq<bytes>
    ghost var events: seq<Event>

    constructor (conn: NetConn, world: World)
      requires Sane(world) && conn.isOpen
      ensures this.conn == conn && this.world == world && heard == [] && events == []
      ensures in0 == conn.incoming && out0 == conn.outgoing && limit == |conn.outgoing| + conn.room
      ensures Whole() && Attentive()
    {
      this.conn, this.world, heard, events := conn, world, [], [];
      in0, out0, limit := conn.incoming, conn.outgoing, |conn.outgoing| + conn.room;
    }

    /** What the client got is what the record says, up to where the connection stopped taking bytes. */
    ghost predicate Faithful()
      reads this, conn
    {
      conn.outgoing == Fit(out0 + Output(events), limit)
    }

    /** The client got all of it. */
    ghost predicate Spoke()
      reads this`events, conn`outgoing
    {
      conn.outgoing == out0 + Output(events)
    }

    /** No write has failed yet. */
    ghost predicate Whole()
      reads this, conn
    {
      && conn.isOpen && Sane(world)
      && Spoke() && |conn.outgoing| + conn.room == limit
    }

    ghost predicate Attentive()
      reads this`heard, conn`incoming
    {
      Listened(world, heard, in0, conn.incoming)
    }

    lemma WholeIsFaithful()
      requires Whole()
      ensures Faithful() && Spoke() && Sane(world) && conn.isOpen
    {
    }

    method Tell(data: bytes, ghost e: Event) returns (ok: bool)
      requires Whole() && (e == Wrote(data) || e == Tunnelled(data))
      modifies this`events, conn`outgoing, conn`room
      ensures events == old(events) + [e]
      ensures Faithful() && Sane(world) && (if ok then Whole() && Spoke() else !Spoke())
    {
      ghost var said, said', room := Output(events), Output(events + [e]), conn.room;
      OutputMore(events, e);
      hide Output, Sane, Fit, Adds;
      var err := SendAll(data, said, said', room);
      events := events + [e];
      ok := err.None?;
      ToldFacts(said', ok);
    }

    /** The write itself, in terms of everything said before and after it. */
    method SendAll(data: bytes, ghost said: bytes, ghost said': bytes, ghost room: nat) returns (err: Option<F.Fault>)
      requires conn.isOpen && conn.outgoing == out0 + said && conn.room == room && |conn.outgoing| + room == limit
      requires said' == said + data
      modifies conn`outgoing, conn`room
      ensures conn.outgoing == Fit(out0 + said', limit) && |conn.outgoing| + conn.room == limit
      ensures err.None? <==> conn.outgoing == out0 + said'
    {
      TellFits(out0, said, data, said', room);
      hide Fit;
      err := conn.Write(data);
    }

    lemma ToldFacts(said: bytes, ok: bool)
      requires Sane(world) && conn.isOpen && said == Output(events)
      requires conn.outgoing == Fit(out0 + said, limit) && |conn.outgoing| + conn.room == limit
      requires ok <==> conn.outgoing == out0 + said
      ensures Faithful() && (if ok then Whole() && Spoke() else !Spoke())
    {
      hide Fit, Output, Sane;
    }

    ghost method Note(e: Event)
      requires Whole() && !e.Wrote? && !e.Tunnelled?
      modifies this`events
      ensures events == old(events) + [e] && Whole()
    {
      OutputMore(events, e);
      events := events + [e];
      assert Output(events) == Output(old(events));
    }

    /** One plain Read into the shared buffer; a request split over two segments is heard in part only. */
    method Hear(buf: array<byte>) returns (req: Option<bytes>)
      requires Whole() && Attentive() && Wants(world, heard) && buf.Length == BLOCK_SIZE
      modifies this`heard, conn`incoming, buf
      ensures Whole() && Attentive() && events == old(events)
      ensures if req.Some? then heard == old(heard) + [req.value] else heard == old(heard) && conn.incoming == []
    {
      hide Wants, Sane, Output;
      var n, err := conn.Read(buf);
      req := if err.Some? then None else Some(buf[..n]);
      if req.Some? {
        ListensOn(world, heard, in0, req.value, conn.incoming);
        heard := heard + [req.value];
      }
    }

    /** handleAuthMethod. Its default branch is unreachable: no other method is ever selected. */
    method HandleAuthMethod(code: byte, buf: array<byte>) returns (ok: bool)
      requires Whole() && Attentive() && events == [] && |heard| == 1 && buf.Length == BLOCK_SIZE
      requires Selected(heard[0], world.allowNoAuth) == Method(code)
      modifies this`heard, this`events, conn`incoming, conn`outgoing, conn`room, buf
      ensures Sane(world) && Faithful() && events == Script(world, heard)
      ensures Attentive() && !Crashes(world, heard)
      ensures ok ==> Whole() && Passed(world, heard)
      ensures !ok && Spoke() ==> !Passed(world, heard) && (Wants(world, heard) ==> conn.incoming == [])
    {
      ghost var h := heard[0];
      assert heard == [h] && (code == NO_AUTH || code == PASSWORD);
      WholeIsFaithful();
      OnMethod(world, h);
      hide Output, Fit, ParseAuth, Selected, Listened, Script, Passed, Wants, Crashes;
      hide Conversation.Whole, Conversation.Faithful, Conversation.Spoke, Conversation.Attentive;
      ok := Tell([5, code], Wrote([5, code]));
      assert events == [Wrote([5, code])];
      if ok && code == PASSWORD {
        ok := AskPassword(buf);
      }
    }

    /** The password method: one message, one look at the user store, one verdict. */
    method AskPassword(buf: array<byte>) returns (ok: bool)
      requires Whole() && Attentive() && events == [Wrote([5, 2])] && |heard| == 1 && buf.Length == BLOCK_SIZE
      requires Selected(heard[0], world.allowNoAuth) == Method(PASSWORD)
      modifies this`heard, this`events, conn`incoming, conn`outgoing, conn`room, buf
      ensures Sane(world) && Faithful() && events == Script(world, heard)
      ensures Attentive() && !Crashes(world, heard)
      ensures ok ==> Whole() && Passed(world, heard)
      ensures !ok && Spoke() ==> !Passed(world, heard) && (Wants(world, heard) ==> conn.incoming == [])
    {
      ghost var h := heard[0];
      assert heard == [h];
      WholeIsFaithful();
      OnMethod(world, h);
      hide Output, Fit, ParseAuth, Selected, Listened, Script, Passed, Wants, Crashes, Judgement, Known;
      hide Conversation.Whole, Conversation.Faithful, Conversation.Spoke, Conversation.Attentive;
      var req := Hear(buf);
      if req.None? {
        WholeIsFaithful();
        return false;
      }
      assert heard == [h, req.value];
      OnPassword(world, h, req.value);
      ok := Judge(req.value);
    }

    method Judge(req: bytes) returns (ok: bool)
      requires Whole()
      modifies this`events, conn`outgoing, conn`room
      ensures events == old(events) + Judgement(world, req) && Faithful() && Sane(world)
      ensures ok ==> Whole() && Known(world, req)
      ensures !ok && Spoke() ==> !Known(world, req)
    {
      hide Conversation.Whole, Conversation.Faithful, Conversation.Spoke, ParseAuth;
      var user := ParseAuth(req);
      if user.None? {
        var _ := TellVerdict(false);
        return false;
      }
      var known := world.check(user.value);
      Note(Checked(user.value, known));
      ok := TellVerdict(known);
      ok := ok && known;
    }

    method TellVerdict(good: bool) returns (ok: bool)
      requires Whole()
      modifies this`events, conn`outgoing, conn`room
      ensures events == old(events) + [Verdict(good)]
      ensures Faithful() && Sane(world) && (if ok then Whole() && Spoke() else !Spoke())
    {
      var data: bytes := if good then [1, 0] else [1, 1];
      ok := Tell(data, Wrote(data));
    }

    /** handleConnection: the session follows the script of what it heard to the end, unless a write to the client
        failed and cut it short. */
    method HandleConnection() returns (crashed: bool)
      requires Whole() && Attentive() && events == [] && heard == []
      modifies this`heard, this`events, conn
      ensures Sane(world) && Faithful() && Attentive() && events <= Script(world, heard) && !conn.isOpen
      ensures Spoke() ==>
                events == Script(world, heard) && (Wants(world, heard) ==> conn.incoming == [])
      ensures crashed <==> Crashes(world, heard)
    {
      crashed := Converse();
      conn.Close();
    }

    method Converse() returns (crashed: bool)
      requires Whole() && Attentive() && events == [] && heard == []
      modifies this`heard, this`events, conn`incoming, conn`outgoing, conn`room
      ensures Sane(world) && Faithful() && Attentive() && events <= Script(world, heard)
      ensures Spoke() ==>
                events == Script(world, heard) && (Wants(world, heard) ==> conn.incoming == [])
      ensures crashed <==> Crashes(world, heard)
    {
      crashed := false;
      WholeIsFaithful();
      assert Script(world, []) == [] && Wants(world, []) && !Crashes(world, []);
      hide Output, Fit, ParseConnect, ParseAuth, Selected, Answer, Listened, Script, Wants, Crashes, Passed;
      hide Conversation.Whole, Conversation.Faithful, Conversation.Spoke, Conversation.Attentive;
      var buf := new byte[BLOCK_SIZE];
      var req := Hear(buf);
      WholeIsFaithful();
      if req.None? { return; }
      assert heard == [req.value];
      OnHandshake(world, req.value);
      var choice := ParseHandshake(req.value, world.allowNoAuth);
      if choice == NoAcceptable {
        var _ := Tell([5, 0xFF], Wrote([5, 0xFF]));
        return;
      }
      if choice == Invalid { return; }
      var ok := HandleAuthMethod(choice.code, buf);
      if !ok { return; }
      crashed := TakeRequest(buf);
    }

    /** The client has passed: its request proper. */
    method TakeRequest(buf: array<byte>) returns (crashed: bool)
      requires Whole() && Attentive() && Sane(world) && events == Script(world, heard) && buf.Length == BLOCK_SIZE
      requires Passed(world, heard) && !Crashes(world, heard)
      modifies this`heard, this`events, conn`incoming, conn`outgoing, conn`room, buf
      ensures Faithful() && Attentive() && events <= Script(world, heard)
      ensures Spoke() ==>
                events == Script(world, heard) && (Wants(world, heard) ==> conn.incoming == [])
      ensures crashed <==> Crashes(world, heard)
    {
      crashed := false;
      assert Wants(world, heard);
      hide Output, Fit, ParseConnect, Answer, Script, Wants, Crashes, Passed, Sane;
      hide Conversation.Whole, Conversation.Faithful, Conversation.Spoke, Conversation.Attentive;
      ghost var before := heard;
      var req := Hear(buf);
      WholeIsFaithful();
      if req.None? { return; }
      ScriptGoesOn(world, before, req.value);
      crashed := Respond(req.value);
    }

    method Respond(req: bytes) returns (crashed: bool)
      requires Whole()
      modifies this`events, conn`outgoing, conn`room
      ensures Faithful() && (crashed <==> ParseConnect(req).Panics?)
      ensures old(events) <= events <= old(events) + Answer(world, req)
      ensures Spoke() ==> events == old(events) + Answer(world, req)
    {
      WholeIsFaithful();
      hide Output, Fit, ParseConnect;
      hide Conversation.Whole, Conversation.Faithful, Conversation.Spoke, Conversation.Attentive;
      var request := ParseConnect(req);
      crashed := request.Panics?;
      if request.Refused? {
        var _ := Tell(FAILURE, Wrote(FAILURE));
      }
      if request.Accepted? {
        CommandKnown(req);
        hide Relayed;
        Relay(request.cmd, request.addr);
      }
    }

    /** The second half of handleConnection: dial the relay and hand over. */
    method Relay(cmd: byte, addr: bytes)
      requires Whole() && (cmd == CONNECT || cmd == UDP_ASSOCIATE)
      modifies this`events, conn`outgoing, conn`room
      ensures Faithful() && old(events) <= events <= old(events) + Relayed(world, cmd, addr)
      ensures Spoke() ==> events == old(events) + Relayed(world, cmd, addr)
    {
      WholeIsFaithful();
      RelayedForms(world, cmd, addr, events);
      hide Output, Fit, Associated, FAILURE, Takes, Relayed;
      hide Conversation.Whole, Conversation.Faithful, Conversation.Spoke, Conversation.Attentive;
      var room := world.dial(cmd);
      Note(Dialled(cmd, room.Some?));
      if room.None? {
        var _ := Tell(FAILURE, Wrote(FAILURE));
        return;
      }
      HandOver(cmd, addr, room.value);
    }

    /** With the link established, the handler of the command takes over; when it returns the link is closed. */
    method HandOver(cmd: byte, addr: bytes, room: nat)
      requires Whole() && (cmd == CONNECT || cmd == UDP_ASSOCIATE)
      modifies this`events, conn`outgoing, conn`room
      ensures Faithful() && old(events) <= events <= old(events) + Associated(world, cmd, addr, room)
      ensures Spoke() ==> events == old(events) + Associated(world, cmd, addr, room)
    {
      hide Output, Fit, Associated, FAILURE, Takes, F.Encode;
      hide Conversation.Whole, Conversation.Faithful, Conversation.Spoke, Conversation.Attentive;
      var remote := new NetConn([], F.Closes, room);
      var link := new SecureConn(remote, world.aead);
      if cmd == CONNECT {
        HandleTcpAssociate(addr, link);
      } else {
        HandleUdpAssociate(addr, room);
      }
      remote.Close();
    }

    /** HandleTCPAssociateConn up to its pumps: both address frames, then the success reply, then the tunnel. */
    method HandleTcpAssociate(addr: bytes, link: SecureConn)
      requires Whole() && link.conn != conn && link.conn.isOpen && link.aead == world.aead
      modifies this`events, conn`outgoing, conn`room, link.conn`outgoing, link.conn`room
      ensures Faithful() && old(events) <= events <= old(events) + Associated(world, CONNECT, addr, old(link.conn.room))
      ensures Spoke() ==> events == old(events) + Associated(world, CONNECT, addr, old(link.conn.room))
      ensures var all := F.Encode(world.aead, AddressFrames(world, addr));
              link.conn.outgoing == old(link.conn.outgoing) + Fit(all, old(link.conn.room))
    {
      WholeIsFaithful();
      hide Output, Fit, FAILURE, CONNECTED, F.Encode;
      hide Conversation.Whole, Conversation.Faithful, Conversation.Spoke, Conversation.Attentive;
      ghost var before, room := events, link.conn.room;
      var took := P.SendTarget(link, addr, world.nonces.0, world.nonces.1);
      assert took == Takes(world, room, addr);
      Note(Announced(addr, took));
      WholeIsFaithful();
      if !took {
        return;
      }
      hide Takes;
      var ok := Tell(CONNECTED, Wrote(CONNECTED));
      assert before + [Announced(addr, true)] + [Wrote(CONNECTED)] + [Tunnelled(world.back)]
             == before + Associated(world, CONNECT, addr, room);
      if ok {
        hide Associated;
        var _ := Tell(world.back, Tunnelled(world.back));
      }
    }

    /** The client's side of HandleUDPAssociateConn. */
    method HandleUdpAssociate(ghost addr: bytes, ghost room: nat)
      requires Whole()
      modifies this`events, conn`outgoing, conn`room
      ensures Faithful() && events == old(events) + Associated(world, UDP_ASSOCIATE, addr, room)
      ensures var n := |old(events)|;
              |events| == n + 1 && events[n].Wrote? && TellsPort(world.listens, events[n].data)
    {
      WholeIsFaithful();
      hide Output, Fit, FAILURE;
      hide Conversation.Whole, Conversation.Faithful, Conversation.Spoke, Conversation.Attentive;
      var reply := if world.listens.None? then FAILURE else Listening(world.listens.value);
      var _ := Tell(reply, Wrote(reply));
    }
  }

  lemma OutputMore(es: seq<Event>, e: Event)
    ensures Output(es + [e]) == Output(es) + Adds(e)
  {
    assert (es + [e])[..|es|] == es;
  }

  lemma TellFits(out0: bytes, said: bytes, data: bytes, said': bytes, room: nat)
    requires said' == said + data
    ensures out0 + said + Fit(data, room) == Fit(out0 + said', |out0 + said| + room)
    ensures |data| <= room <==> out0 + said + Fit(data, room) == out0 + said'
    ensures |out0 + said| == |out0| + |said| && |Fit(data, room)| <= room
  {
    assert out0 + said' == out0 + said + data;
    if out0 + said + Fit(data, room) == out0 + said' {
      assert |Fit(data, room)| == |data|;
    }
  }

  // ---------- the UDP reply ----------

  /** What follows a dial for UDP, in a sequence of events, tells the client the listener's port. */
  predicate PortsTold(w: World, es: seq<Event>) {
    forall i :: 0 < i < |es| && es[i - 1] == Dialled(3, true) && es[i].Wrote? ==> TellsPort(w.listens, es[i].data)
  }

  lemma AnswerTellsPort(w: World, req: bytes)
    requires Sane(w)
    ensures PortsTold(w, Answer(w, req))
  {
    hide ParseConnect, Takes;
  }

  lemma PortsAppend(w: World, es: seq<Event>, more: seq<Event>)
    requires PortsTold(w, more) && (forall i :: 0 <= i < |es| ==> !es[i].Dialled?)
    ensures PortsTold(w, es + more)
  {
  }

  lemma ScriptTellsPort(w: World, heard: seq<bytes>)
    requires Sane(w)
    ensures PortsTold(w, Script(w, heard))
  {
    hide Answer, Selected, ParseAuth, Known;
    forall req: bytes, es: seq<Event> | forall i :: 0 <= i < |es| ==> !es[i].Dialled?
      ensures PortsTold(w, es + Answer(w, req))
    {
      AnswerTellsPort(w, req);
      PortsAppend(w, es, Answer(w, req));
    }
  }

  lemma PortsPrefix(w: World, heard: seq<bytes>, events: seq<Event>)
    requires Sane(w) && events <= Script(w, heard)
    ensures PortsTold(w, events)
  {
    ScriptTellsPort(w, heard);
    hide Script, TellsPort;
  }

  // ---------- what was asked outside ----------

  /** What an event says of the outside is so: the store's word on the user, the fate of the dial, the bytes of the
      tunnel. */
  predicate Honest(w: World, e: Event) {
    match e
    case Checked(u, ok) => ok == w.check(u)
    case Dialled(cmd, ok) => ok == w.dial(cmd).Some?
    case Tunnelled(d) => d == w.back
    case _ => true
  }

  lemma AnswerIsHonest(w: World, req: bytes, e: Event)
    requires Sane(w) && e in Answer(w, req)
    ensures Honest(w, e)
  {
    hide ParseConnect, Takes, Listening;
  }

  lemma ScriptIsHonest(w: World, heard: seq<bytes>, e: Event)
    requires Sane(w) && e in Script(w, heard)
    ensures Honest(w, e)
  {
    forall req | e in Answer(w, req)
      ensures Honest(w, e)
    {
      AnswerIsHonest(w, req, e);
    }
    hide Answer, Selected, ParseAuth;
  }

  /** A whole session on any client connection: it reads messages for as long as it wants one and one arrives, does
      what their script says unless a write to the client fails, and panics just on the requests that make the parser
      panic. The protocol allows all of it, the client gets a prefix of a word of the grammar, the relay is dialled only
      for a client somebody vouched for, a CONNECT is answered with success only behind address frames that went out
      whole, and these carry the address the client asked for. */
  method RunSession(conn: NetConn, world: World)
    returns (crashed: bool, ghost heard: seq<bytes>, ghost events: seq<Event>)
    requires conn.isOpen && Sane(world)
    modifies conn
    ensures Listened(world, heard, old(conn.incoming), conn.incoming)
    ensures events <= Script(world, heard) && Run(world.allowNoAuth, events).Some?
    ensures conn.outgoing == Fit(old(conn.outgoing) + Output(events), |old(conn.outgoing)| + old(conn.room))
    ensures conn.outgoing == old(conn.outgoing) + Output(events) ==>
              events == Script(world, heard) && (Wants(world, heard) ==> conn.incoming == [])
    ensures crashed <==> Crashes(world, heard)
    ensures Grammar(world.allowNoAuth, Output(events))
    ensures HasDialled(events) ==> Vouched(world.allowNoAuth, events)
    ensures forall i :: 0 <= i < |events| && events[i] == Wrote(CONNECTED) ==>
              i > 0 && events[i - 1].Announced? && events[i - 1].ok
    ensures forall addr, ok :: Announced(addr, ok) in events ==> Requested(world, heard, addr)
    ensures forall i :: 0 < i < |events| ==> Follows(events[i - 1], events[i])
    ensures PortsTold(world, events) && (forall e :: e in events ==> Honest(world, e))
    ensures !conn.isOpen
  {
    var c := new Conversation(conn, world);
    crashed := c.HandleConnection();
    heard, events := c.heard, c.events;
    hide Script, Run, Requested, Listened, Grammar, Output, Wants, Crashes, Vouched, HasDialled;
    hide PortsTold, Follows, Honest;
    SessionFacts(world, heard, events);
  }

  /** What the beginning of any script is like. */
  lemma SessionFacts(w: World, heard: seq<bytes>, events: seq<Event>)
    requires Sane(w) && events <= Script(w, heard)
    ensures Run(w.allowNoAuth, events).Some? && Grammar(w.allowNoAuth, Output(events))
    ensures HasDialled(events) ==> Vouched(w.allowNoAuth, events)
    ensures forall i :: 0 <= i < |events| && events[i] == Wrote(CONNECTED) ==>
              i > 0 && events[i - 1].Announced? && events[i - 1].ok
    ensures forall addr, ok :: Announced(addr, ok) in events ==> Requested(w, heard, addr)
    ensures forall i :: 0 < i < |events| ==> Follows(events[i - 1], events[i])
    ensures PortsTold(w, events) && (forall e :: e in events ==> Honest(w, e))
  {
    hide Script, Run, Requested, Grammar, Output, Vouched, HasDialled, PortsTold, Sane, Follows, Honest;
    PortsPrefix(w, heard, events);
    ScriptAllowed(w, heard);
    assert Script(w, heard)[..|events|] == events;
    RunPrefix(w.allowNoAuth, Script(w, heard), |events|);
    OutputIsGrammar(w.allowNoAuth, events);
    DialledMeansVouched(w.allowNoAuth, events);
    forall i | 0 <= i < |events| && events[i] == Wrote(CONNECTED)
      ensures i > 0 && events[i - 1].Announced? && events[i - 1].ok
    {
      ConnectedMeansAnnounced(w.allowNoAuth, events, i);
    }
    forall e | e in events
      ensures Honest(w, e)
    {
      ScriptIsHonest(w, heard, e);
    }
    forall i | 0 < i < |events|
      ensures Follows(events[i - 1], events[i])
    {
      AllowedFollows(w.allowNoAuth, events, i);
    }
    forall addr, ok | Announced(addr, ok) in events
      ensures Requested(w, heard, addr)
    {
      AnnouncedIsRequested(w, heard, addr, ok);
    }
  }
}
