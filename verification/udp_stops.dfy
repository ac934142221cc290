/** What becomes of a UDP association once something in it has stopped or been cut: exactly how many replies can still
    be given back. */
module UdpStops {
  import opened Bytes
  import opened Constants
  import opened Frames
  import opened Link
  import opened UdpHeader
  import opened UdpAssociation

  /** How many of these frames have arrived whole if `arrived` bytes of them have. */
  function WholeFrames(a: Aead, ps: seq<Packet>, arrived: nat): nat {
    if ps == [] || |Frame(a, ps[0])| > arrived then 0
    else 1 + WholeFrames(a, ps[1..], arrived - |Frame(a, ps[0])|)
  }

  /** How many of the requests that have arrived whole the relay can still take: those in front of the first it cannot
      parse. */
  function Takable(a: Aead, ps: seq<Packet>, datagrams: seq<(Addr, bytes)>, arrived: nat): nat {
    if ps == [] || datagrams == [] || |Frame(a, ps[0])| > arrived || Request(datagrams[0].1).None? then 0
    else 1 + Takable(a, ps[1..], datagrams[1..], arrived - |Frame(a, ps[0])|)
  }

  function Arrived(c: Channel): nat {
    |c.part| + |c.wire|
  }

  function RepliesIn(a: Aead, c: Channel): nat {
    if c.got <= |c.sent| then WholeFrames(a, c.sent[c.got..], Arrived(c)) else 0
  }

  function RequestsIn(a: Aead, c: Channel, received: seq<(Addr, bytes)>): nat {
    if c.got <= |c.sent| && c.got <= |received|
    then Takable(a, c.sent[c.got..], received[c.got..], Arrived(c)) else 0
  }

  function Busy(y: Relay): nat {
    if y.YDialling? || y.YAwaiting? || y.YReplying? then 1 else 0
  }

  function InHand(r: Returner): nat {
    if Pending(r) then 1 else 0
  }

  /** The most datagrams that can have been given back in the end. With the returning goroutine stopped, those that have
      been; with the relay stopped or its direction cut, also the reply in hand and those that have arrived whole; else,
      with the forwarding goroutine stopped or its direction cut, every reply begun, the one to the request the relay is
      at, and those to the requests it can still take. */
  function Most(a: Aead, s: State): nat {
    if s.r.RDone? then |s.returned|
    else if s.y.YExited? || s.down.cut then |s.returned| + InHand(s.r) + RepliesIn(a, s.down)
    else |s.down.sent| + Busy(s.y) + RequestsIn(a, s.up, s.received)
  }

  // ---------- counting ----------

  lemma {:induction false} WholeMono(a: Aead, ps: seq<Packet>, m: nat, n: nat)
    requires m <= n
    ensures WholeFrames(a, ps, m) <= WholeFrames(a, ps, n) <= |ps|
  {
    hide Frame;
    if ps != [] && |Frame(a, ps[0])| <= n {
      if |Frame(a, ps[0])| <= m {
        WholeMono(a, ps[1..], m - |Frame(a, ps[0])|, n - |Frame(a, ps[0])|);
      } else {
        WholeMono(a, ps[1..], 0, n - |Frame(a, ps[0])|);
      }
    }
  }

  lemma {:induction false} TakableMono(a: Aead, ps: seq<Packet>, datagrams: seq<(Addr, bytes)>, m: nat, n: nat)
    requires m <= n
    ensures Takable(a, ps, datagrams, m) <= Takable(a, ps, datagrams, n)
  {
    hide Frame, Request;
    if ps != [] && datagrams != [] && |Frame(a, ps[0])| <= m {
      TakableMono(a, ps[1..], datagrams[1..], m - |Frame(a, ps[0])|, n - |Frame(a, ps[0])|);
    }
  }

  /** A frame begun behind bytes that will never arrive does not count. */
  lemma {:induction false} WholeMore(a: Aead, ps: seq<Packet>, p: Packet, n: nat)
    requires n < |Frames.Encode(a, ps)|
    ensures WholeFrames(a, ps + [p], n) == WholeFrames(a, ps, n)
  {
    hide Frame;
    assert ps != [];
    assert (ps + [p])[1..] == ps[1..] + [p];
    if |Frame(a, ps[0])| <= n {
      WholeMore(a, ps[1..], p, n - |Frame(a, ps[0])|);
    }
  }

  lemma {:induction false} TakableMore(a: Aead, ps: seq<Packet>, p: Packet, datagrams: seq<(Addr, bytes)>, n: nat)
    requires n < |Frames.Encode(a, ps)|
    ensures Takable(a, ps + [p], datagrams, n) == Takable(a, ps, datagrams, n)
  {
    hide Frame, Request;
    assert ps != [];
    assert (ps + [p])[1..] == ps[1..] + [p];
    if |Frame(a, ps[0])| <= n && datagrams != [] {
      TakableMore(a, ps[1..], p, datagrams[1..], n - |Frame(a, ps[0])|);
    }
  }

  /** Nor does a datagram that nobody has put in a frame. */
  lemma {:induction false} TakableLonger(a: Aead, ps: seq<Packet>, datagrams: seq<(Addr, bytes)>, d: (Addr, bytes),
                                         n: nat)
    requires |ps| <= |datagrams|
    ensures Takable(a, ps, datagrams + [d], n) == Takable(a, ps, datagrams, n)
  {
    hide Frame, Request;
    if ps != [] {
      assert (datagrams + [d])[1..] == datagrams[1..] + [d];
      if |Frame(a, ps[0])| <= n {
        TakableLonger(a, ps[1..], datagrams[1..], d, n - |Frame(a, ps[0])|);
      }
    }
  }

  /** What has not arrived, given that something never will. */
  lemma CutShort(a: Aead, c: Channel)
    requires c.Inv(a) && c.tail != []
    ensures Arrived(c) < |Frames.Encode(a, c.sent[c.got..])|
  {
  }

  /** Taking a frame off the link. */
  lemma TakesOne(a: Aead, c: Channel, received: seq<(Addr, bytes)>)
    requires Lawful(a) && c.Inv(a) && Complete(c.part)
    ensures RepliesIn(a, c) == 1 + RepliesIn(a, c.Decode())
    ensures c.got < |received| && Request(received[c.got].1).Some? ==>
              RequestsIn(a, c, received) == 1 + RequestsIn(a, c.Decode(), received)
    ensures c.got < |received| && Request(received[c.got].1).None? ==> RequestsIn(a, c, received) == 0
  {
    NextFrame(a, c);
    hide Frame, Lawful, Complete, Request, Channel.Inv;
    assert c.sent[c.got..][1..] == c.sent[c.got + 1..];
    if c.got < |received| {
      assert received[c.got..][1..] == received[c.got + 1..];
    }
  }

  /** A frame that has arrived whole is complete or comes nearer. */
  lemma ArrivedMoves(a: Aead, c: Channel)
    requires Lawful(a) && c.Inv(a) && c.got < |c.sent| && |Frame(a, c.sent[c.got])| <= Arrived(c)
    ensures Complete(c.part) || c.CanPull(1)
  {
    if c.wire == [] {
      var queue := c.sent[c.got..];
      var rest := Frames.Encode(a, queue[1..]);
      assert queue[0] == c.sent[c.got] && Sendable(queue[0]);
      FrameShape(a, queue[0], rest);
      assert c.part + c.wire + c.tail == c.part + c.tail == Frame(a, queue[0]) + rest;
      hide Frame, Lawful, Frames.Encode, BE16;
      assert c.part[24] == (Frame(a, queue[0]) + rest)[24] && c.part[25] == (Frame(a, queue[0]) + rest)[25];
    }
  }

  // ---------- no step makes it more ----------

  lemma Reckoning(a: Aead, s: State)
    requires Inv(a, s)
    ensures !s.r.RDone? ==> s.down.got == |s.returned| + InHand(s.r)
    ensures |s.returned| + InHand(s.r) + RepliesIn(a, s.down) <= |s.down.sent| || s.r.RDone?
    ensures |s.returned| <= Most(a, s)
  {
    WholeMono(a, s.down.sent[s.down.got..], Arrived(s.down), Arrived(s.down));
    hide Channel.Inv, Forwarded, ForwarderOk, ClientOk, MutexOk, RelayCounts, RelayPairs, Returned, ReturnStage;
    hide WholeFrames, Takable;
  }

  /** The parts of the invariant the reckoning needs. */
  lemma ForwardFacts(a: Aead, s: State)
    requires Inv(a, s)
    ensures s.up.Inv(a) && s.down.Inv(a) && |s.up.sent| <= |s.received| && s.up.got <= |s.up.sent|
    ensures s.down.got <= |s.down.sent|
    ensures Forwarded(s.received, s.up.sent) && Replied(s.received, s.responses, s.down.sent)
  {
    hide ForwarderOk, ClientOk, MutexOk, RelayCounts, ReturnerOk, Asked, RelayStage, Replied;
  }

  lemma StaysStopped(a: Aead, s: State, step: Step)
    requires Enabled(s, step) && !Smooth(s)
    ensures !Smooth(Apply(a, s, step))
  {
    hide Fit, Parse, Build, Dst, Reply, HeaderBytes, Frame, AddrString, Complete, Need, BE16;
  }

  predicate ReturnerStep(step: Step) {
    step.RPull? || step.RDecode? || step.RLock? || step.RCheck? || step.RUnlock? || step.RBuild? || step.RSend?
    || step.RStop?
  }

  lemma ReturnerMost(a: Aead, s: State, step: Step)
    requires Lawful(a) && Inv(a, s) && Enabled(s, step) && ReturnerStep(step)
    ensures Most(a, Apply(a, s, step)) <= Most(a, s)
    ensures !step.RStop? ==> Most(a, Apply(a, s, step)) == Most(a, s) && !Apply(a, s, step).r.RDone?
  {
    hide Apply, Most, Inv, Lawful, Complete;
    Reckoning(a, s);
    if step.RCheck? {
      NilBranchDead(a, s);
    }
    hide Enabled;
    match step {
      case RDecode => DecodeMost(a, s);
      case RBuild => BuildMost(a, s);
      case RPull(k) => PullMost(a, s, k);
      case RStop => StopMost(a, s);
      case _ => SectionMost(a, s, step);
    }
  }

  lemma DecodeMost(a: Aead, s: State)
    requires Lawful(a) && Inv(a, s) && Enabled(s, RDecode)
    ensures Most(a, Apply(a, s, RDecode)) == Most(a, s) && !Apply(a, s, RDecode).r.RDone?
  {
    hide Inv, Lawful, Enabled, Apply, Most, Replied, Channel.Inv, RepliesIn;
    ForwardFacts(a, s);
    RDecodeForm(a, s);
    hide Complete;
    RDecodeCounts(a, s, Apply(a, s, RDecode));
  }

  lemma RDecodeForm(a: Aead, s: State)
    requires Lawful(a) && s.down.Inv(a) && Replied(s.received, s.responses, s.down.sent) && Enabled(s, RDecode)
    ensures var t := Apply(a, s, RDecode); t == s.(down := s.down.Decode(), r := t.r) && t.r.RLocking?
    ensures s.r.RReading? && Complete(s.down.part) && RepliesIn(a, s.down) == 1 + RepliesIn(a, s.down.Decode())
  {
    DecodedReply(a, s);
    TakesOne(a, s.down, []);
    hide Lawful, Parse, Fit, Channel.Opened, Complete, Survives, Request, Channel.Inv, Replied, RepliesIn;
  }

  lemma RDecodeCounts(a: Aead, s: State, t: State)
    requires s.r.RReading? && Complete(s.down.part)
    requires t == s.(down := s.down.Decode(), r := t.r) && t.r.RLocking?
    requires RepliesIn(a, s.down) == 1 + RepliesIn(a, s.down.Decode())
    ensures Most(a, t) == Most(a, s)
  {
    hide RepliesIn, RequestsIn, Complete;
  }

  lemma BuildMost(a: Aead, s: State)
    requires Enabled(s, RBuild)
    ensures Most(a, Apply(a, s, RBuild)) == Most(a, s) && !Apply(a, s, RBuild).r.RDone?
  {
    hide Fit, Parse, Build, Dst, HeaderBytes, AddrString, AddrHeader, RepliesIn, RequestsIn, WellFormed;
    BuildOfAddr(s.r.current);
  }

  lemma PullMost(a: Aead, s: State, k: nat)
    requires Enabled(s, RPull(k))
    ensures Most(a, Apply(a, s, RPull(k))) == Most(a, s) && !Apply(a, s, RPull(k)).r.RDone?
  {
    hide RepliesIn, RequestsIn, Need;
    PullArrives(a, s.down, k);
  }

  lemma SectionMost(a: Aead, s: State, step: Step)
    requires Enabled(s, step) && (step.RLock? || step.RCheck? || step.RUnlock? || step.RSend?)
    requires step.RCheck? ==> s.clientAddr.Some?
    ensures Most(a, Apply(a, s, step)) == Most(a, s) && !Apply(a, s, step).r.RDone?
  {
    hide RepliesIn, RequestsIn, Complete, Need;
  }

  lemma StopMost(a: Aead, s: State)
    requires Enabled(s, RStop) && |s.returned| <= Most(a, s)
    ensures Most(a, Apply(a, s, RStop)) <= Most(a, s)
  {
    hide RepliesIn, RequestsIn;
  }

  lemma PullArrives(a: Aead, c: Channel, k: nat)
    requires c.CanPull(k)
    ensures RepliesIn(a, c.Pull(k)) == RepliesIn(a, c)
    ensures forall received :: RequestsIn(a, c.Pull(k), received) == RequestsIn(a, c, received)
  {
    hide WholeFrames, Takable;
    assert Arrived(c.Pull(k)) == Arrived(c);
  }

  lemma ForwarderMost(a: Aead, s: State, step: Step)
    requires Inv(a, s) && TailsOk(s) && !Smooth(s) && Enabled(s, step) && ForwarderStep(step)
    ensures Most(a, Apply(a, s, step)) == Most(a, s)
  {
    hide Fit, Parse, Build, Dst, Reply, HeaderBytes, Frame, AddrString, Complete, Need, BE16, RepliesIn, RequestsIn;
    hide Inv, Channel.Inv, Forwarded, Replied;
    ForwardFacts(a, s);
    if s.up.cut {
      if step.Datagram? {
        DatagramTakes(a, s, (step.from, step.data));
      }
      if step.FBegin? {
        BeginTakes(a, s.up, Packet(step.nonce, s.f.data), s.received);
      }
    }
  }

  lemma DatagramTakes(a: Aead, s: State, d: (Addr, bytes))
    requires s.up.got <= |s.up.sent| <= |s.received|
    ensures RequestsIn(a, s.up, s.received + [d]) == RequestsIn(a, s.up, s.received)
  {
    hide Takable, Frame;
    var k := s.up.got;
    assert (s.received + [d])[k..] == s.received[k..] + [d];
    TakableLonger(a, s.up.sent[k..], s.received[k..], d, Arrived(s.up));
  }

  /** A write on a link that is cut. */
  lemma BeginTakes(a: Aead, c: Channel, p: Packet, received: seq<(Addr, bytes)>)
    requires c.Inv(a) && c.CanBegin(p) && c.tail != [] && c.got <= |received|
    ensures RepliesIn(a, c.Begin(a, p)) == RepliesIn(a, c)
    ensures RequestsIn(a, c.Begin(a, p), received) == RequestsIn(a, c, received)
  {
    CutShort(a, c);
    var k := c.got;
    assert k <= |c.sent|;
    hide Takable, WholeFrames, Frame, Channel.Inv;
    assert (c.sent + [p])[k..] == c.sent[k..] + [p];
    WholeMore(a, c.sent[k..], p, Arrived(c));
    TakableMore(a, c.sent[k..], p, received[k..], Arrived(c));
  }

  lemma RelayMost(a: Aead, s: State, step: Step)
    requires Lawful(a) && Inv(a, s) && TailsOk(s) && Enabled(s, step) && RelayStep(step)
    ensures Most(a, Apply(a, s, step)) <= Most(a, s)
    ensures !step.YStop? && (step.YDecode? ==> RequestsIn(a, s.up, s.received) > 0) ==>
              Most(a, Apply(a, s, step)) == Most(a, s)
  {
    Reckoning(a, s);
    ForwardFacts(a, s);
    hide Inv, Enabled, Apply, Most;
    match step {
      case YDecode => YDecodeMost(a, s);
      case YBegin(nonce) => YBeginMost(a, s, nonce);
      case YPull(k) => YPullMost(a, s, k);
      case YStop => YStopMost(a, s);
      case _ => YOtherMost(a, s, step);
    }
  }

  lemma YDecodeMost(a: Aead, s: State)
    requires Lawful(a) && Inv(a, s) && Enabled(s, YDecode)
    requires s.r.RDone? || |s.returned| + InHand(s.r) + RepliesIn(a, s.down) <= |s.down.sent|
    ensures Most(a, Apply(a, s, YDecode)) <= Most(a, s)
    ensures RequestsIn(a, s.up, s.received) > 0 ==> Most(a, Apply(a, s, YDecode)) == Most(a, s)
  {
    hide Inv, Lawful, Enabled, Apply, Most, Forwarded, Channel.Inv, RepliesIn, RequestsIn, Request;
    ForwardFacts(a, s);
    YDecodeForm(a, s);
    hide Complete;
    YDecodeCounts(a, s, Apply(a, s, YDecode));
  }

  lemma YDecodeForm(a: Aead, s: State)
    requires Lawful(a) && s.up.Inv(a) && Forwarded(s.received, s.up.sent) && Enabled(s, YDecode)
    ensures s.y.YReading? && Complete(s.up.part) && s.up.got < |s.received|
    ensures var t := Apply(a, s, YDecode);
            && t == s.(up := s.up.Decode(), y := t.y)
            && if Request(s.received[s.up.got].1).Some?
               then t.y.YDialling? && RequestsIn(a, s.up, s.received) == 1 + RequestsIn(a, t.up, s.received)
               else t.y.YExited? && RequestsIn(a, s.up, s.received) == 0
  {
    DecodedRequest(a, s);
    TakesOne(a, s.up, s.received);
    hide Lawful, Parse, Fit, Channel.Opened, Complete, Request, Channel.Inv, Forwarded, RequestsIn;
  }

  lemma YDecodeCounts(a: Aead, s: State, t: State)
    requires s.y.YReading? && Complete(s.up.part) && s.up.got < |s.received|
    requires t == s.(up := s.up.Decode(), y := t.y)
    requires if Request(s.received[s.up.got].1).Some?
             then t.y.YDialling? && RequestsIn(a, s.up, s.received) == 1 + RequestsIn(a, t.up, s.received)
             else t.y.YExited? && RequestsIn(a, s.up, s.received) == 0
    requires s.r.RDone? || |s.returned| + InHand(s.r) + RepliesIn(a, s.down) <= |s.down.sent|
    ensures Most(a, t) <= Most(a, s)
    ensures RequestsIn(a, s.up, s.received) > 0 ==> Most(a, t) == Most(a, s)
  {
    hide RepliesIn, RequestsIn, Complete, Request;
  }

  lemma YBeginMost(a: Aead, s: State, nonce: bytes)
    requires s.down.Inv(a) && TailsOk(s) && Enabled(s, YBegin(nonce))
    ensures Most(a, Apply(a, s, YBegin(nonce))) == Most(a, s)
  {
    hide Frame, Channel.Inv, RepliesIn, RequestsIn;
    if s.down.cut {
      BeginReplies(a, s.down, Packet(nonce, s.y.packet));
    }
  }

  lemma BeginReplies(a: Aead, c: Channel, p: Packet)
    requires c.Inv(a) && c.CanBegin(p) && c.tail != []
    ensures RepliesIn(a, c.Begin(a, p)) == RepliesIn(a, c)
  {
    CutShort(a, c);
    assert c.got <= |c.sent|;
    hide WholeFrames, Frame, Channel.Inv;
    assert (c.sent + [p])[c.got..] == c.sent[c.got..] + [p];
    WholeMore(a, c.sent[c.got..], p, Arrived(c));
  }

  lemma YPullMost(a: Aead, s: State, k: nat)
    requires Enabled(s, YPull(k))
    ensures Most(a, Apply(a, s, YPull(k))) == Most(a, s)
  {
    hide RepliesIn, RequestsIn, Need;
    PullArrives(a, s.up, k);
  }

  lemma YStopMost(a: Aead, s: State)
    requires Enabled(s, YStop)
    requires s.r.RDone? || |s.returned| + InHand(s.r) + RepliesIn(a, s.down) <= |s.down.sent|
    ensures Most(a, Apply(a, s, YStop)) <= Most(a, s)
  {
    hide RepliesIn, RequestsIn;
  }

  lemma YOtherMost(a: Aead, s: State, step: Step)
    requires Enabled(s, step) && (step.YDial? || step.YAnswer? || step.YEmit? || step.YSwallow?)
    ensures Most(a, Apply(a, s, step)) == Most(a, s)
  {
    hide WholeFrames, RequestsIn, Dst, Reply;
  }

  lemma CutMost(a: Aead, s: State, step: Step)
    requires Inv(a, s) && Enabled(s, step) && (step.CutUp? || step.CutDown?)
    ensures Most(a, Apply(a, s, step)) <= Most(a, s)
  {
    hide Enabled, Apply, Most, Inv;
    Reckoning(a, s);
    ForwardFacts(a, s);
    match step {
      case CutUp(k) => CutUpMost(a, s, k);
      case CutDown(k) => CutDownMost(a, s, k);
    }
  }

  lemma CutUpMost(a: Aead, s: State, k: nat)
    requires Enabled(s, CutUp(k)) && s.up.got <= |s.up.sent| <= |s.received|
    ensures Most(a, Apply(a, s, CutUp(k))) <= Most(a, s)
  {
    hide Takable, RepliesIn;
    TakableMono(a, s.up.sent[s.up.got..], s.received[s.up.got..], Arrived(s.up.Cut(k)), Arrived(s.up));
  }

  lemma CutDownMost(a: Aead, s: State, k: nat)
    requires Enabled(s, CutDown(k)) && s.down.got <= |s.down.sent|
    requires s.r.RDone? || |s.returned| + InHand(s.r) + RepliesIn(a, s.down) <= |s.down.sent|
    ensures Most(a, Apply(a, s, CutDown(k))) <= Most(a, s)
  {
    hide WholeFrames, RequestsIn;
    WholeMono(a, s.down.sent[s.down.got..], Arrived(s.down.Cut(k)), Arrived(s.down));
  }

  lemma StepMost(a: Aead, s: State, step: Step)
    requires Lawful(a) && Inv(a, s) && TailsOk(s) && !Smooth(s) && Enabled(s, step)
    ensures Most(a, Apply(a, s, step)) <= Most(a, s)
  {
    hide Enabled, Apply, Most, Inv, TailsOk, Smooth, Lawful;
    if ForwarderStep(step) {
      ForwarderMost(a, s, step);
    } else if RelayStep(step) {
      RelayMost(a, s, step);
    } else if ReturnerStep(step) {
      ReturnerMost(a, s, step);
    } else {
      CutMost(a, s, step);
    }
  }

  // ---------- and so many it can be ----------

  lemma FirstArrived(a: Aead, c: Channel, received: seq<(Addr, bytes)>)
    ensures RepliesIn(a, c) > 0 || RequestsIn(a, c, received) > 0 ==>
              c.got < |c.sent| && |Frame(a, c.sent[c.got])| <= Arrived(c)
  {
    hide Frame, Request;
  }

  /** The reply in hand goes on, or else the forwarding goroutine that holds the mutex before it. */
  lemma PendingMoves(a: Aead, s: State) returns (step: Step)
    requires Ready(s) && Pending(s.r)
    ensures Enabled(s, step) && Quiet(step) && (ReturnerStep(step) || ForwarderStep(step)) && !step.RStop?
  {
    hide Channel.CanPull, Channel.CanEmit, Channel.CanBegin, Channel.CanCut, Complete;
    if s.mutex.Some? {
      Holder(s);
    }
    match s.r {
      case RLocking(_) => step := if s.mutex == None then RLock else if s.f.FSetting? then FSet else FUnlock;
      case RChecking(_) => step := RCheck;
      case RUnlocking(_, _) => step := RUnlock;
      case RBuilding(_, _) => step := RBuild;
      case RSending(_) => step := RSend;
    }
  }

  lemma PullsOne(a: Aead, c: Channel)
    requires c.Inv(a) && !Complete(c.part) && c.wire != []
    ensures c.CanPull(1)
  {
  }

  /** A reply on the link comes nearer. */
  lemma ReplyMoves(a: Aead, s: State) returns (step: Step)
    requires Lawful(a) && s.down.Inv(a) && TailsOk(s) && s.r.RReading? && s.down.got < |s.down.sent|
    requires |Frame(a, s.down.sent[s.down.got])| <= Arrived(s.down) || (!s.y.YExited? && !s.down.cut)
    ensures Enabled(s, step) && Quiet(step) && (ReturnerStep(step) || step.YEmit?) && !step.RStop?
  {
    hide Frame, Lawful;
    if Complete(s.down.part) {
      step := RDecode;
    } else if |Frame(a, s.down.sent[s.down.got])| <= Arrived(s.down) {
      ArrivedMoves(a, s.down);
      hide Channel.Inv;
      step := RPull(1);
    } else if s.down.wire != [] {
      PullsOne(a, s.down);
      hide Channel.Inv;
      step := RPull(1);
    } else {
      if s.down.tail == [] {
        NothingMissing(a, s.down);
      }
      hide Channel.Inv;
      step := YEmit(1);
    }
  }

  /** The relay goes on with its request, or takes the next. */
  lemma RelayMoves(a: Aead, s: State, answer: bytes) returns (step: Step)
    requires Lawful(a) && s.up.Inv(a) && Ready(s) && !s.y.YExited? && !s.down.cut
    requires Busy(s.y) > 0 || s.y.YWriting? || RequestsIn(a, s.up, s.received) > 0
    ensures Enabled(s, step) && Quiet(step) && RelayStep(step) && !step.YStop?
    ensures step.YAnswer? ==> step.response == answer
    ensures step.YDecode? ==> RequestsIn(a, s.up, s.received) > 0
  {
    FirstArrived(a, s.up, s.received);
    hide Frame, RequestsIn;
    match s.y {
      case YDialling(_, _) => step := YDial;
      case YAwaiting(_) => step := YAnswer(answer);
      case YReplying(_) => step := YBegin(Zeros(NONCE));
      case YWriting => step := YEmit(1);
      case YReading =>
        ArrivedMoves(a, s.up);
        hide Lawful, Channel.Inv;
        step := if Complete(s.up.part) then YDecode else YPull(1);
    }
  }

  lemma MostFacts(a: Aead, s: State)
    requires Inv(a, s) && |s.returned| < Most(a, s) && !Pending(s.r)
    ensures s.r.RReading?
    ensures s.y.YExited? || s.down.cut ==> RepliesIn(a, s.down) > 0
    ensures !s.y.YExited? && !s.down.cut && s.down.got >= |s.down.sent| ==>
              Busy(s.y) > 0 || RequestsIn(a, s.up, s.received) > 0
  {
    Reckoning(a, s);
    ForwardFacts(a, s);
    hide Inv, RepliesIn, RequestsIn;
  }

  lemma MovesOn(a: Aead, s: State, answer: bytes) returns (step: Step)
    requires Lawful(a) && Inv(a, s) && TailsOk(s) && !Smooth(s) && |s.returned| < Most(a, s)
    ensures Enabled(s, step) && Quiet(step) && Most(a, Apply(a, s, step)) == Most(a, s)
    ensures step.YAnswer? ==> step.response == answer
  {
    hide Inv, Enabled, Apply, TailsOk, Ready, Smooth, Lawful, Most, Channel.Inv, RepliesIn, RequestsIn;
    InvReady(a, s);
    ForwardFacts(a, s);
    if Pending(s.r) {
      step := PendingMoves(a, s);
    } else {
      MostFacts(a, s);
      FirstArrived(a, s.down, s.received);
      if s.y.YExited? || s.down.cut || s.down.got < |s.down.sent| {
        step := ReplyMoves(a, s);
      } else {
        step := RelayMoves(a, s, answer);
      }
    }
    QuietMost(a, s, step);
  }

  lemma QuietMost(a: Aead, s: State, step: Step)
    requires Lawful(a) && Inv(a, s) && TailsOk(s) && !Smooth(s) && Enabled(s, step)
    requires Quiet(step) && (ReturnerStep(step) || ForwarderStep(step) || RelayStep(step))
    requires step.YDecode? ==> RequestsIn(a, s.up, s.received) > 0
    ensures Most(a, Apply(a, s, step)) == Most(a, s)
  {
    hide Inv, Enabled, Apply, TailsOk, Smooth, Lawful, Most, RequestsIn;
    if ForwarderStep(step) {
      ForwarderMost(a, s, step);
    } else if RelayStep(step) {
      RelayMost(a, s, step);
    } else {
      ReturnerMost(a, s, step);
    }
  }

  predicate AnyPath(a: Aead, s: State, steps: seq<Step>, t: State)
    decreases |steps|
  {
    if steps == [] then s == t
    else Enabled(s, steps[0]) && AnyPath(a, Apply(a, s, steps[0]), steps[1..], t)
  }

  /** Some way on from here has given back this many in the end. */
  ghost predicate CanHave(a: Aead, s: State, n: nat) {
    exists steps, t :: AnyPath(a, s, steps, t) && |t.returned| == n
  }

  lemma {:induction false} PathAtMost(a: Aead, s: State, steps: seq<Step>, t: State)
    requires Lawful(a) && Inv(a, s) && TailsOk(s) && !Smooth(s) && AnyPath(a, s, steps, t)
    ensures Most(a, t) <= Most(a, s) && Inv(a, t)
    decreases |steps|
  {
    hide Inv, Enabled, Apply, TailsOk, Smooth, Most;
    if steps != [] {
      var next := Apply(a, s, steps[0]);
      StepKeeps(a, s, steps[0]);
      TailsKeep(a, s, steps[0]);
      StaysStopped(a, s, steps[0]);
      StepMost(a, s, steps[0]);
      PathAtMost(a, next, steps[1..], t);
    }
  }

  lemma {:induction false} ReachesMost(a: Aead, s: State) returns (steps: seq<Step>, t: State)
    requires Lawful(a) && Inv(a, s) && TailsOk(s) && !Smooth(s)
    ensures AnyPath(a, s, steps, t) && |t.returned| == Most(a, s)
    decreases UdpAssociation.Measure(s)
  {
    Reckoning(a, s);
    hide Inv, Enabled, Apply, TailsOk, Smooth, Most, Measure;
    if |s.returned| == Most(a, s) {
      steps, t := [], s;
    } else {
      var step := MovesOn(a, s, []);
      var next := Apply(a, s, step);
      StepKeeps(a, s, step);
      TailsKeep(a, s, step);
      StaysStopped(a, s, step);
      QuietShrinks(a, s, step);
      var rest;
      rest, t := ReachesMost(a, next);
      steps := [step] + rest;
      assert steps[1..] == rest;
    }
  }

  /** In every run, once a goroutine or the relay has stopped or a direction has been cut, whatever happens from then
      on: the datagrams given back in the end are at most so many, and some way on gives back just so many. (Which they
      are, and that the k-th is for the k-th request, is the invariant's business.) */
  lemma RunAfterStop(a: Aead, states: seq<State>, steps: seq<Step>, i: nat)
    requires Lawful(a) && IsRun(a, states, steps) && i < |states| && !Smooth(states[i])
    ensures CanHave(a, states[i], Most(a, states[i]))
    ensures forall n: nat :: CanHave(a, states[i], n) ==> n <= Most(a, states[i])
  {
    RunInv(a, states, steps, i);
    RunTails(a, states, steps, i);
    var s := states[i];
    hide IsRun, Inv, TailsOk, Smooth, Most, AnyPath, CanHave;
    Has(a, s);
    forall n: nat | CanHave(a, s, n)
      ensures n <= Most(a, s)
    {
      HasAtMost(a, s, n);
    }
  }

  lemma Has(a: Aead, s: State)
    requires Lawful(a) && Inv(a, s) && TailsOk(s) && !Smooth(s)
    ensures CanHave(a, s, Most(a, s))
  {
    hide Inv, TailsOk, Smooth, Most, AnyPath;
    var steps, t := ReachesMost(a, s);
  }

  lemma HasAtMost(a: Aead, s: State, n: nat)
    requires Lawful(a) && Inv(a, s) && TailsOk(s) && !Smooth(s) && CanHave(a, s, n)
    ensures n <= Most(a, s)
  {
    hide Inv, TailsOk, Smooth, Most, AnyPath;
    var steps, t :| AnyPath(a, s, steps, t) && |t.returned| == n;
    PathAtMost(a, s, steps, t);
    Reckoning(a, t);
  }
}
