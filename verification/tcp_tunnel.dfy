/**
 The whole TCP tunnel: four pumps over three connections, the relay's dialling phase in front of them, and the
 closes each stopping pump triggers. A run is any interleaving of the steps below.
 */
module TcpTunnel {
  import opened Bytes
  import opened Constants
  import opened Frames
  import opened Link
  import opened Pump
  import opened Preamble
  import L = Lane

  /** The relay's handler; its two pumps exist only in Pumping. */
  datatype Phase =
    | AwaitLength
    | AwaitAddress(buf: bytes, length: byte)
    | Dialling(target: bytes)
    | Pumping(target: bytes)
    | Refused

  /** `up` carries the client's bytes to the target and starts with the two address frames; `down` the other way. */
  datatype State = State(
    addr: bytes,
    up: L.Lane,
    down: L.Lane,
    phase: Phase,
    dialled: Option<bytes>,
    socksExited: bool,
    relayExited: bool)

  /** The four ends. Each pump's deferred Close shuts an end its sibling uses; a handler's return shuts both. */
  predicate ClientOpen(s: State) { !s.socksExited && !s.down.receiver.ReceiverDone? }
  predicate SocksLinkOpen(s: State) { !s.socksExited && !s.up.sender.SenderDone? }
  predicate RelayLinkOpen(s: State) { !s.relayExited && s.phase != Refused && !s.down.sender.SenderDone? }
  predicate TargetOpen(s: State) { !s.relayExited && s.phase.Pumping? && !s.up.receiver.ReceiverDone? }

  function UpEnds(s: State): L.Ends {
    L.Ends(ClientOpen(s), SocksLinkOpen(s), RelayLinkOpen(s), TargetOpen(s),
           true, s.phase.Pumping?, s.phase.AwaitLength? || s.phase.AwaitAddress? || s.phase.Pumping?)
  }

  function DownEnds(s: State): L.Ends {
    L.Ends(TargetOpen(s), RelayLinkOpen(s), SocksLinkOpen(s), ClientOpen(s), s.phase.Pumping?, true, true)
  }

  datatype Action =
    | Up(step: L.Step)
    | Down(step: L.Step)
    | CollectLength
    | CollectAddress
    | Refuse
    | Connect
    | ExitSocks
    | ExitRelay

  predicate Enabled(s: State, act: Action) {
    match act
    case Up(step) => L.Enabled(s.up, UpEnds(s), step)
    case Down(step) => L.Enabled(s.down, DownEnds(s), step)
    case CollectLength => s.phase.AwaitLength? && Complete(s.up.chan.part)
    case CollectAddress => s.phase.AwaitAddress? && Complete(s.up.chan.part)
    case Refuse => !s.phase.Pumping? && s.phase != Refused
    case Connect => s.phase.Dialling?
    case ExitSocks => !s.socksExited
    case ExitRelay => s.phase.Pumping? && !s.relayExited
  }

  function Apply(a: Aead, s: State, act: Action): State
    requires Enabled(s, act)
  {
    match act
    case Up(step) => s.(up := L.Apply(a, s.up, UpEnds(s), step))
    case Down(step) => s.(down := L.Apply(a, s.down, DownEnds(s), step))
    case CollectLength =>
      var plain := s.up.chan.Opened(a);
      if plain.None? || plain.value == [] then s.(phase := Refused)
      else
        var buf := Overlay(Zeros(BLOCK_SIZE), plain.value);
        s.(up := s.up.(chan := s.up.chan.Decode()), phase := AwaitAddress(buf, buf[0]))
    case CollectAddress =>
      var plain := s.up.chan.Opened(a);
      if plain.None? || plain.value == [] || |s.phase.buf| < s.phase.length then s.(phase := Refused)
      else
        var target := Overlay(s.phase.buf, plain.value)[..s.phase.length];
        s.(up := s.up.(chan := s.up.chan.Decode()), phase := Dialling(target), dialled := Some(target))
    case Refuse => s.(phase := Refused)
    case Connect => s.(phase := Pumping(s.phase.target))
    case ExitSocks => s.(socksExited := true)
    case ExitRelay => s.(relayExited := true)
  }

  predicate AddressFrames(addr: bytes, ps: seq<Packet>) {
    && |ps| == 2 && AllSendable(ps)
    && ps[0].body == [LengthByte(addr)] && ps[1].body == addr
  }

  /** The SOCKS5 side has begun to write the two address frames; nothing else has happened. `client` and `target`
      are what the two peers will send in the whole run. */
  predicate Init(a: Aead, s: State) {
    && |s.up.chan.sent| == 2 && AddressFrames(s.addr, s.up.chan.sent)
    && s.up == L.Lane(s.up.supply, 0, L.Writing(None),
                      Channel(s.up.chan.sent, 0, [], [], Encode(a, s.up.chan.sent), false), L.Waiting, [])
    && s.down == L.Lane(s.down.supply, 0, L.Reading, Channel([], 0, [], [], [], false), L.Waiting, [])
    && s.phase == AwaitLength && s.dialled == None && !s.socksExited && !s.relayExited
  }

  /** A run: states joined by enabled actions, from an initial one. */
  predicate IsRun(a: Aead, states: seq<State>, acts: seq<Action>) {
    && |states| == |acts| + 1 && Init(a, states[0])
    && forall i :: 0 <= i < |acts| ==>
         Enabled(states[i], acts[i]) && states[i + 1] == Apply(a, states[i], acts[i])
  }

  // ---------- the invariant ----------

  predicate PhaseOk(s: State) {
    var got := s.up.chan.got;
    && (s.dialled.Some? ==> s.dialled == RelayTarget([LengthByte(s.addr)], s.addr))
    && match s.phase
       case AwaitLength => got == 0 && s.dialled == None
       case AwaitAddress(buf, length) =>
         got == 1 && buf == Overlay(Zeros(BLOCK_SIZE), [LengthByte(s.addr)]) && length == LengthByte(s.addr)
         && s.dialled == None
       case Dialling(target) => got == 2 && s.dialled == Some(target)
       case Pumping(target) => got >= 2 && s.dialled == Some(target)
       case Refused => got <= 2
  }

  /** Before the relay has dialled, nothing flows beyond it. */
  predicate Idle(s: State) {
    !s.phase.Pumping? ==>
      s.up.receiver == L.Waiting && s.up.sunk == [] && s.down.sender == L.Reading && s.down.taken == 0
      && s.down.chan.sent == []
  }

  ghost predicate Inv(a: Aead, s: State) {
    && L.Inv(a, s.up, 2) && L.Inv(a, s.down, 0)
    && 2 <= |s.up.chan.sent| && AddressFrames(s.addr, s.up.chan.sent[..2])
    && PhaseOk(s) && Idle(s)
    && (L.SawClose(s.up) ==> !SocksLinkOpen(s))
    && (L.SawClose(s.down) ==> !RelayLinkOpen(s))
  }

  /** There is such a state for every address and whatever the peers will send. */
  lemma SomeStart(a: Aead, addr: bytes, up: bytes, down: bytes) returns (s: State)
    requires |addr| <= MAX_BODY
    ensures Init(a, s) && s.addr == addr && s.up.supply == up && s.down.supply == down
  {
    var front := [Packet(Zeros(NONCE), [LengthByte(addr)]), Packet(Zeros(NONCE), addr)];
    s := State(addr,
               L.Lane(up, 0, L.Writing(None), Channel(front, 0, [], [], Encode(a, front), false), L.Waiting, []),
               L.Lane(down, 0, L.Reading, Channel([], 0, [], [], [], false), L.Waiting, []),
               AwaitLength, None, false, false);
    hide Encode;
  }

  lemma InitInv(a: Aead, s: State)
    requires Lawful(a) && Init(a, s)
    ensures Inv(a, s)
  {
    hide L.Inv, Frames.Encode;
    FreshChannel(a, s.up.chan.sent);
    FreshChannel(a, []);
    EncodeLength(a, s.up.chan.sent);
    EncodeLength(a, []);
    L.FreshInv(a, s.up, 2);
    L.FreshInv(a, s.down, 0);
    assert s.up.chan.sent[..2] == s.up.chan.sent;
  }

  lemma UpKeeps(a: Aead, s: State, step: L.Step)
    requires Lawful(a) && Inv(a, s) && Enabled(s, Up(step))
    ensures Inv(a, Apply(a, s, Up(step)))
  {
    hide L.Inv, L.Enabled, L.Apply;
    L.StepKeeps(a, s.up, 2, UpEnds(s), step);
    L.StepFrame(a, s.up, UpEnds(s), step);
    var t := Apply(a, s, Up(step));
    assert t.up.chan.sent[..2] == s.up.chan.sent[..2];
  }

  lemma DownKeeps(a: Aead, s: State, step: L.Step)
    requires Lawful(a) && Inv(a, s) && Enabled(s, Down(step))
    ensures Inv(a, Apply(a, s, Down(step)))
  {
    hide L.Inv, L.Enabled, L.Apply;
    L.StepKeeps(a, s.down, 0, DownEnds(s), step);
    L.StepFrame(a, s.down, DownEnds(s), step);
  }

  lemma CollectKeeps(a: Aead, s: State, act: Action)
    requires Lawful(a) && Inv(a, s) && Enabled(s, act) && (act.CollectLength? || act.CollectAddress?)
    ensures Inv(a, Apply(a, s, act))
  {
    hide L.Inv;
    L.SkipKeeps(a, s.up, 2);
    var p := s.up.chan.sent[s.up.chan.got];
    assert p == s.up.chan.sent[..2][s.up.chan.got];
  }

  lemma OtherKeeps(a: Aead, s: State, act: Action)
    requires Lawful(a) && Inv(a, s) && Enabled(s, act)
    requires act.Refuse? || act.Connect? || act.ExitSocks? || act.ExitRelay?
    ensures Inv(a, Apply(a, s, act))
  {
    hide L.Inv;
  }

  lemma StepKeeps(a: Aead, s: State, act: Action)
    requires Lawful(a) && Inv(a, s) && Enabled(s, act)
    ensures Inv(a, Apply(a, s, act))
  {
    match act {
      case Up(step) => UpKeeps(a, s, step);
      case Down(step) => DownKeeps(a, s, step);
      case CollectLength => CollectKeeps(a, s, act);
      case CollectAddress => CollectKeeps(a, s, act);
      case Refuse => OtherKeeps(a, s, act);
      case Connect => OtherKeeps(a, s, act);
      case ExitSocks => OtherKeeps(a, s, act);
      case ExitRelay => OtherKeeps(a, s, act);
    }
  }

  lemma SameRun(a: Aead, s: State, act: Action)
    requires Enabled(s, act)
    ensures var t := Apply(a, s, act);
            t.addr == s.addr && t.up.supply == s.up.supply && t.down.supply == s.down.supply
  {
  }

  lemma {:induction false} RunInv(a: Aead, states: seq<State>, acts: seq<Action>, i: nat)
    requires Lawful(a) && IsRun(a, states, acts) && i < |states|
    ensures Inv(a, states[i]) && states[i].addr == states[0].addr
    ensures states[i].up.supply == states[0].up.supply && states[i].down.supply == states[0].down.supply
  {
    hide Inv, Enabled, Apply, Init;
    if i == 0 {
      InitInv(a, states[0]);
    } else {
      RunInv(a, states, acts, i - 1);
      StepKeeps(a, states[i - 1], acts[i - 1]);
      SameRun(a, states[i - 1], acts[i - 1]);
    }
  }

  // ---------- safety over whole runs ----------

  /** Whatever the interleaving, the chunking, the losses and the failures: in each direction every byte read is
      accounted for exactly once, in order, and the sink has a prefix of what the source sends. */
  lemma RunConserves(a: Aead, states: seq<State>, acts: seq<Action>, i: nat)
    requires Lawful(a) && IsRun(a, states, acts) && i < |states|
    ensures L.Conserved(states[i].up, 2) && L.Conserved(states[i].down, 0)
    ensures states[i].up.sunk <= states[0].up.supply && states[i].down.sunk <= states[0].down.supply
  {
    hide L.Inv;
    RunInv(a, states, acts, i);
    L.Conservation(a, states[i].up, 2);
    L.Conservation(a, states[i].down, 0);
  }

  /** Whenever the relay has dialled anything, it is the address cut to its length modulo 256: the very address
      exactly when that is 1 to 255 bytes long. No byte reaches the target before that. */
  lemma RunDials(a: Aead, states: seq<State>, acts: seq<Action>, i: nat)
    requires Lawful(a) && IsRun(a, states, acts) && i < |states|
    ensures var s := states[i];
            && (s.dialled.Some? ==> s.addr != [] && s.dialled.value == s.addr[..|s.addr| % 256]
                                    && (s.dialled.value == s.addr <==> |s.addr| <= 255))
            && (s.dialled.None? ==> s.up.sunk == [] && s.down.sunk == [])
  {
    RunInv(a, states, acts, i);
    hide IsRun, Inv;
    Dials(a, states[i]);
  }

  lemma Dials(a: Aead, s: State)
    requires Inv(a, s)
    ensures s.dialled.Some? ==> s.addr != [] && s.dialled.value == s.addr[..|s.addr| % 256]
                                && (s.dialled.value == s.addr <==> |s.addr| <= 255)
    ensures s.dialled.None? ==> s.up.sunk == [] && s.down.sunk == []
  {
    TargetIntact(s.addr);
    hide L.Inv, Overlay, AddressFrames;
    DownIdle(a, s);
  }

  lemma DownIdle(a: Aead, s: State)
    requires Inv(a, s)
    ensures !s.phase.Pumping? ==> s.down.sunk == []
  {
    hide L.Inv, AddressFrames, RelayTarget;
    L.Conservation(a, s.down, 0);
    hide PhaseOk;
  }

  /** A pump that saw io.EOF while its counterpart ended too delivered everything that was read, unless the
      counterpart stopped on a failed write; in both directions. */
  lemma RunEofComplete(a: Aead, states: seq<State>, acts: seq<Action>, i: nat)
    requires Lawful(a) && IsRun(a, states, acts) && i < |states|
    ensures L.EofMeansAll(states[i].up) && L.EofMeansAll(states[i].down)
  {
    hide L.Inv;
    RunInv(a, states, acts, i);
    if states[i].phase.Pumping? {
      L.EofComplete(a, states[i].up, 2);
    }
    L.EofComplete(a, states[i].down, 0);
  }

  /** No pump's write can outgrow the two length bytes of a frame: a chunk it holds can always be begun, behind nothing
      that is still unsent. */
  lemma RunWritesFit(a: Aead, states: seq<State>, acts: seq<Action>, i: nat, nonce: bytes)
    requires Lawful(a) && IsRun(a, states, acts) && i < |states| && |nonce| == NONCE
    ensures var s := states[i];
            && (s.up.sender.Holding? ==> 1 <= |s.up.sender.chunk| <= 1024 && Enabled(s, Up(L.Begin(nonce))))
            && (s.down.sender.Holding? ==> 1 <= |s.down.sender.chunk| <= 1024 && Enabled(s, Down(L.Begin(nonce))))
  {
    RunInv(a, states, acts, i);
    hide IsRun, Channel.Inv, L.Accounts, Chunked;
  }

  // ---------- the end of every run ----------

  function PhaseRank(p: Phase): nat {
    match p
    case AwaitLength => 4
    case AwaitAddress(_, _) => 3
    case Dialling(_) => 2
    case Pumping(_) => 1
    case Refused => 0
  }

  function Measure(s: State): nat {
    L.Measure(s.up) + L.Measure(s.down) + PhaseRank(s.phase)
    + (if s.socksExited then 0 else 1) + (if s.relayExited then 0 else 1)
  }

  lemma StepShrinks(a: Aead, s: State, act: Action)
    requires Lawful(a) && Enabled(s, act)
    ensures Measure(Apply(a, s, act)) < Measure(s)
  {
    hide L.Enabled, L.Apply;
    match act {
      case Up(step) => L.StepShrinks(a, s.up, UpEnds(s), step);
      case Down(step) => L.StepShrinks(a, s.down, DownEnds(s), step);
      case _ =>
    }
  }

  /** No run is longer than the measure of its first state, so every run can be extended to one that ends. */
  lemma {:induction false} RunsEnd(a: Aead, states: seq<State>, acts: seq<Action>, i: nat)
    requires Lawful(a) && IsRun(a, states, acts) && i < |states|
    ensures Measure(states[i]) + i <= Measure(states[0])
  {
    hide Enabled, Apply, Init, Measure;
    if i > 0 {
      RunsEnd(a, states, acts, i - 1);
      StepShrinks(a, states[i - 1], acts[i - 1]);
    }
  }

  // ---------- a tunnel nobody disturbs ----------

  /** Nothing has failed or ended so far. */
  predicate Smooth(s: State) {
    && L.Smooth(s.up) && L.Smooth(s.down)
    && s.phase != Refused && !s.socksExited && !s.relayExited
  }

  predicate AllDelivered(s: State) {
    s.phase.Pumping? && s.up.sunk == s.up.supply && s.down.sunk == s.down.supply
  }

  lemma Collecting(a: Aead, s: State, act: Action)
    requires Inv(a, s) && s.addr != [] && Enabled(s, act) && (act.CollectLength? || act.CollectAddress?)
    ensures s.up.chan.got < 2 <= |s.up.chan.sent| && s.up.chan.sent[s.up.chan.got].body != []
    ensures s.up.receiver.Waiting? && s.up.sunk == [] && Complete(s.up.chan.part)
    ensures act.CollectAddress? ==> |s.phase.buf| == BLOCK_SIZE
  {
    hide L.Inv, Complete, L.SawClose;
    assert s.up.chan.sent[s.up.chan.got] == s.up.chan.sent[..2][s.up.chan.got];
  }

  /** The relay accepts both address frames. */
  lemma CollectGoesOn(a: Aead, s: State, act: Action)
    requires Lawful(a) && Inv(a, s) && Smooth(s) && s.addr != [] && Enabled(s, act)
    requires act.CollectLength? || act.CollectAddress?
    ensures Smooth(Apply(a, s, act))
  {
    hide L.Smooth, RelayTarget, Overlay, Zeros, AddressFrames, PhaseOk, Idle, L.Inv, Complete, Lawful;
    Collecting(a, s, act);
    L.SkipKeeps(a, s.up, 2);
    hide L.Enabled, L.Apply, Channel.Opened, Inv;
    DecodeSmooth(s.up);
  }

  lemma DecodeSmooth(l: L.Lane)
    requires L.Smooth(l) && Complete(l.chan.part)
    ensures L.Smooth(l.(chan := l.chan.Decode()))
  {
  }

  /** While the relay is not pumping yet, it gets nearer to dialling. */
  lemma DiallingGoesOn(a: Aead, s: State) returns (act: Action)
    requires Lawful(a) && Inv(a, s) && Smooth(s) && !s.phase.Pumping? && s.addr != []
    ensures Enabled(s, act) && Smooth(Apply(a, s, act)) && !act.Down?
  {
    hide L.Inv, L.Enabled, L.Apply, L.Smooth, Channel.Opened;
    if s.phase.Dialling? {
      act := Connect;
    } else if Complete(s.up.chan.part) {
      act := if s.phase.AwaitLength? then CollectLength else CollectAddress;
      CollectGoesOn(a, s, act);
    } else {
      var step := UpFlows(a, s);
      act := Up(step);
    }
  }

  lemma UpFlows(a: Aead, s: State) returns (step: L.Step)
    requires Lawful(a) && Inv(a, s) && Smooth(s) && !Complete(s.up.chan.part)
    requires s.phase.AwaitLength? || s.phase.AwaitAddress?
    ensures L.Enabled(s.up, UpEnds(s), step) && L.Smooth(L.Apply(a, s.up, UpEnds(s), step))
  {
    hide L.Inv;
    assert UpEnds(s).writer && UpEnds(s).reader && UpEnds(s).collecting;
    assert s.up.receiver.Waiting? && s.up.chan.got < |s.up.chan.sent|;
    hide Inv, Smooth;
    step := L.Flows(a, s.up, 2, UpEnds(s));
  }

  /** Until everything is delivered, an undisturbed tunnel can go on undisturbed. */
  lemma TunnelGoesOn(a: Aead, s: State) returns (act: Action)
    requires Lawful(a) && Inv(a, s) && Smooth(s) && !AllDelivered(s) && s.addr != []
    ensures Enabled(s, act) && Smooth(Apply(a, s, act))
  {
    if !s.phase.Pumping? {
      act := DiallingGoesOn(a, s);
    } else {
      hide L.Inv, L.Enabled, L.Apply, L.Smooth, AddressFrames, RelayTarget, Lawful;
      PumpingEnds(a, s);
      if s.up.sunk != s.up.supply {
        hide Inv, UpEnds;
        var step := L.GoesOn(a, s.up, 2, UpEnds(s));
        act := Up(step);
      } else {
        hide Inv, DownEnds;
        var step := L.GoesOn(a, s.down, 0, DownEnds(s));
        act := Down(step);
      }
    }
  }

  lemma PumpingEnds(a: Aead, s: State)
    requires Inv(a, s) && Smooth(s) && s.phase.Pumping?
    ensures UpEnds(s) == DownEnds(s) == L.Ends(true, true, true, true, true, true, true)
    ensures L.Inv(a, s.up, 2) && L.Inv(a, s.down, 0) && 2 <= s.up.chan.got
  {
    hide L.Inv, AddressFrames, RelayTarget;
  }

  predicate Path(a: Aead, s: State, acts: seq<Action>, t: State)
    decreases |acts|
  {
    if acts == [] then s == t
    else Enabled(s, acts[0]) && Path(a, Apply(a, s, acts[0]), acts[1..], t)
  }

  /** Whatever has been done so far, an undisturbed tunnel can deliver, within its measure, all that either peer will
      ever send. */
  lemma {:induction false} CanDeliver(a: Aead, s: State) returns (acts: seq<Action>, t: State)
    requires Lawful(a) && Inv(a, s) && Smooth(s) && s.addr != []
    ensures Path(a, s, acts, t) && Inv(a, t) && AllDelivered(t) && |acts| <= Measure(s)
    ensures t.addr == s.addr && t.up.supply == s.up.supply && t.down.supply == s.down.supply
    decreases Measure(s)
  {
    hide Inv, Enabled, Apply, Smooth, AllDelivered, Measure;
    if AllDelivered(s) {
      acts, t := [], s;
    } else {
      var act := TunnelGoesOn(a, s);
      StepKeeps(a, s, act);
      StepShrinks(a, s, act);
      SameRun(a, s, act);
      var rest;
      rest, t := CanDeliver(a, Apply(a, s, act));
      acts := [act] + rest;
      assert acts[1..] == rest;
    }
  }

  /** So from every initial state some run dials what the client asked for and carries both streams whole. */
  lemma Works(a: Aead, s: State) returns (acts: seq<Action>, t: State)
    requires Lawful(a) && Init(a, s) && 1 <= |s.addr| <= 255
    ensures Path(a, s, acts, t) && t.dialled == Some(s.addr)
    ensures t.up.sunk == s.up.supply && t.down.sunk == s.down.supply
  {
    InitInv(a, s);
    assert Smooth(s);
    hide Measure, Path, Init, Inv, Smooth, AllDelivered;
    acts, t := CanDeliver(a, s);
    DeliveredDialled(a, t);
    Dials(a, t);
  }

  lemma DeliveredDialled(a: Aead, s: State)
    requires Inv(a, s) && AllDelivered(s)
    ensures s.dialled.Some? && s.up.sunk == s.up.supply && s.down.sunk == s.down.supply
  {
    hide L.Inv, AddressFrames, RelayTarget;
  }

  // ---------- the close cascade ----------

  predicate RelayPumpsDone(s: State) {
    s.phase == Refused || (s.phase.Pumping? && s.up.receiver.ReceiverDone? && s.down.sender.SenderDone?)
  }

  predicate AllDone(s: State) {
    s.up.sender.SenderDone? && s.down.receiver.ReceiverDone? && RelayPumpsDone(s)
  }

  /** Some pump has stopped, or one of the handlers has returned. */
  predicate SomeDone(s: State) {
    || s.up.sender.SenderDone? || s.down.receiver.ReceiverDone? || s.phase == Refused
    || s.up.receiver.ReceiverDone? || s.down.sender.SenderDone? || s.socksExited || s.relayExited
  }

  /** Steps that do not wait for a peer: a call on an end this side has closed returns, bytes that have arrived are
      read, a close that has arrived is seen, a write goes on or meets its deadline, and so does the relay's
      dialling. Reading from a silent but open client or target is not among them, nor is giving up on it. */
  predicate LaneForced(l: L.Lane, e: L.Ends, step: L.Step) {
    match step
    case Read(_, _) => false
    case StopReading(why) => !e.source
    case StopReceiving(why) => !e.reader || (!e.writer && l.chan.wire == []) || l.chan.cut
    case Cut(_) => false
    case _ => true
  }

  predicate Forced(s: State, act: Action) {
    match act
    case Up(step) => LaneForced(s.up, UpEnds(s), step)
    case Down(step) => LaneForced(s.down, DownEnds(s), step)
    case ExitSocks => s.up.sender.SenderDone? && s.down.receiver.ReceiverDone?
    case ExitRelay => s.up.receiver.ReceiverDone? && s.down.sender.SenderDone?
    case _ => true
  }

  /** A filling pump whose source end is closed on its own side has a forced step. */
  lemma SenderMoves(a: Aead, l: L.Lane, pre: nat, e: L.Ends) returns (step: L.Step)
    requires L.Inv(a, l, pre) && e.filling && !l.sender.SenderDone?
    requires l.sender.Reading? ==> !e.source
    ensures L.Enabled(l, e, step) && LaneForced(l, e, step)
  {
    match l.sender {
      case Reading => step := L.StopReading(ReadFailed);
      case Holding(_, _) => step := L.GiveUp;
      case Writing(_) => step := L.FailWrite;
    }
  }

  /** A draining pump has a forced step when its link end is closed on either side: it first drains what has
      arrived, then sees the close. */
  lemma ReceiverMoves(a: Aead, l: L.Lane, pre: nat, e: L.Ends) returns (step: L.Step)
    requires L.Inv(a, l, pre) && e.draining && e.collecting && !l.receiver.ReceiverDone?
    requires l.receiver.Waiting? ==> !e.reader || !e.writer
    ensures L.Enabled(l, e, step) && LaneForced(l, e, step)
  {
    if l.receiver.Delivering? {
      step := L.FailDeliver(0);
    } else if !e.reader {
      step := L.StopReceiving(ReadFailed);
    } else if Complete(l.chan.part) {
      step := L.Decode;
    } else if l.chan.wire != [] {
      step := L.Pull(1);
    } else {
      step := L.StopReceiving(ReadFailed);
    }
  }

  /** The close cascade: as long as one pump has stopped and another has not, some step that waits for nobody is
      enabled. With RunsEnd, a run in which one pump stops and forced steps are taken ends with all four stopped. */
  lemma NoStuckPump(a: Aead, s: State) returns (act: Action)
    requires Inv(a, s) && SomeDone(s) && !AllDone(s)
    ensures Enabled(s, act) && Forced(s, act)
  {
    hide L.Inv, L.Enabled, LaneForced, AddressFrames, RelayTarget;
    var step;
    if !s.phase.Pumping? && s.phase != Refused {
      act := Refuse;
    } else if !s.up.sender.SenderDone? && (!ClientOpen(s) || !s.up.sender.Reading?) {
      step := SenderMoves(a, s.up, 2, UpEnds(s));
      act := Up(step);
    } else if !s.down.receiver.ReceiverDone? && (!SocksLinkOpen(s) || !RelayLinkOpen(s)) {
      step := ReceiverMoves(a, s.down, 0, DownEnds(s));
      act := Down(step);
    } else if s.phase.Pumping? && !s.up.receiver.ReceiverDone? && (!RelayLinkOpen(s) || !SocksLinkOpen(s)) {
      step := ReceiverMoves(a, s.up, 2, UpEnds(s));
      act := Up(step);
    } else {
      step := SenderMoves(a, s.down, 0, DownEnds(s));
      act := Down(step);
    }
  }

  /** A way from one state to another by forced steps alone. */
  predicate ForcedPath(a: Aead, s: State, acts: seq<Action>, t: State)
    decreases |acts|
  {
    if acts == [] then s == t
    else Enabled(s, acts[0]) && Forced(s, acts[0]) && ForcedPath(a, Apply(a, s, acts[0]), acts[1..], t)
  }

  lemma SomeDoneStays(a: Aead, s: State, act: Action)
    requires Enabled(s, act) && SomeDone(s)
    ensures SomeDone(Apply(a, s, act))
  {
    hide L.Enabled, L.Apply;
    match act {
      case Up(step) => L.StepFrame(a, s.up, UpEnds(s), step);
      case Down(step) => L.StepFrame(a, s.down, DownEnds(s), step);
      case _ =>
    }
  }

  /** Once one pump has stopped, its close and the closes it sets off stop the other three, without any peer doing
      anything: some sequence of forced steps, no longer than the measure, ends with all four stopped. */
  lemma {:induction false} Cascade(a: Aead, s: State) returns (acts: seq<Action>, t: State)
    requires Lawful(a) && Inv(a, s) && SomeDone(s)
    ensures ForcedPath(a, s, acts, t) && AllDone(t) && |acts| <= Measure(s)
    decreases Measure(s)
  {
    hide Inv, Enabled, Apply, SomeDone, AllDone, Measure, Forced;
    if AllDone(s) {
      acts, t := [], s;
    } else {
      var act := NoStuckPump(a, s);
      StepKeeps(a, s, act);
      StepShrinks(a, s, act);
      SomeDoneStays(a, s, act);
      var rest;
      rest, t := Cascade(a, Apply(a, s, act));
      acts := [act] + rest;
      assert acts[1..] == rest;
    }
  }

  /** A run that can only be continued by waiting for a peer has either stopped entirely or not begun to stop. */
  lemma RunSettles(a: Aead, states: seq<State>, acts: seq<Action>)
    requires Lawful(a) && IsRun(a, states, acts)
    requires forall act :: Enabled(states[|acts|], act) ==> !Forced(states[|acts|], act)
    ensures |acts| <= Measure(states[0])
    ensures AllDone(states[|acts|]) <==> SomeDone(states[|acts|])
  {
    RunsEnd(a, states, acts, |acts|);
    RunInv(a, states, acts, |acts|);
    var s := states[|acts|];
    if SomeDone(s) && !AllDone(s) {
      var act := NoStuckPump(a, s);
    }
  }

  // ---------- what one side's end costs the other ----------

  datatype Way = Upward | Downward

  function Opposite(w: Way): Way {
    if w == Upward then Downward else Upward
  }

  function LaneOf(s: State, w: Way): L.Lane {
    if w == Upward then s.up else s.down
  }

  function EndsOf(s: State, w: Way): L.Ends {
    if w == Upward then UpEnds(s) else DownEnds(s)
  }

  function Do(w: Way, step: L.Step): Action {
    if w == Upward then Up(step) else Down(step)
  }

  /** The frames in front of a direction's chunks. */
  function Front(w: Way): nat {
    if w == Upward then 2 else 0
  }

  /** The pump that fills the opposite direction has stopped, and with its Close the link is gone for this one's
      draining pump: for Downward the client is done, for Upward the target. */
  predicate Ended(s: State, w: Way) {
    LaneOf(s, Opposite(w)).sender.SenderDone?
  }

  function LastOf(a: Aead, s: State, w: Way): bytes {
    L.LastWords(a, LaneOf(s, w), EndsOf(s, w).sink)
  }

  lemma EndedFacts(a: Aead, s: State, w: Way)
    requires Inv(a, s) && Ended(s, w)
    ensures !EndsOf(s, w).reader && EndsOf(s, w).draining && L.Inv(a, LaneOf(s, w), Front(w))
    ensures Front(w) <= LaneOf(s, w).chan.got && (w == Upward ==> s.phase.Pumping?)
  {
    hide L.Inv, AddressFrames, RelayTarget;
  }

  lemma LastOfShrinks(a: Aead, s: State, w: Way, act: Action)
    requires Lawful(a) && Inv(a, s) && Ended(s, w) && Enabled(s, act)
    ensures Ended(Apply(a, s, act), w) && LastOf(a, Apply(a, s, act), w) <= LastOf(a, s, w)
  {
    EndedFacts(a, s, w);
    hide Enabled, Apply, Lawful, Inv, LastOf, Ended;
    match act {
      case Up(step) => UpShrinks(a, s, w, step);
      case Down(step) => DownShrinks(a, s, w, step);
      case _ => OtherShrinks(a, s, w, act);
    }
  }

  lemma OtherShrinks(a: Aead, s: State, w: Way, act: Action)
    requires Ended(s, w) && Enabled(s, act) && !act.Up? && !act.Down? && (w == Upward ==> s.phase.Pumping?)
    ensures Ended(Apply(a, s, act), w) && LastOf(a, Apply(a, s, act), w) <= LastOf(a, s, w)
  {
    var t := Apply(a, s, act);
    hide L.LastWords, Overlay, Complete, Channel.Opened;
    L.ClosingShrinks(a, LaneOf(s, w));
    if act.CollectLength? || act.CollectAddress? {
      assert w == Downward && t.down == s.down;
    }
  }

  lemma UpShrinks(a: Aead, s: State, w: Way, step: L.Step)
    requires L.Inv(a, LaneOf(s, w), Front(w)) && Ended(s, w) && Enabled(s, Up(step)) && !EndsOf(s, w).reader
    ensures var t := Apply(a, s, Up(step)); Ended(t, w) && LastOf(a, t, w) <= LastOf(a, s, w)
  {
    L.StepFrame(a, s.up, UpEnds(s), step);
    if w == Upward {
      L.LastWordsOnly(a, s.up, UpEnds(s), step);
    }
    hide L.Inv, L.Enabled, L.Apply, L.LastWords;
    L.SinkOfDone(a, Apply(a, s, Up(step)).up);
  }

  lemma DownShrinks(a: Aead, s: State, w: Way, step: L.Step)
    requires L.Inv(a, LaneOf(s, w), Front(w)) && Ended(s, w) && Enabled(s, Down(step)) && !EndsOf(s, w).reader
    ensures var t := Apply(a, s, Down(step)); Ended(t, w) && LastOf(a, t, w) <= LastOf(a, s, w)
  {
    L.StepFrame(a, s.down, DownEnds(s), step);
    if w == Downward {
      L.LastWordsOnly(a, s.down, DownEnds(s), step);
    }
    hide L.Inv, L.Enabled, L.Apply, L.LastWords;
    L.SinkOfDone(a, Apply(a, s, Down(step)).down);
  }

  lemma {:induction false} PathAfterEnd(a: Aead, s: State, w: Way, acts: seq<Action>, t: State)
    requires Lawful(a) && Inv(a, s) && Ended(s, w) && Path(a, s, acts, t)
    ensures Inv(a, t) && Ended(t, w) && LastOf(a, t, w) <= LastOf(a, s, w)
    ensures LaneOf(t, w).supply == LaneOf(s, w).supply
    decreases |acts|
  {
    hide Inv, Enabled, Apply, LastOf, Ended;
    if acts != [] {
      var next := Apply(a, s, acts[0]);
      StepKeeps(a, s, acts[0]);
      SameRun(a, s, acts[0]);
      LastOfShrinks(a, s, w, acts[0]);
      PathAfterEnd(a, next, w, acts[1..], t);
    }
  }

  lemma {:induction false} ReachesLast(a: Aead, s: State, w: Way) returns (acts: seq<Action>, t: State)
    requires Lawful(a) && Inv(a, s) && Ended(s, w)
    ensures Path(a, s, acts, t) && LaneOf(t, w).sunk == LastOf(a, s, w)
    ensures LaneOf(t, w).supply == LaneOf(s, w).supply
    decreases Measure(s)
  {
    if LaneOf(s, w).sunk == LastOf(a, s, w) {
      acts, t := [], s;
    } else {
      EndedFacts(a, s, w);
      var act := WordOn(a, s, w);
      var next := Apply(a, s, act);
      hide Inv, Enabled, Apply, Measure, LastOf;
      StepKeeps(a, s, act);
      StepShrinks(a, s, act);
      SameRun(a, s, act);
      var rest;
      rest, t := ReachesLast(a, next, w);
      acts := [act] + rest;
      assert acts[1..] == rest;
    }
  }

  lemma WordOn(a: Aead, s: State, w: Way) returns (act: Action)
    requires Lawful(a) && Inv(a, s) && Ended(s, w) && LaneOf(s, w).sunk != LastOf(a, s, w)
    ensures Enabled(s, act) && Ended(Apply(a, s, act), w) && LastOf(a, Apply(a, s, act), w) == LastOf(a, s, w)
  {
    hide L.Enabled, L.Apply, L.Inv, Inv, Lawful, Ended, LaneOf, EndsOf, Enabled, Apply, L.LastWords;
    EndedFacts(a, s, w);
    var l, e := LaneOf(s, w), EndsOf(s, w);
    var step := L.NextWord(a, l, Front(w), e);
    act := Do(w, step);
    L.StepFrame(a, l, e, step);
    DoneIn(a, s, w, step);
  }

  /** A step of one direction, seen from the whole. */
  lemma DoneIn(a: Aead, s: State, w: Way, step: L.Step)
    requires L.Enabled(LaneOf(s, w), EndsOf(s, w), step)
    ensures Enabled(s, Do(w, step))
    ensures var m := L.Apply(a, LaneOf(s, w), EndsOf(s, w), step);
            var t := Apply(a, s, Do(w, step));
            && LaneOf(t, w) == m && (Ended(s, w) ==> Ended(t, w))
            && (!LaneOf(s, w).receiver.ReceiverDone? && !m.receiver.ReceiverDone? ==>
                  EndsOf(t, w).sink == EndsOf(s, w).sink)
  {
    hide L.Enabled, L.Apply;
  }

  lemma SunkSoFar(a: Aead, s: State, w: Way)
    requires Lawful(a) && Inv(a, s) && Ended(s, w)
    ensures LaneOf(s, w).sunk <= LastOf(a, s, w) <= LaneOf(s, w).supply
    ensures LastOf(a, s, w) == LaneOf(s, w).supply <==> L.Arrives(a, LaneOf(s, w), EndsOf(s, w).sink)
  {
    EndedFacts(a, s, w);
    hide Inv, Ended, L.Inv, L.Arrives, L.LastWords;
    L.LastWordsWithin(a, LaneOf(s, w), Front(w), EndsOf(s, w).sink);
  }

  /** Some way on from here makes this the content of the sink. */
  ghost predicate CanGet(a: Aead, s: State, w: Way, content: bytes) {
    exists acts, t :: Path(a, s, acts, t) && LaneOf(t, w).sunk == content
  }

  lemma GetsAtMost(a: Aead, s: State, w: Way, content: bytes)
    requires Lawful(a) && Inv(a, s) && Ended(s, w) && CanGet(a, s, w, content)
    ensures content <= LastOf(a, s, w)
  {
    var acts, t :| Path(a, s, acts, t) && LaneOf(t, w).sunk == content;
    hide Inv, Ended, LastOf;
    PathAfterEnd(a, s, w, acts, t);
    SunkSoFar(a, t, w);
  }

  lemma GetsLast(a: Aead, s: State, w: Way)
    requires Lawful(a) && Inv(a, s) && Ended(s, w)
    ensures CanGet(a, s, w, LastOf(a, s, w))
  {
    var acts, t := ReachesLast(a, s, w);
  }

  /** In every run, once the pump that reads the client has stopped (Downward), the client can still get the whole reply
      exactly if it has it already, or its end is open and what it lacks is just the one payload that the other pump
      holds or has collected whole; what it gets is at most that payload more, and that it can get. Everything else is
      lost, however much was sent. Upward says the same of the target, once the pump that reads the target has stopped,
      and the client's upload. */
  lemma RunAfterEnd(a: Aead, states: seq<State>, acts: seq<Action>, i: nat, w: Way)
    requires Lawful(a) && IsRun(a, states, acts) && i < |states| && Ended(states[i], w)
    ensures var s := states[i];
            var l := LaneOf(s, w);
            && (CanGet(a, s, w, l.supply) <==> L.Arrives(a, l, EndsOf(s, w).sink))
            && (forall content :: CanGet(a, s, w, content) ==> content <= LastOf(a, s, w))
            && CanGet(a, s, w, LastOf(a, s, w))
            && (l.receiver.Delivering? ==> l.chan.part == [])
  {
    RunInv(a, states, acts, i);
    hide IsRun;
    AfterEnd(a, states[i], w);
  }

  lemma AfterEnd(a: Aead, s: State, w: Way)
    requires Lawful(a) && Inv(a, s) && Ended(s, w)
    ensures var l := LaneOf(s, w);
            && (CanGet(a, s, w, l.supply) <==> L.Arrives(a, l, EndsOf(s, w).sink))
            && (forall content :: CanGet(a, s, w, content) ==> content <= LastOf(a, s, w))
            && CanGet(a, s, w, LastOf(a, s, w))
            && (l.receiver.Delivering? ==> l.chan.part == [])
  {
    EndedFacts(a, s, w);
    hide Inv, Ended, L.Inv, L.Arrives, LastOf, CanGet;
    if LaneOf(s, w).receiver.Delivering? {
      L.PartEmpty(a, LaneOf(s, w), Front(w));
    }
    SunkSoFar(a, s, w);
    GetsLast(a, s, w);
    forall content | CanGet(a, s, w, content)
      ensures content <= LastOf(a, s, w)
    {
      GetsAtMost(a, s, w, content);
    }
  }

  // ---------- and that the loss does happen ----------

  /** Nobody has taken a chunk of this direction off the link yet. */
  predicate Untouched(s: State, w: Way) {
    var l := LaneOf(s, w);
    && l.receiver.Waiting? && l.sunk == []
    && (w == Downward || s.phase.Pumping? || s.phase.Dialling? ==> l.chan.part == [])
  }

  /** The opposite direction has delivered everything, and everything of this one is on the link. */
  predicate Poised(s: State, w: Way) {
    && s.phase.Pumping? && LaneOf(s, Opposite(w)).sunk == LaneOf(s, Opposite(w)).supply
    && L.Filled(s.up) && L.Filled(s.down)
  }

  lemma DiallingStaysUntouched(a: Aead, s: State, w: Way, act: Action)
    requires Inv(a, s) && Untouched(s, w) && Enabled(s, act) && !s.phase.Pumping? && !act.Down?
    requires Smooth(s) && Smooth(Apply(a, s, act))
    ensures Untouched(Apply(a, s, act), w)
  {
    hide L.Inv, AddressFrames, RelayTarget, Overlay, Complete, Channel.Opened, BE16;
  }

  lemma PoiseOn(a: Aead, s: State, w: Way) returns (act: Action)
    requires Lawful(a) && Inv(a, s) && Smooth(s) && Untouched(s, w) && !Poised(s, w) && s.addr != []
    ensures Enabled(s, act) && Smooth(Apply(a, s, act)) && Untouched(Apply(a, s, act), w)
  {
    hide Smooth, Enabled, Apply, Inv, Untouched;
    if !s.phase.Pumping? {
      act := DiallingGoesOn(a, s);
      DiallingStaysUntouched(a, s, w, act);
    } else {
      act := PumpingPoises(a, s, w);
    }
  }

  lemma PumpingPoises(a: Aead, s: State, w: Way) returns (act: Action)
    requires Lawful(a) && Inv(a, s) && Smooth(s) && Untouched(s, w) && !Poised(s, w) && s.phase.Pumping?
    ensures Enabled(s, act) && Smooth(Apply(a, s, act)) && Untouched(Apply(a, s, act), w)
  {
    var o := Opposite(w);
    PumpingEnds(a, s);
    BothSmooth(s, w);
    var other, own := LaneOf(s, o), LaneOf(s, w);
    assert L.Inv(a, other, Front(o)) && L.Inv(a, own, Front(w)) && Front(o) <= other.chan.got;
    assert EndsOf(s, o) == EndsOf(s, w) == L.Ends(true, true, true, true, true, true, true);
    assert other.sunk != other.supply || !L.Filled(other) || !L.Filled(own);
    hide L.Inv, L.Enabled, L.Apply, L.Smooth, L.Filled, Inv, Lawful, Smooth, Untouched, Poised, Enabled, Apply;
    hide LaneOf, EndsOf;
    var step;
    if other.sunk != other.supply {
      step := L.GoesOn(a, other, Front(o), EndsOf(s, o));
      act := Do(o, step);
      Doable(s, o, step);
      OtherStays(a, s, w, step);
    } else if !L.Filled(other) {
      step := L.FillsOn(a, other, Front(o), EndsOf(s, o));
      act := Do(o, step);
      Doable(s, o, step);
      OtherStays(a, s, w, step);
    } else {
      step := L.FillsOn(a, own, Front(w), EndsOf(s, w));
      act := Do(w, step);
      Doable(s, w, step);
      FillingStays(a, s, w, step);
    }
  }

  lemma Doable(s: State, w: Way, step: L.Step)
    requires L.Enabled(LaneOf(s, w), EndsOf(s, w), step)
    ensures Enabled(s, Do(w, step))
  {
    hide L.Enabled;
  }

  lemma BothSmooth(s: State, w: Way)
    requires Smooth(s)
    ensures L.Smooth(LaneOf(s, w)) && L.Smooth(LaneOf(s, Opposite(w)))
  {
    hide L.Smooth;
  }

  lemma OtherStays(a: Aead, s: State, w: Way, step: L.Step)
    requires Smooth(s) && Untouched(s, w) && s.phase.Pumping? && Enabled(s, Do(Opposite(w), step))
    requires L.Smooth(L.Apply(a, LaneOf(s, Opposite(w)), EndsOf(s, Opposite(w)), step))
    ensures var t := Apply(a, s, Do(Opposite(w), step)); Smooth(t) && Untouched(t, w)
  {
    hide L.Smooth, L.Enabled, L.Apply;
  }

  lemma FillingStays(a: Aead, s: State, w: Way, step: L.Step)
    requires Smooth(s) && Untouched(s, w) && s.phase.Pumping? && Enabled(s, Do(w, step))
    requires var m := L.Apply(a, LaneOf(s, w), EndsOf(s, w), step);
             L.Smooth(m) && L.SameSinkSide(LaneOf(s, w), m)
    ensures var t := Apply(a, s, Do(w, step)); Smooth(t) && Untouched(t, w)
  {
    hide L.Smooth, L.Enabled, L.Apply;
  }

  lemma {:induction false} CanPoise(a: Aead, s: State, w: Way) returns (acts: seq<Action>, t: State)
    requires Lawful(a) && Inv(a, s) && Smooth(s) && Untouched(s, w) && s.addr != []
    ensures Path(a, s, acts, t) && Inv(a, t) && Smooth(t) && Untouched(t, w) && Poised(t, w)
    ensures t.addr == s.addr && t.up.supply == s.up.supply && t.down.supply == s.down.supply
    decreases Measure(s)
  {
    hide Inv, Enabled, Apply, Smooth, Untouched, Poised, Measure;
    if Poised(s, w) {
      acts, t := [], s;
    } else {
      var act := PoiseOn(a, s, w);
      StepKeeps(a, s, act);
      StepShrinks(a, s, act);
      SameRun(a, s, act);
      var rest;
      rest, t := CanPoise(a, Apply(a, s, act), w);
      acts := [act] + rest;
      assert acts[1..] == rest;
    }
  }

  lemma {:induction false} PathThen(a: Aead, s: State, acts: seq<Action>, t: State, more: seq<Action>, u: State)
    requires Path(a, s, acts, t) && Path(a, t, more, u)
    ensures Path(a, s, acts + more, u)
    decreases |acts|
  {
    hide Enabled, Apply;
    if acts == [] {
      assert acts + more == more;
    } else {
      PathThen(a, Apply(a, s, acts[0]), acts[1..], t, more, u);
      assert (acts + more)[1..] == acts[1..] + more;
    }
  }

  lemma {:induction false} ForcedIsPath(a: Aead, s: State, acts: seq<Action>, t: State)
    requires ForcedPath(a, s, acts, t)
    ensures Path(a, s, acts, t)
    decreases |acts|
  {
    hide Enabled, Apply, Forced;
    if acts != [] {
      ForcedIsPath(a, Apply(a, s, acts[0]), acts[1..], t);
    }
  }

  /** What no step takes back. */
  predicate Grows(s: State, t: State, w: Way) {
    var l, m := LaneOf(s, w), LaneOf(t, w);
    && l.sunk <= m.sunk && l.taken <= m.taken && m.supply == l.supply && t.addr == s.addr
    && (l.sender.SenderDone? ==> m.sender == l.sender) && (s.dialled.Some? ==> t.dialled.Some?)
  }

  lemma {:induction false} PathGrows(a: Aead, s: State, acts: seq<Action>, t: State, w: Way)
    requires Path(a, s, acts, t)
    ensures Grows(s, t, w)
    decreases |acts|
  {
    hide Enabled, Apply;
    if acts != [] {
      StepGrows(a, s, acts[0], w);
      PathGrows(a, Apply(a, s, acts[0]), acts[1..], t, w);
    }
  }

  lemma StepGrows(a: Aead, s: State, act: Action, w: Way)
    requires Enabled(s, act)
    ensures Grows(s, Apply(a, s, act), w)
  {
    hide L.Enabled, L.Apply, Overlay, Complete;
    match act {
      case Up(step) => L.StepFrame(a, s.up, UpEnds(s), step);
      case Down(step) => L.StepFrame(a, s.down, DownEnds(s), step);
      case _ =>
    }
  }

  /** A path from an initial state is a run. */
  lemma {:induction false} Trace(a: Aead, s: State, acts: seq<Action>, t: State) returns (states: seq<State>)
    requires Path(a, s, acts, t)
    ensures |states| == |acts| + 1 && states[0] == s && states[|acts|] == t
    ensures Init(a, s) ==> IsRun(a, states, acts)
    ensures forall i :: 0 <= i < |acts| ==> Enabled(states[i], acts[i]) && states[i + 1] == Apply(a, states[i], acts[i])
    decreases |acts|
  {
    hide Enabled, Apply, Init;
    if acts == [] {
      states := [s];
    } else {
      var rest := Trace(a, Apply(a, s, acts[0]), acts[1..], t);
      states := [s] + rest;
      forall i | 0 <= i < |acts|
        ensures Enabled(states[i], acts[i]) && states[i + 1] == Apply(a, states[i], acts[i])
      {
        if i > 0 {
          assert states[i] == rest[i - 1] && acts[i] == acts[1..][i - 1] && states[i + 1] == rest[i];
        }
      }
    }
  }

  lemma WorkingRun(a: Aead, s: State) returns (states: seq<State>, acts: seq<Action>)
    requires Lawful(a) && Init(a, s) && 1 <= |s.addr| <= 255
    ensures IsRun(a, states, acts) && states[0] == s && states[|acts|].dialled == Some(s.addr)
    ensures states[|acts|].up.sunk == s.up.supply && states[|acts|].down.sunk == s.down.supply
  {
    hide Init, Path;
    var t;
    acts, t := Works(a, s);
    states := Trace(a, s, acts, t);
  }

  /** The pump that fills the opposite direction sees its source's end of file. */
  lemma EndOfFile(a: Aead, s: State, w: Way) returns (t: State)
    requires Lawful(a) && Inv(a, s) && Smooth(s) && Untouched(s, w) && Poised(s, w)
    ensures Path(a, s, [Do(Opposite(w), L.StopReading(SawEof))], t) && Inv(a, t) && SomeDone(t)
    ensures LaneOf(t, Opposite(w)).sender == L.SenderDone(SawEof, []) && Ended(t, w) && LastOf(a, t, w) == []
  {
    var act := Do(Opposite(w), L.StopReading(SawEof));
    hide Enabled, Apply, Inv, Smooth, Untouched, Poised, SomeDone, LastOf, LaneOf, Do, Ended;
    EofApplies(a, s, w);
    t := Apply(a, s, act);
    StepKeeps(a, s, act);
    EofFacts(a, s, w, t);
    assert [act][1..] == [];
    assert Path(a, t, [], t);
  }

  lemma EofApplies(a: Aead, s: State, w: Way)
    requires Inv(a, s) && Smooth(s) && Poised(s, w)
    ensures var act := Do(Opposite(w), L.StopReading(SawEof));
            && Enabled(s, act)
            && LaneOf(Apply(a, s, act), w) == LaneOf(s, w) && Apply(a, s, act).phase == s.phase
            && LaneOf(Apply(a, s, act), Opposite(w)).sender == L.SenderDone(SawEof, [])
  {
    PumpingEnds(a, s);
    var o := Opposite(w);
    hide L.Inv, L.Enabled, L.Apply, Inv, Lawful, UpEnds, DownEnds, Smooth;
    L.StopsAtEof(a, LaneOf(s, o), EndsOf(s, o));
  }

  lemma EofFacts(a: Aead, s: State, w: Way, t: State)
    requires Untouched(s, w) && Poised(s, w) && LaneOf(t, w) == LaneOf(s, w) && t.phase == s.phase
    requires LaneOf(t, Opposite(w)).sender == L.SenderDone(SawEof, [])
    ensures SomeDone(t) && Ended(t, w) && LastOf(a, t, w) == []
  {
    hide UpEnds, DownEnds;
    assert w == Upward ==> LaneOf(t, w).chan.part == [];
    assert w == Downward ==> LaneOf(t, w).chan.part == [];
  }

  /** With the opposite direction ended and nothing in hand, nothing more comes. */
  lemma NothingComes(a: Aead, s: State, w: Way, acts: seq<Action>, t: State)
    requires Lawful(a) && Inv(a, s) && Ended(s, w) && LastOf(a, s, w) == [] && Path(a, s, acts, t)
    ensures LaneOf(t, w).sunk == [] && Inv(a, t)
  {
    hide Inv, Ended, LastOf, LaneOf;
    PathAfterEnd(a, s, w, acts, t);
    SunkSoFar(a, t, w);
  }

  lemma PoisedFacts(a: Aead, s: State, w: Way)
    requires Inv(a, s) && Poised(s, w)
    ensures s.dialled.Some? && LaneOf(s, w).taken == |LaneOf(s, w).supply|
    ensures LaneOf(s, Opposite(w)).sunk == LaneOf(s, Opposite(w)).supply
  {
    hide L.Inv, AddressFrames, RelayTarget;
  }

  /** What is all there stays all there. */
  lemma FullStays(a: Aead, s: State, t: State, w: Way)
    requires Lawful(a) && Inv(a, t) && Grows(s, t, w)
    ensures LaneOf(s, w).sunk == LaneOf(s, w).supply ==> LaneOf(t, w).sunk == LaneOf(s, w).supply
    ensures LaneOf(s, w).taken == |LaneOf(s, w).supply| ==> LaneOf(t, w).taken == |LaneOf(s, w).supply|
  {
    L.Conservation(a, LaneOf(t, w), Front(w));
    hide Inv, L.Inv;
  }

  lemma InitIsSmooth(a: Aead, s: State, w: Way)
    requires Init(a, s)
    ensures Smooth(s) && Untouched(s, w)
  {
    hide Frames.Encode;
  }

  /** From every initial state with a usable address some run loses everything in one direction: the peer at the start
      of the opposite direction has all it sent delivered and then ends, as it may; everything in this direction has
      been read from its source; and yet, when all four pumps have stopped, its sink has not got a byte of it. */
  lemma EndLoses(a: Aead, s: State, w: Way) returns (states: seq<State>, acts: seq<Action>)
    requires Lawful(a) && Init(a, s) && 1 <= |s.addr| <= 255
    ensures IsRun(a, states, acts) && states[0] == s
    ensures var t := states[|acts|];
            && t.dialled == Some(s.addr) && AllDone(t)
            && LaneOf(t, Opposite(w)).sender == L.SenderDone(SawEof, [])
            && LaneOf(t, Opposite(w)).sunk == LaneOf(s, Opposite(w)).supply
            && LaneOf(t, w).taken == |LaneOf(s, w).supply| && LaneOf(t, w).sunk == []
  {
    var t;
    acts, t := LosingPath(a, s, w);
    states := Trace(a, s, acts, t);
    hide Init, Path;
    RunDials(a, states, acts, |acts|);
  }

  lemma LosingPath(a: Aead, s: State, w: Way) returns (acts: seq<Action>, t: State)
    requires Lawful(a) && Init(a, s) && s.addr != []
    ensures Path(a, s, acts, t) && t.dialled.Some? && t.addr == s.addr && AllDone(t)
    ensures LaneOf(t, Opposite(w)).sender == L.SenderDone(SawEof, [])
    ensures LaneOf(t, Opposite(w)).sunk == LaneOf(s, Opposite(w)).supply
    ensures LaneOf(t, w).taken == |LaneOf(s, w).supply| && LaneOf(t, w).sunk == []
  {
    var o := Opposite(w);
    InitInv(a, s);
    InitIsSmooth(a, s, w);
    hide Inv, Enabled, Apply, Smooth, Untouched, Measure, SomeDone, AllDone, Ended, LastOf, Init, Path, ForcedPath;
    hide Poised, Lawful;
    var poising, t1 := CanPoise(a, s, w);
    PoisedFacts(a, t1, w);
    var t2 := EndOfFile(a, t1, w);
    var eof := [Do(o, L.StopReading(SawEof))];
    var cascade;
    cascade, t := Cascade(a, t2);
    ForcedIsPath(a, t2, cascade, t);
    NothingComes(a, t2, w, cascade, t);
    PathThen(a, t1, eof, t2, cascade, t);
    PathGrows(a, t1, eof + cascade, t, w);
    PathGrows(a, t1, eof + cascade, t, o);
    PathGrows(a, t2, cascade, t, o);
    FullStays(a, t1, t, w);
    FullStays(a, t1, t, o);
    PathThen(a, s, poising, t1, eof + cascade, t);
    acts := poising + (eof + cascade);
  }

  /** The relay can get to its pumps without anything moving the other way. */
  lemma {:induction false} CanDial(a: Aead, s: State) returns (acts: seq<Action>, t: State)
    requires Lawful(a) && Inv(a, s) && Smooth(s) && s.addr != []
    ensures Path(a, s, acts, t) && Inv(a, t) && Smooth(t) && t.phase.Pumping? && t.down == s.down && t.addr == s.addr
    decreases Measure(s)
  {
    hide Inv, Enabled, Apply, Smooth, Measure;
    if s.phase.Pumping? {
      acts, t := [], s;
    } else {
      var act := DiallingGoesOn(a, s);
      StepKeeps(a, s, act);
      StepShrinks(a, s, act);
      SameRun(a, s, act);
      DownSame(a, s, act);
      var rest;
      rest, t := CanDial(a, Apply(a, s, act));
      acts := [act] + rest;
      assert acts[1..] == rest;
    }
  }

  lemma DownSame(a: Aead, s: State, act: Action)
    requires Enabled(s, act) && !act.Down?
    ensures Apply(a, s, act).down == s.down
  {
    hide L.Enabled, L.Apply, Overlay, Complete, Channel.Opened;
  }

  lemma DownStep(a: Aead, s: State, step: L.Step)
    requires L.Enabled(s.down, DownEnds(s), step)
    ensures Enabled(s, Down(step)) && Apply(a, s, Down(step)) == s.(down := L.Apply(a, s.down, DownEnds(s), step))
  {
    hide L.Enabled, L.Apply;
  }

  /** A path of the down direction on which no pump stops is one of the tunnel. */
  lemma {:induction false} DownPath(a: Aead, s: State, steps: seq<L.Step>, m: L.Lane) returns (acts: seq<Action>)
    requires L.LanePath(a, s.down, DownEnds(s), steps, m)
    requires !m.sender.SenderDone? && !m.receiver.ReceiverDone?
    ensures Path(a, s, acts, s.(down := m))
    decreases |steps|
  {
    if steps == [] {
      acts := [];
    } else {
      L.PathRuns(a, s.down, DownEnds(s), steps, m);
      DownStep(a, s, steps[0]);
      var next := Apply(a, s, Down(steps[0]));
      L.PathRuns(a, next.down, DownEnds(s), steps[1..], m);
      assert DownEnds(next) == DownEnds(s);
      hide L.Enabled, L.Apply, Apply, Enabled, L.LanePath;
      var rest := DownPath(a, next, steps[1..], m);
      acts := [Down(steps[0])] + rest;
      assert acts[1..] == rest;
    }
  }

  /** The one gap in RunEofComplete does occur: from every initial state with a usable address and a target that sends
      anything, some run in which the draining pump is told io.EOF behind a nonce, the filling pump has stopped on a
      failed write, and a byte it read is missing at the client. */
  lemma EofWithoutAll(a: Aead, s: State) returns (states: seq<State>, acts: seq<Action>)
    requires Lawful(a) && Init(a, s) && s.addr != [] && s.down.supply != []
    ensures IsRun(a, states, acts) && states[0] == s
    ensures var l := states[|acts|].down;
            && L.SawClose(l) && |l.chan.part| == NONCE && l.sender == L.SenderDone(WriteFailed, [])
            && l.taken == 1 && l.sunk == [] && l.supply == s.down.supply && l.sunk != l.supply[..l.taken]
  {
    InitInv(a, s);
    InitIsSmooth(a, s, Downward);
    var idle := L.Lane(s.down.supply, 0, L.Reading, Channel([], 0, [], [], [], false), L.Waiting, []);
    assert s.down == idle;
    hide Inv, Smooth, Init, Untouched, Path;
    var dialling, t0 := CanDial(a, s);
    PumpingEnds(a, t0);
    var m, steps := L.WritesNonce(a, t0.down, DownEnds(t0));
    var writing := DownPath(a, t0, steps, m);
    var t1 := t0.(down := m);
    var failing, t4 := FailsBehindNonce(a, t0, t1);
    PathThen(a, t0, writing, t1, failing, t4);
    PathThen(a, s, dialling, t0, writing + failing, t4);
    acts := dialling + (writing + failing);
    states := Trace(a, s, acts, t4);
  }

  lemma FailsBehindNonce(a: Aead, t0: State, t1: State) returns (acts: seq<Action>, t: State)
    requires t1 == t0.(down := t1.down) && t0.phase.Pumping?
    requires DownEnds(t0) == L.Ends(true, true, true, true, true, true, true) && Smooth(t0)
    requires t1.down.sender.Writing? && t1.down.receiver.Waiting? && |t1.down.chan.wire| == NONCE
    requires t1.down.chan.part == [] && !t1.down.chan.cut
    ensures Path(a, t1, acts, t)
    ensures L.SawClose(t.down) && |t.down.chan.part| == NONCE && t.down.sender == L.SenderDone(WriteFailed, [])
    ensures t.down.taken == t1.down.taken && t.down.sunk == t1.down.sunk && t.down.supply == t1.down.supply
  {
    var e := DownEnds(t1);
    var e' := e.(source := e.source, writer := false);
    hide L.Enabled, L.Apply;
    var l1, l2, l3 := L.SeesEnd(a, t1.down, e, e');
    var t2, t3 := t1.(down := l1), t1.(down := l2);
    t := t1.(down := l3);
    assert DownEnds(t2) == e' && DownEnds(t3) == e';
    DownStep(a, t1, L.FailWrite);
    DownStep(a, t2, L.Pull(NONCE));
    DownStep(a, t3, L.StopReceiving(SawEof));
    acts := [Down(L.FailWrite), Down(L.Pull(NONCE)), Down(L.StopReceiving(SawEof))];
    hide Enabled, Apply, DownEnds;
    assert acts[1..][1..] == [Down(L.StopReceiving(SawEof))] && acts[1..][1..][1..] == [];
    assert acts[1..] == [Down(L.Pull(NONCE)), Down(L.StopReceiving(SawEof))];
    assert Path(a, t, [], t);
    assert Path(a, t3, acts[1..][1..], t);
    assert Path(a, t2, acts[1..], t);
  }
}
