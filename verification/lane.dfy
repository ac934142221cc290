/**
 One direction of a TCP tunnel as a step system: the pump that fills the link, the link, the pump that drains it.
 Every read, piece of a write, loss, decode and delivery is a step of its own, in any interleaving.
 */
module Lane {
  import opened Bytes
  import opened Frames
  import opened Link
  import opened Pump

  /** Where the filling pump stands. `after` is the error that came together with the chunk, if any; `unsent` is a
      chunk it had read when it stopped without starting to write it. */
  datatype Sender =
    | Reading
    | Holding(chunk: bytes, after: Option<Stop>)
    | Writing(after: Option<Stop>)
    | SenderDone(stop: Stop, unsent: bytes)

  datatype Receiver =
    | Waiting
    | Delivering(rest: bytes)
    | ReceiverDone(stop: Stop, undelivered: bytes)

  datatype Lane = Lane(
    supply: bytes,      // all the source peer will ever send
    taken: nat,         // how much of it the filling pump has read
    sender: Sender,
    chan: Channel,
    receiver: Receiver,
    sunk: bytes)        // what the sink accepted

  /** Which ends are still open in the two servers, whether the pumps run, and whether anyone reads the link. */
  datatype Ends = Ends(source: bool, writer: bool, reader: bool, sink: bool,
                       filling: bool, draining: bool, collecting: bool)

  datatype Step =
    | Read(k: nat, after: Option<Stop>)
    | StopReading(why: Stop)
    | Begin(nonce: bytes)
    | GiveUp
    | Emit(k: nat)
    | Swallow
    | FailWrite
    | Pull(k: nat)
    | Decode
    | StopReceiving(why: Stop)
    | Deliver
    | FailDeliver(k: nat)
    | Cut(k: nat)

  predicate MayFollow(l: Lane, taken: nat, why: Stop) {
    why == ReadFailed || (why == SawEof && taken == |l.supply|)
  }

  predicate Enabled(l: Lane, e: Ends, step: Step) {
    match step
    case Read(k, after) =>
      && e.filling && l.sender.Reading? && e.source && 1 <= k <= CHUNK && l.taken + k <= |l.supply|
      && (after.Some? ==> MayFollow(l, l.taken + k, after.value))
    case StopReading(why) =>
      e.filling && l.sender.Reading? && MayFollow(l, l.taken, why) && (why == SawEof ==> e.source)
    case Begin(nonce) =>
      l.sender.Holding? && l.chan.CanBegin(Packet(nonce, l.sender.chunk))
    case GiveUp => l.sender.Holding?
    case Emit(k) => l.sender.Writing? && e.writer && l.chan.CanEmit(k)
    case Swallow => l.sender.Writing? && e.writer && l.chan.cut
    case FailWrite => l.sender.Writing?
    case Pull(k) => e.collecting && l.receiver.Waiting? && e.reader && l.chan.CanPull(k)
    case Decode => e.draining && l.receiver.Waiting? && Complete(l.chan.part)
    case StopReceiving(why) =>
      && e.draining && l.receiver.Waiting?
      && (why == ReadFailed
          || (why == SawEof && e.reader && !e.writer && l.chan.AtEnd() && EofPlace(l.chan.part)))
    case Deliver => l.receiver.Delivering? && e.sink
    case FailDeliver(k) => l.receiver.Delivering? && k < |l.receiver.rest| && (e.sink || k == 0)
    case Cut(k) => l.chan.CanCut(k)
  }

  /** What follows a finished write: stop for the error that came with the chunk, or read on. */
  function Next(after: Option<Stop>): Sender {
    if after.Some? then SenderDone(after.value, []) else Reading
  }

  function Apply(a: Aead, l: Lane, e: Ends, step: Step): Lane
    requires Enabled(l, e, step)
  {
    match step
    case Read(k, after) =>
      l.(taken := l.taken + k, sender := Holding(l.supply[l.taken..l.taken + k], after))
    case StopReading(why) => l.(sender := SenderDone(why, []))
    case Begin(nonce) =>
      l.(chan := l.chan.Begin(a, Packet(nonce, l.sender.chunk)), sender := Writing(l.sender.after))
    case GiveUp => l.(sender := SenderDone(WriteFailed, l.sender.chunk))
    case Emit(k) =>
      var done := k == |l.chan.tail|;
      l.(chan := l.chan.Emit(k), sender := if done then Next(l.sender.after) else l.sender)
    case Swallow => l.(sender := Next(l.sender.after))
    case FailWrite => l.(sender := SenderDone(WriteFailed, []))
    case Pull(k) => l.(chan := l.chan.Pull(k))
    case Decode =>
      var plain := l.chan.Opened(a);
      if plain.None? then l.(receiver := ReceiverDone(ReadFailed, []))
      else
        var piece := Fit(plain.value, CHUNK);
        l.(chan := l.chan.Decode(), receiver := if piece == [] then Waiting else Delivering(piece))
    case StopReceiving(why) => l.(receiver := ReceiverDone(why, []))
    case Deliver => l.(sunk := l.sunk + l.receiver.rest, receiver := Waiting)
    case FailDeliver(k) =>
      l.(sunk := l.sunk + l.receiver.rest[..k], receiver := ReceiverDone(WriteFailed, l.receiver.rest[k..]))
    case Cut(k) => l.(chan := l.chan.Cut(k))
  }

  // ---------- what every step keeps ----------

  function Held(s: Sender): bytes {
    match s
    case Holding(chunk, _) => chunk
    case SenderDone(_, unsent) => unsent
    case _ => []
  }

  function Owed(r: Receiver): bytes {
    match r
    case Delivering(rest) => rest
    case ReceiverDone(_, undelivered) => undelivered
    case Waiting => []
  }

  /** The chunks written so far; the first `pre` frames of a direction are not chunks but the target address. */
  function Written(l: Lane, pre: nat): seq<Packet> {
    if |l.chan.sent| < pre then [] else l.chan.sent[pre..]
  }

  function Received(l: Lane, pre: nat): seq<Packet> {
    if pre <= l.chan.got <= |l.chan.sent| then l.chan.sent[pre..l.chan.got] else []
  }

  function InFlight(l: Lane, pre: nat): seq<Packet> {
    if l.chan.got > |l.chan.sent| then []
    else if pre <= l.chan.got then l.chan.sent[l.chan.got..]
    else Written(l, pre)
  }

  predicate SenderOk(l: Lane) {
    match l.sender
    case Reading => l.chan.tail == [] || l.chan.cut
    case Holding(chunk, after) =>
      && (l.chan.tail == [] || l.chan.cut) && 1 <= |chunk| <= CHUNK
      && (after.Some? ==> MayFollow(l, l.taken, after.value))
    case Writing(after) => l.chan.tail != [] && (after.Some? ==> MayFollow(l, l.taken, after.value))
    case SenderDone(stop, unsent) =>
      if stop == WriteFailed then unsent != [] || l.chan.tail != []
      else unsent == [] && (l.chan.tail == [] || l.chan.cut) && MayFollow(l, l.taken, stop)
  }

  predicate ReceiverOk(l: Lane) {
    match l.receiver
    case Waiting => true
    case Delivering(rest) => rest != [] && l.chan.part == []
    case ReceiverDone(stop, undelivered) =>
      && (stop == WriteFailed <==> undelivered != [])
      && (stop == SawEof ==> l.chan.AtEnd() && EofPlace(l.chan.part))
  }

  /** Both pumps' accounts: what was read is what was written plus what the filling pump holds, and what was decoded
      is what the sink took plus what the draining pump still owes it. */
  predicate Accounts(l: Lane, pre: nat) {
    && l.taken <= |l.supply|
    && l.supply[..l.taken] == Content(Written(l, pre)) + Held(l.sender)
    && Content(Received(l, pre)) == l.sunk + Owed(l.receiver)
  }

  ghost predicate Inv(a: Aead, l: Lane, pre: nat) {
    && l.chan.Inv(a) && pre <= |l.chan.sent| && Chunked(Written(l, pre))
    && SenderOk(l) && ReceiverOk(l) && Accounts(l, pre)
  }

  lemma SenderStepKeeps(a: Aead, l: Lane, pre: nat, e: Ends, step: Step)
    requires Lawful(a) && Inv(a, l, pre) && Enabled(l, e, step)
    requires step.Read? || step.StopReading? || step.GiveUp? || step.Swallow? || step.FailWrite?
    ensures Inv(a, Apply(a, l, e, step), pre)
  {
    hide Channel.Inv, Frames.Encode, Frame, Lawful, Content, Flatten, Chunked, EofPlace, Complete;
    if step.Read? {
      var k := step.k;
      assert l.supply[..l.taken + k] == l.supply[..l.taken] + l.supply[l.taken..l.taken + k];
    }
  }

  lemma BeginStepKeeps(a: Aead, l: Lane, pre: nat, e: Ends, step: Step)
    requires Lawful(a) && Inv(a, l, pre) && Enabled(l, e, step) && step.Begin?
    ensures Inv(a, Apply(a, l, e, step), pre)
  {
    assert l.chan.got <= |l.chan.sent|;
    hide Channel.Inv, Lawful, Frames.Encode, EofPlace, Complete, Content, Accounts;
    var p := Packet(step.nonce, l.sender.chunk);
    var m := Apply(a, l, e, step);
    assert m == l.(chan := l.chan.Begin(a, p), sender := Writing(l.sender.after)) && l.chan.CanBegin(p);
    BeginKeeps(a, l.chan, p);
    BeginParts(a, l, m, p);
    hide Apply, Enabled, Frame, Chunked, Written, SenderOk, ReceiverOk;
    BeginAccounts(a, l, m, pre, p);
  }

  lemma BeginParts(a: Aead, l: Lane, m: Lane, p: Packet)
    requires SenderOk(l) && ReceiverOk(l) && l.sender.Holding?
    requires l.chan.CanBegin(p) && m == l.(chan := l.chan.Begin(a, p), sender := Writing(l.sender.after))
    ensures SenderOk(m) && ReceiverOk(m)
  {
    FrameIsSome(a, p);
    hide Frame, EofPlace, Complete;
  }

  lemma BeginAccounts(a: Aead, l: Lane, m: Lane, pre: nat, p: Packet)
    requires Accounts(l, pre) && l.sender.Holding? && p.body == l.sender.chunk && l.chan.got <= |l.chan.sent|
    requires pre <= |l.chan.sent| && m.chan.sent == l.chan.sent + [p] && m.sender.Writing?
    requires m.supply == l.supply && m.taken == l.taken && m.chan.got == l.chan.got && m.sunk == l.sunk
    requires m.receiver == l.receiver && Chunked(Written(l, pre)) && |p.nonce| == NONCE && 1 <= |p.body| <= CHUNK
    ensures Accounts(m, pre) && Chunked(Written(m, pre))
  {
    OneMore(a, Written(l, pre), p);
    hide Content, Frames.Encode, Frame;
    assert Written(m, pre) == Written(l, pre) + [p];
    assert Received(m, pre) == Received(l, pre);
    assert Content(Written(m, pre)) + [] == Content(Written(m, pre));
  }

  lemma LinkStepKeeps(a: Aead, l: Lane, pre: nat, e: Ends, step: Step)
    requires Lawful(a) && Inv(a, l, pre) && Enabled(l, e, step)
    requires step.Emit? || step.Pull? || step.Cut?
    requires l.receiver.ReceiverDone? && l.receiver.stop == SawEof ==> !e.writer
    ensures Inv(a, Apply(a, l, e, step), pre)
  {
    hide Frames.Encode, Frame, Lawful, Content, Flatten, Chunked;
    match step {
      case Emit(k) => EmitKeeps(a, l.chan, k);
      case Pull(k) => PullKeeps(a, l.chan, k);
      case Cut(k) => CutKeeps(a, l.chan, k);
    }
    var m := Apply(a, l, e, step);
    hide Channel.Inv, Frames.Encode, Frame, Lawful, Content, Flatten, Chunked;
    assert Written(m, pre) == Written(l, pre) && Received(m, pre) == Received(l, pre);
  }

  /** Decoding gives the draining pump exactly the next chunk, whole: nothing forged, nothing cut to the buffer. */
  lemma DecodeStepKeeps(a: Aead, l: Lane, pre: nat, e: Ends)
    requires Lawful(a) && Inv(a, l, pre) && Enabled(l, e, Decode) && pre <= l.chan.got
    ensures var m := Apply(a, l, e, Decode);
            && Inv(a, m, pre) && l.chan.got < |l.chan.sent|
            && m.receiver == Delivering(l.chan.sent[l.chan.got].body)
  {
    hide Frames.Encode, Frame, Lawful, Content, Need, EofPlace;
    NextFrame(a, l.chan);
    DecodeKeeps(a, l.chan);
    hide Channel.Inv;
    var m := Apply(a, l, e, Decode);
    var p := l.chan.sent[l.chan.got];
    assert p == Written(l, pre)[l.chan.got - pre] && 1 <= |p.body| <= CHUNK;
    assert Fit(p.body, CHUNK) == p.body;
    assert m == l.(chan := l.chan.Decode(), receiver := Delivering(p.body)) && l.receiver.Waiting?;
    hide Apply, Enabled, Complete, Channel.Opened, Fit;
    DecodeAccounts(a, l, m, pre, p);
  }

  lemma DecodeAccounts(a: Aead, l: Lane, m: Lane, pre: nat, p: Packet)
    requires Accounts(l, pre) && l.receiver.Waiting? && m.receiver == Delivering(p.body)
    requires pre <= l.chan.got < |l.chan.sent| && p == l.chan.sent[l.chan.got]
    requires m.chan.sent == l.chan.sent && m.chan.got == l.chan.got + 1 && m.sender == l.sender
    requires m.supply == l.supply && m.taken == l.taken && m.sunk == l.sunk
    ensures Accounts(m, pre) && Written(m, pre) == Written(l, pre)
  {
    OneMore(a, Received(l, pre), p);
    hide Content, Frames.Encode, Frame;
    assert Received(m, pre) == Received(l, pre) + [p];
    assert l.sunk + [] == l.sunk;
  }

  lemma ReceiverStepKeeps(a: Aead, l: Lane, pre: nat, e: Ends, step: Step)
    requires Lawful(a) && Inv(a, l, pre) && Enabled(l, e, step)
    requires step.StopReceiving? || step.Deliver? || step.FailDeliver?
    ensures Inv(a, Apply(a, l, e, step), pre)
  {
    hide Channel.Inv, Frames.Encode, Frame, Lawful, Content, Flatten, Chunked;
    match step {
      case FailDeliver(k) =>
        FailDeliverKeeps(a, l, pre, e, k);
      case StopReceiving(_) =>
        assert l.sunk + Owed(l.receiver) + [] == l.sunk + Owed(l.receiver);
        ChanOnly(l, Apply(a, l, e, step), pre);
      case Deliver =>
        assert l.sunk + Owed(l.receiver) + [] == l.sunk + Owed(l.receiver);
        ChanOnly(l, Apply(a, l, e, step), pre);
    }
  }

  lemma FailDeliverKeeps(a: Aead, l: Lane, pre: nat, e: Ends, k: nat)
    requires Inv(a, l, pre) && Enabled(l, e, FailDeliver(k))
    ensures Inv(a, Apply(a, l, e, FailDeliver(k)), pre)
  {
    var m := Apply(a, l, e, FailDeliver(k));
    Parted(l.sunk, l.receiver.rest, k);
    hide Channel.Inv, Content, Chunked, Written, Received, EofPlace, Channel.AtEnd, Enabled, Apply;
    assert m.chan == l.chan && m.sender == l.sender;
    assert Received(m, pre) == Received(l, pre) && Written(m, pre) == Written(l, pre) by { ChanOnly(l, m, pre); }
  }

  lemma ChanOnly(l: Lane, m: Lane, pre: nat)
    requires m.chan == l.chan
    ensures Received(m, pre) == Received(l, pre) && Written(m, pre) == Written(l, pre)
  {
  }

  lemma Parted(s: bytes, rest: bytes, k: nat)
    requires k <= |rest|
    ensures s + rest == s + rest[..k] + rest[k..]
  {
  }

  /** Every step of a direction keeps its invariant. The one thing it needs from its surroundings: an end whose
      clean close was seen does not write again, and the address frames are consumed before the pump starts. */
  lemma StepKeeps(a: Aead, l: Lane, pre: nat, e: Ends, step: Step)
    requires Lawful(a) && Inv(a, l, pre) && Enabled(l, e, step)
    requires l.receiver.ReceiverDone? && l.receiver.stop == SawEof ==> !e.writer
    requires e.draining ==> pre <= l.chan.got
    ensures Inv(a, Apply(a, l, e, step), pre)
  {
    match step {
      case Read(_, _) => SenderStepKeeps(a, l, pre, e, step);
      case StopReading(_) => SenderStepKeeps(a, l, pre, e, step);
      case GiveUp => SenderStepKeeps(a, l, pre, e, step);
      case Swallow => SenderStepKeeps(a, l, pre, e, step);
      case FailWrite => SenderStepKeeps(a, l, pre, e, step);
      case Begin(_) => BeginStepKeeps(a, l, pre, e, step);
      case Emit(_) => LinkStepKeeps(a, l, pre, e, step);
      case Pull(_) => LinkStepKeeps(a, l, pre, e, step);
      case Cut(_) => LinkStepKeeps(a, l, pre, e, step);
      case Decode => DecodeStepKeeps(a, l, pre, e);
      case StopReceiving(_) => ReceiverStepKeeps(a, l, pre, e, step);
      case Deliver => ReceiverStepKeeps(a, l, pre, e, step);
      case FailDeliver(_) => ReceiverStepKeeps(a, l, pre, e, step);
    }
  }

  /** Somebody other than the draining pump consumes a frame in front of the chunks. */
  lemma SkipKeeps(a: Aead, l: Lane, pre: nat)
    requires Lawful(a) && Inv(a, l, pre) && l.chan.got < pre && Complete(l.chan.part)
    requires l.receiver.Waiting? && l.sunk == []
    ensures l.chan.Opened(a) == Some(l.chan.sent[l.chan.got].body)
    ensures Inv(a, l.(chan := l.chan.Decode()), pre)
  {
    NextFrame(a, l.chan);
    DecodeKeeps(a, l.chan);
    var m := l.(chan := l.chan.Decode());
    assert Written(m, pre) == Written(l, pre) && Received(m, pre) == [] && Received(l, pre) == [];
  }

  /** A direction in which only the frames in front of the chunks have been begun. */
  lemma FreshInv(a: Aead, l: Lane, pre: nat)
    requires l.chan.Inv(a) && pre == |l.chan.sent| && l.chan.got == 0 && l.chan.part == []
    requires l.taken == 0 && l.sunk == [] && l.receiver.Waiting?
    requires if l.chan.tail == [] then l.sender.Reading? else l.sender == Writing(None)
    ensures Inv(a, l, pre)
  {
    hide Channel.Inv;
    assert Written(l, pre) == [] && Received(l, pre) == [];
    FreshAccounts(l, pre);
    hide Accounts, Written;
  }

  lemma FreshAccounts(l: Lane, pre: nat)
    requires Written(l, pre) == [] && Received(l, pre) == [] && l.taken == 0 && l.sunk == [] && l.receiver.Waiting?
    requires l.sender.Reading? || l.sender.Writing?
    ensures Accounts(l, pre)
  {
    assert Content([]) == [] && l.supply[..0] == [];
    hide Written, Received, Content;
  }

  predicate SawClose(l: Lane) {
    l.receiver.ReceiverDone? && l.receiver.stop == SawEof
  }

  /** What a step leaves alone: peers' bytes, begun frames, a pump that has stopped or does not run yet. */
  lemma StepFrame(a: Aead, l: Lane, e: Ends, step: Step)
    requires Enabled(l, e, step)
    ensures var m := Apply(a, l, e, step);
            && m.supply == l.supply && l.chan.sent <= m.chan.sent
            && l.chan.got <= m.chan.got && (!e.draining ==> l.chan.got == m.chan.got)
            && (l.sender.SenderDone? ==> m.sender == l.sender)
            && (l.receiver.ReceiverDone? ==> m.receiver == l.receiver)
            && l.sunk <= m.sunk && l.taken <= m.taken
            && (SawClose(m) ==> SawClose(l) || !e.writer)
            && (!e.draining && l.receiver.Waiting? ==> m.receiver.Waiting? && m.sunk == l.sunk)
            && (!e.filling && l.sender.Reading? ==>
                  m.sender.Reading? && m.taken == l.taken && m.chan.sent == l.chan.sent)
  {
  }

  // ---------- what the invariant says ----------

  /** Every byte read from the source is with the sink, with the draining pump, in a frame on its way, or with the
      filling pump, in this order, and nowhere twice; so the sink has a prefix of what the source sends. */
  predicate Conserved(l: Lane, pre: nat) {
    && l.taken <= |l.supply|
    && l.supply[..l.taken] == l.sunk + Owed(l.receiver) + Content(InFlight(l, pre)) + Held(l.sender)
    && l.sunk <= l.supply
  }

  /** When the draining pump saw io.EOF and the filling pump is done too, the sink has all that was read from the
      source exactly when the filling pump did not stop on a failed write; and if it stopped on the source's own end
      of file, that is all the source ever sent. */
  predicate EofMeansAll(l: Lane) {
    SawClose(l) && l.sender.SenderDone? ==>
      && l.taken <= |l.supply|
      && (l.sunk == l.supply[..l.taken] <==> l.sender.stop != WriteFailed)
      && (l.sender.stop == SawEof ==> l.sunk == l.supply)
  }

  lemma SplitsWritten(l: Lane, pre: nat)
    requires pre <= |l.chan.sent| && l.chan.got <= |l.chan.sent|
    ensures Written(l, pre) == Received(l, pre) + InFlight(l, pre)
  {
  }

  lemma Conservation(a: Aead, l: Lane, pre: nat)
    requires Inv(a, l, pre)
    ensures Conserved(l, pre)
  {
    assert l.chan.got <= |l.chan.sent|;
    SplitsWritten(l, pre);
    hide Channel.Inv, Frames.Encode, Chunked, Content, SenderOk, ReceiverOk, Written, Received, InFlight;
    ContentAppend(Received(l, pre), InFlight(l, pre));
    assert l.sunk <= l.supply[..l.taken];
  }

  /** What is still on its way when the draining pump has seen io.EOF: nothing, or at least a byte. */
  lemma FlyingAtEof(a: Aead, l: Lane, pre: nat)
    requires Lawful(a) && Inv(a, l, pre) && pre <= l.chan.got && SawClose(l) && l.sender.SenderDone?
    ensures l.sender.stop != WriteFailed ==> Content(InFlight(l, pre)) == [] && l.sender.unsent == []
    ensures l.sender.stop == WriteFailed ==> Content(InFlight(l, pre)) != [] || l.sender.unsent != []
  {
    hide Frames.Encode, Frame, Lawful, Complete, Accounts;
    var flying := InFlight(l, pre);
    if l.sender.stop != WriteFailed {
      DrainedMeansAll(a, l.chan);
      assert flying == [];
    } else if l.chan.tail != [] {
      TailIsUndecoded(a, l.chan);
      hide Channel.Inv, EofPlace;
      assert flying[0] == Written(l, pre)[l.chan.got - pre];
      ContentFirst(flying);
      hide Content;
    }
  }

  lemma Shortfall(whole: bytes, sunk: bytes, flying: bytes, unsent: bytes)
    requires whole == sunk + flying + unsent
    ensures sunk == whole <==> flying == [] && unsent == []
  {
    if sunk == whole {
      assert |flying| + |unsent| == 0;
    }
  }

  lemma EofComplete(a: Aead, l: Lane, pre: nat)
    requires Lawful(a) && Inv(a, l, pre) && pre <= l.chan.got
    ensures EofMeansAll(l)
  {
    if SawClose(l) && l.sender.SenderDone? {
      Conservation(a, l, pre);
      FlyingAtEof(a, l, pre);
      hide Channel.Inv, Frames.Encode, Lawful, Content, InFlight, Chunked, Complete, EofPlace;
      var flying := Content(InFlight(l, pre));
      assert Owed(l.receiver) == [] && l.sunk + [] == l.sunk;
      Shortfall(l.supply[..l.taken], l.sunk, flying, l.sender.unsent);
      assert l.supply[..|l.supply|] == l.supply;
    }
  }

  /** The most the sink can get once the draining pump's own end of the link is closed; `open` says whether the sink
      is. */
  function LastWords(a: Aead, l: Lane, open: bool): bytes {
    match l.receiver
    case ReceiverDone(_, _) => l.sunk
    case Delivering(rest) => if open then l.sunk + rest else l.sunk
    case Waiting =>
      if open && Complete(l.chan.part) && l.chan.Opened(a).Some? then l.sunk + Fit(l.chan.Opened(a).value, CHUNK)
      else l.sunk
  }

  /** The sink has everything, or what it lacks is just what the draining pump already holds. */
  predicate Arrives(a: Aead, l: Lane, open: bool) {
    || l.sunk == l.supply
    || (open && l.receiver.Delivering? && l.supply == l.sunk + l.receiver.rest)
    || (open && l.receiver.Waiting? && Complete(l.chan.part) && l.chan.Opened(a).Some?
        && l.supply == l.sunk + Fit(l.chan.Opened(a).value, CHUNK))
  }

  /** From then on nothing more is read from the link, whatever is in transit there. */
  lemma LastWordsOnly(a: Aead, l: Lane, e: Ends, step: Step)
    requires Enabled(l, e, step) && !e.reader && ReceiverOk(l)
    ensures LastWords(a, Apply(a, l, e, step), e.sink) <= LastWords(a, l, e.sink)
  {
    assert !Complete([]);
    hide Complete, Channel.Opened, EofPlace, Frame;
    if step.FailDeliver? {
      var rest := l.receiver.rest;
      assert l.sunk + rest == l.sunk + rest[..step.k] + rest[step.k..];
    }
  }

  lemma ClosingShrinks(a: Aead, l: Lane)
    ensures LastWords(a, l, false) <= LastWords(a, l, true)
  {
  }

  lemma SinkOfDone(a: Aead, l: Lane)
    ensures l.receiver.ReceiverDone? ==> LastWords(a, l, false) == LastWords(a, l, true)
  {
  }

  lemma OwedWithin(l: Lane, pre: nat)
    requires Conserved(l, pre)
    ensures l.sunk + Owed(l.receiver) <= l.supply
  {
    hide Content, InFlight;
    assert l.sunk + Owed(l.receiver) <= l.supply[..l.taken];
  }

  /** A collected frame holds the next chunk, and that is next in what the source sends. */
  lemma DecodedWord(a: Aead, l: Lane, pre: nat, e: Ends) returns (body: bytes)
    requires Lawful(a) && l.receiver.Waiting? && Complete(l.chan.part) && e.draining
    requires Inv(a, l, pre) && pre <= l.chan.got
    ensures l.chan.Opened(a) == Some(body) && Fit(body, CHUNK) == body != [] && l.sunk + body <= l.supply
  {
    hide Frames.Encode, Frame, Content, Need, EofPlace, BE16;
    NextFrame(a, l.chan);
    body := l.chan.sent[l.chan.got].body;
    assert body == Written(l, pre)[l.chan.got - pre].body;
    DecodeStepKeeps(a, l, pre, e);
    var m := Apply(a, l, e, Decode);
    hide Inv, Lawful;
    Conservation(a, m, pre);
    OwedWithin(m, pre);
  }

  lemma LastWordsWithin(a: Aead, l: Lane, pre: nat, open: bool)
    requires Lawful(a) && Inv(a, l, pre) && pre <= l.chan.got
    ensures l.sunk <= LastWords(a, l, open) <= l.supply
    ensures LastWords(a, l, open) == l.supply <==> Arrives(a, l, open)
  {
    hide Content, Lawful, Complete, Channel.Opened, Channel.Inv, Fit, Chunked, InFlight;
    Conservation(a, l, pre);
    OwedWithin(l, pre);
    assert l.receiver.Delivering? ==> l.receiver.rest != [];
    if l.receiver.Waiting? && Complete(l.chan.part) {
      var body := DecodedWord(a, l, pre, Ends(true, true, true, true, true, true, true));
      hide Inv, Conserved, Apply;
      assert |l.sunk + body| > |l.sunk|;
    }
  }

  /** What the sink can still get it does get, if nothing fails. */
  lemma NextWord(a: Aead, l: Lane, pre: nat, e: Ends) returns (step: Step)
    requires Lawful(a) && Inv(a, l, pre) && pre <= l.chan.got && e.draining && LastWords(a, l, e.sink) != l.sunk
    ensures Enabled(l, e, step)
    ensures var m := Apply(a, l, e, step);
            !m.receiver.ReceiverDone? && LastWords(a, m, e.sink) == LastWords(a, l, e.sink)
  {
    hide Inv, Lawful, LastWords, Enabled, Apply, Complete;
    HasWord(a, l, e.sink);
    if l.receiver.Delivering? {
      PartEmpty(a, l, pre);
      step := Deliver;
      DeliverWord(a, l, e);
    } else {
      var body := DecodedWord(a, l, pre, e);
      step := Decode;
      DecodeWord(a, l, e, body);
    }
  }

  lemma HasWord(a: Aead, l: Lane, open: bool)
    requires LastWords(a, l, open) != l.sunk
    ensures open && (l.receiver.Delivering? || (l.receiver.Waiting? && Complete(l.chan.part)))
  {
  }

  /** A draining pump that holds a payload has collected nothing of the next frame. */
  lemma PartEmpty(a: Aead, l: Lane, pre: nat)
    requires Inv(a, l, pre) && l.receiver.Delivering?
    ensures l.chan.part == []
  {
  }

  lemma DeliverWord(a: Aead, l: Lane, e: Ends)
    requires l.receiver.Delivering? && l.chan.part == [] && e.sink
    ensures Enabled(l, e, Deliver)
    ensures var m := Apply(a, l, e, Deliver);
            !m.receiver.ReceiverDone? && LastWords(a, m, e.sink) == LastWords(a, l, e.sink)
  {
  }

  lemma DecodeWord(a: Aead, l: Lane, e: Ends, body: bytes)
    requires l.receiver.Waiting? && Complete(l.chan.part) && e.sink && e.draining
    requires l.chan.Opened(a) == Some(body) && Fit(body, CHUNK) == body
    requires body != []
    ensures Enabled(l, e, Decode)
    ensures var m := Apply(a, l, e, Decode);
            !m.receiver.ReceiverDone? && LastWords(a, m, e.sink) == LastWords(a, l, e.sink)
  {
    hide Channel.Opened, Complete, Fit;
  }

  // ---------- an undisturbed direction ----------

  /** Nothing has failed or ended here so far. */
  predicate Smooth(l: Lane) {
    && !l.chan.cut && !l.receiver.ReceiverDone?
    && match l.sender
       case Reading => true
       case Holding(_, after) => after.None?
       case Writing(after) => after.None?
       case SenderDone(_, _) => false
  }

  /** A frame that is not decoded can be moved on while nobody disturbs the link. */
  lemma Flows(a: Aead, l: Lane, pre: nat, e: Ends) returns (step: Step)
    requires Lawful(a) && Inv(a, l, pre) && Smooth(l) && e.writer && e.reader && e.collecting
    requires l.receiver.Waiting? && !Complete(l.chan.part) && l.chan.got < |l.chan.sent|
    ensures Enabled(l, e, step) && Smooth(Apply(a, l, e, step))
  {
    hide Accounts, Chunked, Frames.Encode, Frame, Lawful, BE16;
    if l.chan.wire != [] {
      step := Pull(1);
    } else {
      if l.chan.tail == [] {
        NothingMissing(a, l.chan);
      }
      step := Emit(1);
    }
  }

  /** As long as the sink does not have all the source will ever send, an undisturbed direction can go on. */
  lemma GoesOn(a: Aead, l: Lane, pre: nat, e: Ends) returns (step: Step)
    requires Lawful(a) && Inv(a, l, pre) && Smooth(l) && pre <= l.chan.got && l.sunk != l.supply
    requires e == Ends(true, true, true, true, true, true, true)
    ensures Enabled(l, e, step) && Smooth(Apply(a, l, e, step))
  {
    hide Lawful, Frames.Encode, Frame, Content, BE16, Fit;
    if l.receiver.Delivering? {
      step := Deliver;
    } else if Complete(l.chan.part) {
      DecodeStepKeeps(a, l, pre, e);
      hide Inv;
      step := Decode;
    } else if l.chan.got < |l.chan.sent| {
      step := Flows(a, l, pre, e);
    } else if l.sender.Reading? {
      Conservation(a, l, pre);
      hide Inv, Conserved;
      AllSunk(l, pre);
      step := Read(1, None);
    } else if l.sender.Holding? {
      hide Accounts, Channel.Inv, Chunked, EofPlace, Complete;
      step := Begin(Zeros(NONCE));
    } else {
      hide Accounts, Chunked, EofPlace, Complete;
      TailIsUndecoded(a, l.chan);
      assert false;
    }
  }

  lemma AllSunk(l: Lane, pre: nat)
    requires Conserved(l, pre) && l.sender.Reading? && l.receiver.Waiting?
    requires pre <= l.chan.got && |l.chan.sent| <= l.chan.got
    ensures l.taken <= |l.supply|
    ensures l.taken == |l.supply| ==> l.sunk == l.supply
  {
    assert InFlight(l, pre) == [] && Content([]) == [];
    assert l.sunk + [] + [] + [] == l.sunk;
    assert l.supply[..|l.supply|] == l.supply;
  }

  /** The filling pump has passed on all the source will ever send, and reads for more. */
  predicate Filled(l: Lane) {
    l.sender.Reading? && l.taken == |l.supply|
  }

  lemma StopsAtEof(a: Aead, l: Lane, e: Ends)
    requires Filled(l) && e.filling && e.source
    ensures Enabled(l, e, StopReading(SawEof))
    ensures Apply(a, l, e, StopReading(SawEof)) == l.(sender := SenderDone(SawEof, []))
  {
  }

  predicate SameSinkSide(l: Lane, m: Lane) {
    m.receiver == l.receiver && m.sunk == l.sunk && m.chan.got == l.chan.got && m.chan.part == l.chan.part
  }

  /** The filling pump can get there on its own. */
  lemma FillsOn(a: Aead, l: Lane, pre: nat, e: Ends) returns (step: Step)
    requires Inv(a, l, pre) && Smooth(l) && !Filled(l) && e.filling && e.source && e.writer
    ensures Enabled(l, e, step)
    ensures var m := Apply(a, l, e, step); Smooth(m) && SameSinkSide(l, m)
  {
    hide Channel.Inv, Chunked, EofPlace, Complete, Content;
    match l.sender {
      case Reading => step := Read(1, None);
      case Holding(_, _) => step := Begin(Zeros(NONCE));
      case Writing(_) => step := Emit(1);
    }
  }

  // ---------- termination ----------

  function SenderRank(s: Sender): nat {
    match s
    case Reading => 1
    case Holding(chunk, _) => 3 * |chunk| + 3 * (HEAD + TAG) + 3
    case Writing(_) => 2
    case SenderDone(_, _) => 0
  }

  function ReceiverRank(r: Receiver): nat {
    match r
    case Waiting => 1
    case Delivering(_) => 2
    case ReceiverDone(_, _) => 0
  }

  /** Bounds the steps this direction can still make: bytes count for more the further they are from the sink. */
  function Measure(l: Lane): nat {
    (if l.taken <= |l.supply| then 200 * (|l.supply| - l.taken) else 0)
    + SenderRank(l.sender) + ReceiverRank(l.receiver)
    + (if l.chan.cut then 0 else 3 * |l.chan.tail|) + 2 * |l.chan.wire| + |l.chan.part|
  }

  lemma StepShrinks(a: Aead, l: Lane, e: Ends, step: Step)
    requires Lawful(a) && Enabled(l, e, step)
    ensures Measure(Apply(a, l, e, step)) < Measure(l)
  {
    match step {
      case Begin(nonce) => FrameLength(a, Packet(nonce, l.sender.chunk));
      case _ => hide Lawful;
    }
  }

  // ---------- a loss that looks like an end of file ----------

  predicate LanePath(a: Aead, l: Lane, e: Ends, steps: seq<Step>, m: Lane)
    decreases |steps|
  {
    if steps == [] then l == m
    else Enabled(l, e, steps[0]) && LanePath(a, Apply(a, l, e, steps[0]), e, steps[1..], m)
  }

  /** Pumps that have not stopped at the end of a path have not stopped on it. */
  lemma {:induction false} PathRuns(a: Aead, l: Lane, e: Ends, steps: seq<Step>, m: Lane)
    requires LanePath(a, l, e, steps, m)
    ensures l.sender.SenderDone? ==> m.sender.SenderDone?
    ensures l.receiver.ReceiverDone? ==> m.receiver.ReceiverDone?
    decreases |steps|
  {
    if steps != [] {
      StepFrame(a, l, e, steps[0]);
      hide Enabled, Apply;
      PathRuns(a, Apply(a, l, e, steps[0]), e, steps[1..], m);
    }
  }

  lemma PathOne(a: Aead, l: Lane, e: Ends, step: Step, rest: seq<Step>, m: Lane)
    requires Enabled(l, e, step) && LanePath(a, Apply(a, l, e, step), e, rest, m)
    ensures LanePath(a, l, e, [step] + rest, m)
  {
    hide Enabled, Apply;
    assert ([step] + rest)[1..] == rest;
  }

  /** The filling pump reads a byte and gets the nonce of its frame onto the link. */
  lemma WritesNonce(a: Aead, l: Lane, e: Ends) returns (m: Lane, steps: seq<Step>)
    requires e == Ends(true, true, true, true, true, true, true) && l.supply != []
    requires l == Lane(l.supply, 0, Reading, Channel([], 0, [], [], [], false), Waiting, [])
    ensures LanePath(a, l, e, steps, m)
    ensures m.sender == Writing(None) && m.taken == 1 && m.receiver.Waiting? && m.sunk == []
    ensures |m.chan.wire| == NONCE && m.chan.part == [] && !m.chan.cut && m.supply == l.supply
  {
    var l1 := Apply(a, l, e, Read(1, None));
    var p := Packet(Zeros(NONCE), l1.sender.chunk);
    FrameOverNonce(a, p);
    hide Frame;
    assert l1 == l.(taken := 1, sender := Holding(l.supply[0..1], None));
    var l2 := Apply(a, l1, e, Begin(Zeros(NONCE)));
    assert l2.chan.tail == Frame(a, p) && l2.chan.wire == [];
    m := Apply(a, l2, e, Emit(NONCE));
    assert |m.chan.wire| == NONCE && m.sender == Writing(None);
    hide Apply, Enabled;
    PathOne(a, l2, e, Emit(NONCE), [], m);
    PathOne(a, l1, e, Begin(Zeros(NONCE)), [Emit(NONCE)] + [], m);
    PathOne(a, l, e, Read(1, None), [Begin(Zeros(NONCE))] + ([Emit(NONCE)] + []), m);
    steps := [Read(1, None)] + ([Begin(Zeros(NONCE))] + ([Emit(NONCE)] + []));
  }

  lemma FrameOverNonce(a: Aead, p: Packet)
    requires |p.nonce| == NONCE
    ensures |Frame(a, p)| > NONCE
  {
  }

  /** Then its write fails; the draining pump collects the nonce and takes the close behind it for the end of the
      data. */
  lemma SeesEnd(a: Aead, l: Lane, e: Ends, e': Ends) returns (l1: Lane, l2: Lane, l3: Lane)
    requires e'.reader && !e'.writer && e'.collecting && e'.draining
    requires l.sender.Writing? && l.receiver.Waiting? && |l.chan.wire| == NONCE && l.chan.part == [] && !l.chan.cut
    ensures Enabled(l, e, FailWrite) && l1 == Apply(a, l, e, FailWrite) && l1.sender == SenderDone(WriteFailed, [])
    ensures l1.receiver.Waiting?
    ensures Enabled(l1, e', Pull(NONCE)) && l2 == Apply(a, l1, e', Pull(NONCE)) && l2.receiver.Waiting?
    ensures Enabled(l2, e', StopReceiving(SawEof)) && l3 == Apply(a, l2, e', StopReceiving(SawEof))
    ensures l3.receiver == ReceiverDone(SawEof, []) && |l3.chan.part| == NONCE
    ensures l3.sender == l2.sender == l1.sender && l3.taken == l.taken && l3.sunk == l.sunk && l3.supply == l.supply
  {
    l1 := Apply(a, l, e, FailWrite);
    l2 := Apply(a, l1, e', Pull(NONCE));
    assert l2.chan.wire == [] && |l2.chan.part| == NONCE;
    l3 := Apply(a, l2, e', StopReceiving(SawEof));
  }
}
