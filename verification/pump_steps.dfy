/** The pump loops as code against the pump steps of one direction: what one turn of a loop does to its connections is
    what some path of steps does to the direction. */
module PumpSteps {
  import opened Bytes
  import opened Frames
  import opened Link
  import opened SecureChannel
  import opened Pump
  import L = Lane

  lemma {:induction false} PathThen(a: Aead, l: L.Lane, e: L.Ends, steps: seq<L.Step>, m: L.Lane, more: seq<L.Step>,
                                    n: L.Lane)
    requires L.LanePath(a, l, e, steps, m) && L.LanePath(a, m, e, more, n)
    ensures L.LanePath(a, l, e, steps + more, n)
    decreases |steps|
  {
    hide L.Enabled, L.Apply;
    if steps == [] {
      assert steps + more == more;
    } else {
      PathThen(a, L.Apply(a, l, e, steps[0]), e, steps[1..], m, more, n);
      assert (steps + more)[1..] == steps[1..] + more;
    }
  }

  lemma One(a: Aead, l: L.Lane, e: L.Ends, step: L.Step)
    requires L.Enabled(l, e, step)
    ensures L.LanePath(a, l, e, [step], L.Apply(a, l, e, step))
  {
    hide L.Enabled, L.Apply;
    L.PathOne(a, l, e, step, [], L.Apply(a, l, e, step));
    assert [step] + [] == [step];
  }

  // ---------- the filling pump ----------

  /** The filling side of a direction is where the code is at the top of its loop. */
  predicate AtFill(l: L.Lane, e: L.Ends, incoming: bytes, sourceOpen: bool, linkOpen: bool) {
    && l.sender.Reading? && l.chan.tail == [] && !l.chan.cut && l.taken <= |l.supply|
    && l.supply[l.taken..] == incoming
    && e.filling && e.source == sourceOpen && e.writer == linkOpen
  }

  /** What is written reaches the link as far as it takes it; a write cut short ends the pump. */
  lemma WritePath(a: Aead, l: L.Lane, e: L.Ends, p: Packet, takes: nat) returns (steps: seq<L.Step>, m: L.Lane)
    requires l.sender == L.Holding(p.body, None) && l.chan.tail == [] && !l.chan.cut
    requires |p.nonce| == NONCE && 1 <= |p.body| <= CHUNK && (takes > 0 ==> e.writer)
    ensures L.LanePath(a, l, e, steps, m)
    ensures var f := Frame(a, p);
            && m.chan == l.chan.(sent := l.chan.sent + [p], wire := l.chan.wire + Fit(f, takes), tail := m.chan.tail)
            && (|f| <= takes ==> m.sender.Reading? && m.chan.tail == [])
            && (|f| > takes ==> m.sender == L.SenderDone(WriteFailed, []))
            && m == l.(sender := m.sender, chan := m.chan)
  {
    var f := Frame(a, p);
    FrameIsSome(a, p);
    hide Frame;
    One(a, l, e, L.Begin(p.nonce));
    var l1 := L.Apply(a, l, e, L.Begin(p.nonce));
    assert p == Packet(p.nonce, p.body) && l1.chan.tail == f;
    var k := Min(|f|, takes);
    steps, m := [L.Begin(p.nonce)], l1;
    if k > 0 {
      One(a, l1, e, L.Emit(k));
      m := L.Apply(a, l1, e, L.Emit(k));
      PathThen(a, l, e, steps, l1, [L.Emit(k)], m);
      steps := steps + [L.Emit(k)];
    } else {
      assert l1.chan.wire == l1.chan.wire + Fit(f, takes);
    }
    if k < |f| {
      var l2 := m;
      One(a, l2, e, L.FailWrite);
      m := L.Apply(a, l2, e, L.FailWrite);
      PathThen(a, l, e, steps, l2, [L.FailWrite], m);
      steps := steps + [L.FailWrite];
    }
  }

  /** One turn of the filling loop, followed along a direction that stands where the code stands: the turn moves it by
      some path of steps to where the code is then. */
  method FillAlong(src: NetConn, link: SecureConn, nonce: bytes, buf: array<byte>, ghost l: L.Lane, ghost e: L.Ends)
    returns (n: nat, stop: Option<Stop>, ghost steps: seq<L.Step>, ghost m: L.Lane)
    requires src != link.conn && buf.Length == 1024 && |nonce| == NONCE
    requires AtFill(l, e, src.incoming, src.isOpen, link.conn.isOpen)
    modifies src`incoming, link.conn`outgoing, link.conn`room, buf
    ensures L.LanePath(link.aead, l, e, steps, m)
    ensures stop.None? ==> AtFill(m, e, src.incoming, src.isOpen, link.conn.isOpen)
    ensures m.taken <= |m.supply| && m.supply[m.taken..] == src.incoming
    ensures stop.Some? ==> m.sender == L.SenderDone(stop.value, [])
    ensures old(link.conn.outgoing) <= link.conn.outgoing
    ensures m.chan.wire == l.chan.wire + link.conn.outgoing[|old(link.conn.outgoing)|..]
    ensures m.supply == l.supply && m.receiver == l.receiver && m.sunk == l.sunk
  {
    ghost var p;
    ghost var incoming, out, takes := src.incoming, link.conn.outgoing, link.conn.Takes();
    n, stop, p := FillOnce(src, link, nonce, buf);
    if n == 0 {
      assert p.body == [] && incoming == src.incoming;
      steps, m := StopPath(link.aead, l, e, incoming, src.isOpen, src.ending, stop.value);
      assert link.conn.outgoing[|out|..] == [];
    } else {
      steps, m := ChunkPath(link.aead, l, e, incoming, src.incoming, p, takes);
      assert link.conn.outgoing[|out|..] == Fit(Frame(link.aead, p), takes);
    }
  }

  lemma StopPath(a: Aead, l: L.Lane, e: L.Ends, incoming: bytes, isOpen: bool, ending: Ending, why: Stop)
    returns (steps: seq<L.Step>, m: L.Lane)
    requires AtFill(l, e, incoming, isOpen, e.writer) && (isOpen ==> incoming == [])
    requires why == StopFor(if isOpen then Short(0, ending) else Broken)
    ensures L.LanePath(a, l, e, steps, m) && m == l.(sender := L.SenderDone(why, []))
  {
    steps := [L.StopReading(why)];
    One(a, l, e, L.StopReading(why));
    m := L.Apply(a, l, e, L.StopReading(why));
  }

  lemma ChunkPath(a: Aead, l: L.Lane, e: L.Ends, incoming: bytes, rest: bytes, p: Packet, takes: nat)
    returns (steps: seq<L.Step>, m: L.Lane)
    requires AtFill(l, e, incoming, true, e.writer) && incoming == p.body + rest
    requires |p.nonce| == NONCE && 1 <= |p.body| <= CHUNK && (takes > 0 ==> e.writer)
    ensures L.LanePath(a, l, e, steps, m)
    ensures m.supply == l.supply && m.taken == l.taken + |p.body| <= |l.supply| && m.supply[m.taken..] == rest
    ensures m.receiver == l.receiver && m.sunk == l.sunk && !m.chan.cut
    ensures m.chan.wire == l.chan.wire + Fit(Frame(a, p), takes)
    ensures if |Frame(a, p)| > takes then m.sender == L.SenderDone(WriteFailed, [])
            else m.sender.Reading? && m.chan.tail == []
  {
    var k := |p.body|;
    TakesChunk(l.supply, l.taken, p.body, rest);
    One(a, l, e, L.Read(k, None));
    var l1 := L.Apply(a, l, e, L.Read(k, None));
    assert l1 == l.(taken := l.taken + k, sender := L.Holding(p.body, None));
    hide Frame, L.LanePath;
    var more;
    more, m := WritePath(a, l1, e, p, takes);
    PathThen(a, l, e, [L.Read(k, None)], l1, more, m);
    steps := [L.Read(k, None)] + more;
  }

  lemma TakesChunk(supply: bytes, taken: nat, chunk: bytes, rest: bytes)
    requires taken <= |supply| && supply[taken..] == chunk + rest
    ensures taken + |chunk| <= |supply| && supply[taken..taken + |chunk|] == chunk
    ensures supply[taken + |chunk|..] == rest
  {
    assert supply[taken..][..|chunk|] == chunk && supply[taken..][|chunk|..] == rest;
  }

  // ---------- the draining pump ----------

  /** The draining side of a direction is where the code is at the top of its loop; what still arrives is in transit,
      and the link ends orderly exactly if the other side has closed it and nothing was lost. */
  predicate AtDrain(l: L.Lane, e: L.Ends, incoming: bytes, ending: Ending, linkOpen: bool, sinkOpen: bool) {
    && l.receiver.Waiting? && l.chan.part == [] && l.chan.wire == incoming
    && (ending == Closes ==> !e.writer && !l.chan.cut)
    && e.draining && e.collecting && e.reader == linkOpen && e.sink == sinkOpen
  }

  /** Where the running frame ends in `s`, as far as `s` tells. */
  function FrameEnd(s: bytes): nat {
    if |s| < HEAD then HEAD else HEAD + BE16(s[24], s[25])
  }

  function Collected(l: L.Lane, s: bytes, k: nat): L.Lane
    requires k <= |s|
  {
    l.(chan := l.chan.(part := s[..k], wire := s[k..]))
  }

  /** Any part of the running frame that has arrived can be collected. */
  lemma {:induction false} Collect(a: Aead, l: L.Lane, e: L.Ends, s: bytes, k: nat) returns (steps: seq<L.Step>)
    requires l.receiver.Waiting? && l.chan.part == [] && l.chan.wire == s && e.collecting && e.reader
    requires k <= |s| && k <= FrameEnd(s)
    ensures L.LanePath(a, l, e, steps, Collected(l, s, k))
  {
    if k == 0 {
      steps := [];
      assert s[..0] == [] && s[0..] == s;
    } else {
      var before := Collect(a, l, e, s, k - 1);
      var m := Collected(l, s, k - 1);
      PullsNext(a, m, e, l, s, k);
      One(a, m, e, L.Pull(1));
      hide L.LanePath;
      PathThen(a, l, e, before, m, [L.Pull(1)], Collected(l, s, k));
      steps := before + [L.Pull(1)];
    }
  }

  lemma PullsNext(a: Aead, m: L.Lane, e: L.Ends, l: L.Lane, s: bytes, k: nat)
    requires l.receiver.Waiting? && e.collecting && e.reader && 1 <= k <= |s| && k <= FrameEnd(s)
    requires m == Collected(l, s, k - 1)
    ensures L.Enabled(m, e, L.Pull(1)) && L.Apply(a, m, e, L.Pull(1)) == Collected(l, s, k)
  {
    var part := s[..k - 1];
    assert k > HEAD ==> part[24] == s[24] && part[25] == s[25];
    assert part + s[k - 1..][..1] == s[..k] && s[k - 1..][1..] == s[k..];
  }

  /** A payload read whole is passed on as far as the sink takes it; a write cut short ends the pump. */
  lemma DeliverPath(a: Aead, l: L.Lane, e: L.Ends, piece: bytes, takes: nat) returns (steps: seq<L.Step>, m: L.Lane)
    requires l.receiver == L.Delivering(piece) && (takes > 0 ==> e.sink) && piece != []
    ensures L.LanePath(a, l, e, steps, m)
    ensures m == l.(receiver := m.receiver, sunk := l.sunk + Fit(piece, takes))
    ensures if |piece| > takes then m.receiver.ReceiverDone? && m.receiver.stop == WriteFailed
            else m.receiver.Waiting?
  {
    if |piece| <= takes {
      steps := [L.Deliver];
      One(a, l, e, L.Deliver);
      m := L.Apply(a, l, e, L.Deliver);
    } else {
      steps := [L.FailDeliver(takes)];
      One(a, l, e, L.FailDeliver(takes));
      m := L.Apply(a, l, e, L.FailDeliver(takes));
    }
  }

  /** A frame that has arrived whole: collected, decoded, passed on. */
  lemma GotPath(a: Aead, l: L.Lane, e: L.Ends, s: bytes, ending: Ending, takes: nat)
    returns (steps: seq<L.Step>, m: L.Lane)
    requires AtDrain(l, e, s, ending, true, e.sink) && ReadFrame(a, s, ending).Got? && (takes > 0 ==> e.sink)
    ensures L.LanePath(a, l, e, steps, m)
    ensures var r := ReadFrame(a, s, ending);
            var piece := Fit(r.body, CHUNK);
            && m.sunk == l.sunk + Fit(piece, takes) && m.chan.wire == r.rest && m.chan.part == []
            && m.chan.cut == l.chan.cut && m.sender == l.sender && m.supply == l.supply && m.taken == l.taken
            && (if |piece| > takes then m.receiver.ReceiverDone? && m.receiver.stop == WriteFailed
                else m.receiver.Waiting?)
  {
    var k := FrameEnd(s);
    var collecting := Collect(a, l, e, s, k);
    var l1 := Collected(l, s, k);
    WholeFrame(a, l1, e, s, ending);
    One(a, l1, e, L.Decode);
    var l2 := L.Apply(a, l1, e, L.Decode);
    hide L.LanePath, ReadFrame, L.Apply, L.Enabled;
    PathThen(a, l, e, collecting, l1, [L.Decode], l2);
    steps, m := collecting + [L.Decode], l2;
    if l2.receiver.Delivering? {
      var more;
      more, m := DeliverPath(a, l2, e, l2.receiver.rest, takes);
      PathThen(a, l, e, steps, l2, more, m);
      steps := steps + more;
    }
  }

  lemma WholeFrame(a: Aead, l: L.Lane, e: L.Ends, s: bytes, ending: Ending)
    requires |s| >= HEAD && |s| >= FrameEnd(s) && l == Collected(l, s, FrameEnd(s)) && l.receiver.Waiting? && e.draining
    ensures L.Enabled(l, e, L.Decode)
    ensures var r := ReadFrame(a, s, ending);
            var m := L.Apply(a, l, e, L.Decode);
            && r.rest == l.chan.wire
            && (r.Got? ==>
                  var piece := Fit(r.body, CHUNK);
                  m == l.(chan := l.chan.Decode(), receiver := if piece == [] then L.Waiting else L.Delivering(piece)))
            && (r.Failed? ==> m.receiver == L.ReceiverDone(ReadFailed, []) && r.fault == Forged
                              && m == l.(receiver := m.receiver))
  {
    var part := s[..FrameEnd(s)];
    assert l.chan.part == part && part[24] == s[24] && part[25] == s[25];
    assert part[..NONCE] == s[..NONCE] && part[HEAD..] == s[HEAD..FrameEnd(s)];
  }

  /** A read that fails: the end closed on this side, a frame cut short by whatever ends the link, or one that does not
      open. */
  lemma FailPath(a: Aead, l: L.Lane, e: L.Ends, s: bytes, ending: Ending) returns (steps: seq<L.Step>, m: L.Lane)
    requires AtDrain(l, e, s, ending, e.reader, e.sink) && Outcome(a, e.reader, s, ending).Failed?
    ensures L.LanePath(a, l, e, steps, m)
    ensures var r := Outcome(a, e.reader, s, ending);
            && m.receiver == L.ReceiverDone(StopFor(r.fault), []) && m.chan.wire == r.rest
            && m.sunk == l.sunk && m.sender == l.sender && m.supply == l.supply && m.taken == l.taken
  {
    if !e.reader {
      steps := [L.StopReceiving(ReadFailed)];
      One(a, l, e, L.StopReceiving(ReadFailed));
      m := L.Apply(a, l, e, L.StopReceiving(ReadFailed));
    } else if |s| >= HEAD && |s| >= FrameEnd(s) {
      var k := FrameEnd(s);
      var collecting := Collect(a, l, e, s, k);
      var l1 := Collected(l, s, k);
      WholeFrame(a, l1, e, s, ending);
      One(a, l1, e, L.Decode);
      m := L.Apply(a, l1, e, L.Decode);
      PathThen(a, l, e, collecting, l1, [L.Decode], m);
      steps := collecting + [L.Decode];
    } else {
      var collecting := Collect(a, l, e, s, |s|);
      var l1 := Collected(l, s, |s|);
      var why := StopFor(ReadFrame(a, s, ending).fault);
      ShortFrame(a, l1, e, s, ending, why);
      One(a, l1, e, L.StopReceiving(why));
      m := L.Apply(a, l1, e, L.StopReceiving(why));
      PathThen(a, l, e, collecting, l1, [L.StopReceiving(why)], m);
      steps := collecting + [L.StopReceiving(why)];
    }
  }

  lemma ShortFrame(a: Aead, l: L.Lane, e: L.Ends, s: bytes, ending: Ending, why: Stop)
    requires |s| < HEAD || |s| < FrameEnd(s)
    requires l == Collected(l, s, |s|) && l.receiver.Waiting? && e.draining && e.reader
    requires ending == Closes ==> !e.writer && !l.chan.cut
    requires ReadFrame(a, s, ending).Failed? && why == StopFor(ReadFrame(a, s, ending).fault)
    ensures L.Enabled(l, e, L.StopReceiving(why)) && ReadFrame(a, s, ending).rest == []
  {
    assert l.chan.part == s && l.chan.wire == [];
  }

  /** One turn of the draining loop, followed along a direction in the same way. */
  method DrainAlong(link: SecureConn, dst: NetConn, buf: array<byte>, ghost l: L.Lane, ghost e: L.Ends)
    returns (n: nat, stop: Option<Stop>, ghost steps: seq<L.Step>, ghost m: L.Lane)
    requires dst != link.conn && buf.Length == 1024
    requires AtDrain(l, e, link.conn.incoming, link.conn.ending, link.conn.isOpen, dst.isOpen)
    modifies link.conn`incoming, dst`outgoing, dst`room, buf
    ensures L.LanePath(link.aead, l, e, steps, m)
    ensures stop.None? ==> AtDrain(m, e, link.conn.incoming, link.conn.ending, link.conn.isOpen, dst.isOpen)
    ensures stop.Some? ==> m.receiver.ReceiverDone? && m.receiver.stop == stop.value
    ensures old(dst.outgoing) <= dst.outgoing && m.sunk == l.sunk + dst.outgoing[|old(dst.outgoing)|..]
    ensures m.chan.wire == link.conn.incoming
    ensures m.sender == l.sender && m.supply == l.supply && m.taken == l.taken
  {
    ghost var s, out, takes := link.conn.incoming, dst.outgoing, dst.Takes();
    ghost var r := Outcome(link.aead, link.conn.isOpen, s, link.conn.ending);
    n, stop := DrainOnce(link, dst, buf);
    hide L.LanePath, ReadFrame;
    assert dst.outgoing[|out|..] == Fit(Piece(r), takes);
    if r.Got? {
      steps, m := GotPath(link.aead, l, e, s, link.conn.ending, takes);
    } else {
      steps, m := FailPath(link.aead, l, e, s, link.conn.ending);
      assert l.sunk + [] == l.sunk;
    }
  }
}
