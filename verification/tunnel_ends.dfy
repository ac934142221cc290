/** What ends a TCP tunnel from outside: a handler that returns, after its minute or with its context cancelled, and
    bytes lost on the link. */
module TunnelEnds {
  import opened Bytes
  import opened Frames
  import opened Link
  import opened TcpTunnel
  import L = Lane

  // ---------- a handler returns ----------

  /** With the filling side's ends closed nothing more is read or put in transit. */
  lemma FillingClosed(a: Aead, l: L.Lane, e: L.Ends, step: L.Step)
    requires L.Enabled(l, e, step) && !e.source && !e.writer
    ensures var m := L.Apply(a, l, e, step); m.taken == l.taken && |m.chan.wire| <= |l.chan.wire|
  {
  }

  /** With the sink's end closed it gets nothing more. */
  lemma SinkClosed(a: Aead, l: L.Lane, e: L.Ends, step: L.Step)
    requires L.Enabled(l, e, step) && !e.sink
    ensures L.Apply(a, l, e, step).sunk == l.sunk
  {
    if step.FailDeliver? {
      assert l.receiver.rest[..0] == [] && l.sunk + [] == l.sunk;
    }
  }

  lemma SocksClosedStep(a: Aead, s: State, act: Action)
    requires s.socksExited && Enabled(s, act)
    ensures var t := Apply(a, s, act);
            t.socksExited && t.up.taken == s.up.taken && |t.up.chan.wire| <= |s.up.chan.wire|
            && t.down.sunk == s.down.sunk
  {
    hide L.Enabled, L.Apply;
    match act
    case Up(step) => FillingClosed(a, s.up, UpEnds(s), step);
    case Down(step) => SinkClosed(a, s.down, DownEnds(s), step);
    case _ =>
  }

  lemma RelayClosedStep(a: Aead, s: State, act: Action)
    requires s.relayExited && Enabled(s, act)
    ensures var t := Apply(a, s, act);
            t.relayExited && t.down.taken == s.down.taken && |t.down.chan.wire| <= |s.down.chan.wire|
            && t.up.sunk == s.up.sunk
  {
    hide L.Enabled, L.Apply;
    match act
    case Up(step) => SinkClosed(a, s.up, UpEnds(s), step);
    case Down(step) => FillingClosed(a, s.down, DownEnds(s), step);
    case _ =>
  }

  lemma {:induction false} SocksSealed(a: Aead, s: State, acts: seq<Action>, t: State)
    requires s.socksExited && Path(a, s, acts, t)
    ensures t.up.taken == s.up.taken && |t.up.chan.wire| <= |s.up.chan.wire| && t.down.sunk == s.down.sunk
    decreases |acts|
  {
    hide Enabled, Apply;
    if acts != [] {
      SocksClosedStep(a, s, acts[0]);
      SocksSealed(a, Apply(a, s, acts[0]), acts[1..], t);
    }
  }

  lemma {:induction false} RelaySealed(a: Aead, s: State, acts: seq<Action>, t: State)
    requires s.relayExited && Path(a, s, acts, t)
    ensures t.down.taken == s.down.taken && |t.down.chan.wire| <= |s.down.chan.wire| && t.up.sunk == s.up.sunk
    decreases |acts|
  {
    hide Enabled, Apply;
    if acts != [] {
      RelayClosedStep(a, s, acts[0]);
      RelaySealed(a, Apply(a, s, acts[0]), acts[1..], t);
    }
  }

  /** Either handler may return at any moment, whatever is still under way; from then on its own peer gets and is asked
      for not one byte more, and the link no byte from this side. */
  lemma ExitsSeal(a: Aead, s: State)
    ensures !s.socksExited ==>
              && Enabled(s, ExitSocks)
              && forall acts, t :: Path(a, Apply(a, s, ExitSocks), acts, t) ==>
                   t.up.taken == s.up.taken && |t.up.chan.wire| <= |s.up.chan.wire| && t.down.sunk == s.down.sunk
    ensures s.phase.Pumping? && !s.relayExited ==>
              && Enabled(s, ExitRelay)
              && forall acts, t :: Path(a, Apply(a, s, ExitRelay), acts, t) ==>
                   t.down.taken == s.down.taken && |t.down.chan.wire| <= |s.down.chan.wire| && t.up.sunk == s.up.sunk
  {
    hide Path;
    if !s.socksExited {
      forall acts, t | Path(a, Apply(a, s, ExitSocks), acts, t)
        ensures t.up.taken == s.up.taken && |t.up.chan.wire| <= |s.up.chan.wire| && t.down.sunk == s.down.sunk
      {
        SocksSealed(a, Apply(a, s, ExitSocks), acts, t);
      }
    }
    if s.phase.Pumping? && !s.relayExited {
      forall acts, t | Path(a, Apply(a, s, ExitRelay), acts, t)
        ensures t.down.taken == s.down.taken && |t.down.chan.wire| <= |s.down.chan.wire| && t.up.sunk == s.up.sunk
      {
        RelaySealed(a, Apply(a, s, ExitRelay), acts, t);
      }
    }
  }

  // ---------- the link loses bytes ----------

  /** Nothing of this direction is with the reader or will get there. */
  predicate Severed(l: L.Lane) {
    l.chan.cut && l.chan.wire == [] && l.chan.part == [] && (l.receiver.Waiting? || l.receiver.ReceiverDone?)
  }

  lemma SeveredStep(a: Aead, l: L.Lane, e: L.Ends, step: L.Step)
    requires L.Enabled(l, e, step) && Severed(l)
    ensures var m := L.Apply(a, l, e, step); Severed(m) && m.sunk == l.sunk
  {
    hide Frame;
  }

  lemma {:induction false} SeveredStays(a: Aead, s: State, acts: seq<Action>, t: State)
    requires Severed(s.down) && Path(a, s, acts, t)
    ensures Severed(t.down) && t.down.sunk == s.down.sunk
    decreases |acts|
  {
    hide Enabled, Apply, Severed;
    if acts != [] {
      if acts[0].Down? {
        DownOnly(a, s, acts[0].step);
        SeveredStep(a, s.down, DownEnds(s), acts[0].step);
      } else {
        DownSame(a, s, acts[0]);
      }
      SeveredStays(a, Apply(a, s, acts[0]), acts[1..], t);
    }
  }

  lemma DownOnly(a: Aead, s: State, step: L.Step)
    requires Enabled(s, Down(step))
    ensures L.Enabled(s.down, DownEnds(s), step)
    ensures Apply(a, s, Down(step)).down == L.Apply(a, s.down, DownEnds(s), step)
  {
    hide L.Enabled, L.Apply;
  }

  /** The pump does not notice: its write of a frame whose first bytes are lost goes through. */
  lemma LosesUnnoticed(a: Aead, l: L.Lane, e: L.Ends) returns (steps: seq<L.Step>, n: L.Lane)
    requires e.writer && l.sender == L.Writing(None) && l.receiver.Waiting?
    requires |l.chan.wire| == NONCE && l.chan.part == []
    ensures L.LanePath(a, l, e, steps, n)
    ensures Severed(n) && n.sender.Reading? && n.receiver.Waiting? && n.taken == l.taken && n.sunk == l.sunk
  {
    var l1 := L.Apply(a, l, e, L.Cut(0));
    n := L.Apply(a, l1, e, L.Swallow);
    hide L.Apply, L.Enabled;
    assert L.LanePath(a, n, e, [], n);
    L.PathOne(a, l1, e, L.Swallow, [], n);
    L.PathOne(a, l, e, L.Cut(0), [L.Swallow] + [], n);
    steps := [L.Cut(0)] + ([L.Swallow] + []);
  }

  /** A loss on the link goes unnoticed: from every initial state with a usable address and a target that sends
      anything, some run after which the relay's pump is back at reading, with a byte read that the client lacks, and
      neither this byte nor any other ever gets to the client. */
  lemma LossGoesUnnoticed(a: Aead, s: State) returns (states: seq<State>, acts: seq<Action>)
    requires Lawful(a) && Init(a, s) && s.addr != [] && s.down.supply != []
    ensures IsRun(a, states, acts) && states[0] == s
    ensures var t := states[|acts|];
            && t.down.sender.Reading? && t.down.receiver.Waiting? && t.down.taken == 1
            && forall more, u :: Path(a, t, more, u) ==> u.down.sunk == []
  {
    InitInv(a, s);
    InitIsSmooth(a, s, Downward);
    var idle := L.Lane(s.down.supply, 0, L.Reading, Channel([], 0, [], [], [], false), L.Waiting, []);
    assert s.down == idle;
    hide Inv, Smooth, Init, Untouched, Path;
    var dialling, t0 := CanDial(a, s);
    PumpingEnds(a, t0);
    var m, writing := L.WritesNonce(a, t0.down, DownEnds(t0));
    var losing, n := LosesUnnoticed(a, m, DownEnds(t0));
    var first := DownPath(a, t0, writing, m);
    var t1 := t0.(down := m);
    assert DownEnds(t1) == DownEnds(t0);
    var second := DownPath(a, t1, losing, n);
    var t2 := t1.(down := n);
    PathThen(a, t0, first, t1, second, t2);
    PathThen(a, s, dialling, t0, first + second, t2);
    acts := dialling + (first + second);
    states := Trace(a, s, acts, t2);
    forall more, u | Path(a, t2, more, u)
      ensures u.down.sunk == []
    {
      SeveredStays(a, t2, more, u);
    }
  }
}
