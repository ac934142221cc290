/** The loops of a UDP association as code against its steps: what one turn of a goroutine or of the relay does is what
    some path of steps does. */
module UdpSteps {
  import opened Bytes
  import opened Constants
  import opened Frames
  import opened Link
  import opened SecureChannel
  import opened UdpHeader
  import opened UdpAssociation
  import opened UdpStops
  import P = PumpSteps
  import R = UdpRelay
  import H = UdpHandler

  lemma {:induction false} Both(a: Aead, s: State, steps: seq<Step>, t: State, more: seq<Step>, u: State)
    requires AnyPath(a, s, steps, t) && AnyPath(a, t, more, u)
    ensures AnyPath(a, s, steps + more, u)
    decreases |steps|
  {
    hide Enabled, Apply;
    if steps == [] {
      assert steps + more == more;
    } else {
      Both(a, Apply(a, s, steps[0]), steps[1..], t, more, u);
      assert (steps + more)[1..] == steps[1..] + more;
    }
  }

  lemma Then(a: Aead, s: State, steps: seq<Step>, t: State, step: Step)
    requires AnyPath(a, s, steps, t) && Enabled(t, step)
    ensures AnyPath(a, s, steps + [step], Apply(a, t, step))
  {
    hide Enabled, Apply;
    Stay(a, Apply(a, t, step));
    assert [step][1..] == [];
    Both(a, s, steps, t, [step], Apply(a, t, step));
  }

  lemma Stay(a: Aead, s: State)
    ensures AnyPath(a, s, [], s)
  {
  }

  /** What a link gets of a frame, seen from its end and from the wire. */
  lemma FitBehind(out: bytes, f: bytes, takes: nat)
    ensures var all := Fit(out + f, |out| + takes);
            out <= all && all[|out|..] == Fit(f, takes) && (all == out + f <==> |f| <= takes)
  {
    if |f| <= takes {
      assert Fit(out + f, |out| + takes) == out + f && Fit(f, takes) == f;
    } else {
      assert Fit(out + f, |out| + takes) == out + f[..takes];
    }
  }

  // ---------- reading a frame ----------

  /** The channel with the first `k` of the arriving bytes collected. */
  function Took(c: Channel, s: bytes, k: nat): Channel
    requires k <= |s|
  {
    c.(part := s[..k], wire := s[k..])
  }

  lemma PullNext(c: Channel, s: bytes, k: nat)
    requires 1 <= k <= |s| && k <= P.FrameEnd(s)
    ensures var m := Took(c, s, k - 1); m.CanPull(1) && m.Pull(1) == Took(c, s, k)
  {
    var part := s[..k - 1];
    assert k > HEAD ==> part[24] == s[24] && part[25] == s[25];
    assert part + s[k - 1..][..1] == s[..k] && s[k - 1..][1..] == s[k..];
  }

  /** How many bytes a read collects: the whole frame, or whatever there is. */
  function Reach(s: bytes): (k: nat)
    ensures k <= |s|
  {
    if P.FrameEnd(s) <= |s| then P.FrameEnd(s) else |s|
  }

  /** A read of the code is: collect, and decode if the frame is whole. */
  lemma ReadsReach(a: Aead, c: Channel, s: bytes, ending: Ending)
    ensures var m := Took(c, s, Reach(s));
            var r := ReadFrame(a, s, ending);
            && r.rest == m.wire
            && (Complete(m.part) <==> P.FrameEnd(s) <= |s|)
            && (r.Got? <==> Complete(m.part) && m.Opened(a).Some?)
            && (r.Got? ==> m.Opened(a) == Some(r.body))
  {
    if P.FrameEnd(s) <= |s| {
      var part := s[..P.FrameEnd(s)];
      assert part[24] == s[24] && part[25] == s[25];
      assert part[..NONCE] == s[..NONCE] && part[HEAD..] == s[HEAD..P.FrameEnd(s)];
    } else if |s| >= HEAD {
      assert s[..|s|] == s;
    }
  }

  lemma {:induction false} ReturnerCollects(a: Aead, s: State, k: nat) returns (steps: seq<Step>)
    requires s.r.RReading? && s.down.part == [] && k <= Reach(s.down.wire)
    ensures AnyPath(a, s, steps, s.(down := Took(s.down, s.down.wire, k)))
  {
    var wire := s.down.wire;
    if k == 0 {
      steps := [];
      assert wire[..0] == [] && wire[0..] == wire;
    } else {
      var before := ReturnerCollects(a, s, k - 1);
      PullNext(s.down, wire, k);
      Then(a, s, before, s.(down := Took(s.down, wire, k - 1)), RPull(1));
      steps := before + [RPull(1)];
    }
  }

  lemma {:induction false} RelayCollects(a: Aead, s: State, k: nat) returns (steps: seq<Step>)
    requires s.y.YReading? && s.up.part == [] && k <= Reach(s.up.wire)
    ensures AnyPath(a, s, steps, s.(up := Took(s.up, s.up.wire, k)))
  {
    var wire := s.up.wire;
    if k == 0 {
      steps := [];
      assert wire[..0] == [] && wire[0..] == wire;
    } else {
      var before := RelayCollects(a, s, k - 1);
      PullNext(s.up, wire, k);
      Then(a, s, before, s.(up := Took(s.up, wire, k - 1)), YPull(1));
      steps := before + [YPull(1)];
    }
  }

  // ---------- the forwarding goroutine ----------

  /** The forwarding goroutine of `s` is where the code is at the top of its loop. */
  predicate AtForward(s: State, clientAddr: Option<Addr>, held: bool) {
    s.f.FReading? && s.up.tail == [] && !s.up.cut && s.clientAddr == clientAddr && (s.mutex.Some? <==> held)
  }

  lemma ForwarderSteps(a: Aead, s: State)
    ensures s.f.FLocking? && s.mutex == None ==>
              Enabled(s, FLock)
              && Apply(a, s, FLock) == s.(f := FSetting(s.f.from, s.f.data), mutex := Some(Forwarding))
    ensures s.f.FSetting? ==>
              Enabled(s, FSet)
              && Apply(a, s, FSet) == s.(f := FUnlocking(s.f.data),
                                         clientAddr := if s.clientAddr == None then Some(s.f.from) else s.clientAddr)
    ensures s.f.FUnlocking? ==>
              Enabled(s, FUnlock) && Apply(a, s, FUnlock) == s.(f := FStarting(s.f.data), mutex := None)
    ensures s.f.FReading? || s.f.FStarting? || s.f.FWriting? ==>
              Enabled(s, FStop) && Apply(a, s, FStop) == s.(f := FDone)
  {
  }

  lemma Arrives(a: Aead, s: State, from: Addr, data: bytes)
    requires s.f.FReading?
    ensures Enabled(s, Datagram(from, data))
    ensures Apply(a, s, Datagram(from, data))
            == s.(f := FLocking(from, Fit(data, BLOCK_SIZE)), received := s.received + [(from, data)])
  {
  }

  lemma LockPath(a: Aead, s: State, from: Addr, data: bytes) returns (steps: seq<Step>, t: State)
    requires s.f.FReading? && s.mutex == None
    ensures AnyPath(a, s, steps, t)
    ensures t == s.(f := FStarting(Fit(data, BLOCK_SIZE)), received := s.received + [(from, data)],
                    clientAddr := if s.clientAddr == None then Some(from) else s.clientAddr)
  {
    Stay(a, s);
    hide AnyPath, Fit, Enabled, Apply;
    Arrives(a, s, from, data);
    Then(a, s, [], s, Datagram(from, data));
    steps, t := [] + [Datagram(from, data)], Apply(a, s, Datagram(from, data));
    ForwarderSteps(a, t);
    Then(a, s, steps, t, FLock);
    steps, t := steps + [FLock], Apply(a, t, FLock);
    ForwarderSteps(a, t);
    Then(a, s, steps, t, FSet);
    steps, t := steps + [FSet], Apply(a, t, FSet);
    ForwarderSteps(a, t);
    Then(a, s, steps, t, FUnlock);
    steps, t := steps + [FUnlock], Apply(a, t, FUnlock);
  }

  /** The write of a frame, as far as the link takes it. */
  lemma ForwardWrites(a: Aead, s: State, before: seq<Step>, t0: State, nonce: bytes, takes: nat)
    returns (steps: seq<Step>, t: State)
    requires AnyPath(a, s, before, t0) && t0.f.FStarting? && |t0.f.data| <= BLOCK_SIZE && |nonce| == NONCE
    requires t0.up.tail == [] && !t0.up.cut
    ensures AnyPath(a, s, steps, t)
    ensures var f := Frame(a, Packet(nonce, t0.f.data));
            && t == t0.(f := if |f| <= takes then FReading else FDone, up := t.up)
            && t.up.wire == t0.up.wire + Fit(f, takes) && !t.up.cut && (|f| <= takes ==> t.up.tail == [])
            && t.up.part == t0.up.part && t.up.got == t0.up.got
  {
    var f := Frame(a, Packet(nonce, t0.f.data));
    FrameIsSome(a, Packet(nonce, t0.f.data));
    hide AnyPath, Frame;
    if takes == 0 {
      Then(a, s, before, t0, FStop);
      steps, t := before + [FStop], Apply(a, t0, FStop);
    } else {
      Then(a, s, before, t0, FBegin(nonce));
      var t1 := Apply(a, t0, FBegin(nonce));
      var k := Min(|f|, takes);
      assert t1.up.tail == f;
      Then(a, s, before + [FBegin(nonce)], t1, FEmit(k));
      steps, t := before + [FBegin(nonce)] + [FEmit(k)], Apply(a, t1, FEmit(k));
      if k < |f| {
        Then(a, s, steps, t, FStop);
        steps, t := steps + [FStop], Apply(a, t, FStop);
      }
    }
  }

  lemma BlockFits(data: bytes)
    ensures |Fit(data, BLOCK_SIZE)| <= BLOCK_SIZE
  {
  }

  /** One turn of the forwarding loop, followed along the steps of an association that stands where the code stands. */
  method ForwardAlong(assoc: H.Association, nonce: bytes, ghost s: State)
    returns (turn: H.Turn, ghost steps: seq<Step>, ghost t: State)
    requires |nonce| == NONCE && AtForward(s, assoc.clientAddr, assoc.clientAddrMu.held)
    modifies assoc`clientAddr, assoc.clientAddrMu, assoc.udpConn`inbox
    modifies assoc.remoteConn.conn`outgoing, assoc.remoteConn.conn`room
    ensures AnyPath(assoc.remoteConn.aead, s, steps, t)
    ensures t == s.(f := t.f, up := t.up, clientAddr := t.clientAddr, received := t.received)
    ensures t.clientAddr == assoc.clientAddr && (t.mutex.Some? <==> assoc.clientAddrMu.held)
    ensures var was := old(assoc.udpConn.inbox);
            t.received == s.received + if was == [] then [] else was[..1]
    ensures old(assoc.remoteConn.conn.outgoing) <= assoc.remoteConn.conn.outgoing
    ensures t.up.wire == s.up.wire + assoc.remoteConn.conn.outgoing[|old(assoc.remoteConn.conn.outgoing)|..]
    ensures match turn
            case GoesOn => AtForward(t, assoc.clientAddr, assoc.clientAddrMu.held)
            case Stops => t.f.FDone?
            case Waits => t.f.FLocking? && t.mutex.Some?
  {
    ghost var a, waiting := assoc.remoteConn.aead, assoc.udpConn.inbox;
    ghost var out, takes := assoc.remoteConn.conn.outgoing, assoc.remoteConn.conn.Takes();
    turn := assoc.ForwardOnce(nonce);
    Stay(a, s);
    hide AnyPath, Frame, Fit, Enabled, Apply;
    ForwarderSteps(a, s);
    if waiting == [] {
      FitBehind(out, [], takes);
      Then(a, s, [], s, FStop);
      steps, t := [] + [FStop], Apply(a, s, FStop);
    } else if s.mutex.Some? {
      var (from, data) := waiting[0];
      FitBehind(out, [], takes);
      Arrives(a, s, from, data);
      Then(a, s, [], s, Datagram(from, data));
      steps, t := [] + [Datagram(from, data)], Apply(a, s, Datagram(from, data));
    } else {
      var (from, data) := waiting[0];
      var t0;
      FitBehind(out, Frame(a, Packet(nonce, Fit(data, BLOCK_SIZE))), takes);
      BlockFits(data);
      steps, t0 := LockPath(a, s, from, data);
      steps, t := ForwardWrites(a, s, steps, t0, nonce, takes);
    }
  }

  // ---------- the returning goroutine ----------

  /** The returning goroutine of `s` is where the code is at the top of its loop; what still arrives is in transit. */
  predicate AtReturn(s: State, clientAddr: Option<Addr>, held: bool, incoming: bytes) {
    && s.r.RReading? && s.down.part == [] && s.down.wire == incoming
    && s.clientAddr == clientAddr && (s.mutex.Some? <==> held)
  }

  /** Reading and parsing the next reply, or stopping. */
  lemma PayloadPath(a: Aead, s: State, ending: Ending) returns (steps: seq<Step>, t: State)
    requires s.r.RReading? && s.down.part == []
    ensures AnyPath(a, s, steps, t)
    ensures var r := ReadFrame(a, s.down.wire, ending);
            && t == s.(r := t.r, down := t.down)
            && t.r == (if H.Payload(r).Some? then RLocking(H.Payload(r).value) else RDone)
            && t.down.wire == r.rest && (H.Payload(r).Some? ==> t.down.part == [])
  {
    var k := Reach(s.down.wire);
    steps := ReturnerCollects(a, s, k);
    t := s.(down := Took(s.down, s.down.wire, k));
    ReadsReach(a, s.down, s.down.wire, ending);
    hide AnyPath, ReadFrame, Reach, Complete, Parse;
    var step := if Complete(t.down.part) then RDecode else RStop;
    Then(a, s, steps, t, step);
    steps, t := steps + [step], Apply(a, t, step);
  }

  lemma ReturnerSteps(a: Aead, s: State)
    ensures s.r.RLocking? && s.mutex == None ==>
              Enabled(s, RLock) && Apply(a, s, RLock) == s.(r := RChecking(s.r.payload), mutex := Some(Returning))
    ensures s.r.RChecking? ==>
              Enabled(s, RCheck)
              && Apply(a, s, RCheck) == s.(r := if s.clientAddr == None then RReading
                                                else RUnlocking(s.r.payload, s.clientAddr.value))
    ensures s.r.RUnlocking? ==>
              Enabled(s, RUnlock)
              && Apply(a, s, RUnlock) == s.(r := RBuilding(s.r.payload, s.r.current), mutex := None)
    ensures s.r.RReading? || s.r.RSending? ==> Enabled(s, RStop) && Apply(a, s, RStop) == s.(r := RDone)
  {
  }

  lemma Builds(a: Aead, s: State)
    requires s.r.RBuilding?
    ensures Enabled(s, RBuild) && Apply(a, s, RBuild) == s.(r := RSending(ForClient(s.r.current, s.r.payload)))
  {
    hide Build, HeaderBytes, AddrString, AddrHeader;
    BuildOfAddr(s.r.current);
  }

  lemma Sends(a: Aead, s: State)
    requires s.r.RSending? && s.clientAddr.Some?
    ensures Enabled(s, RSend)
    ensures Apply(a, s, RSend) == s.(r := RReading, returned := s.returned + [(s.clientAddr.value, s.r.packet)])
  {
  }

  /** From the reply's payload to the datagram, as far as the mutex, the client's address and the socket allow. */
  lemma SendPath(a: Aead, s: State, before: seq<Step>, t0: State, sends: bool) returns (steps: seq<Step>, t: State)
    requires AnyPath(a, s, before, t0) && t0.r.RLocking? && t0.mutex == None
    ensures AnyPath(a, s, steps, t)
    ensures t == match t0.clientAddr
                 case None => t0.(r := RReading, mutex := Some(Returning))
                 case Some(c) =>
                   if sends
                   then t0.(r := RReading, returned := t0.returned + [(c, ForClient(c, t0.r.payload))])
                   else t0.(r := RDone)
  {
    hide AnyPath, ForClient, Enabled, Apply;
    ReturnerSteps(a, t0);
    Then(a, s, before, t0, RLock);
    steps, t := before + [RLock], Apply(a, t0, RLock);
    ReturnerSteps(a, t);
    Then(a, s, steps, t, RCheck);
    steps, t := steps + [RCheck], Apply(a, t, RCheck);
    if t0.clientAddr.Some? {
      ReturnerSteps(a, t);
      Then(a, s, steps, t, RUnlock);
      steps, t := steps + [RUnlock], Apply(a, t, RUnlock);
      Builds(a, t);
      Then(a, s, steps, t, RBuild);
      steps, t := steps + [RBuild], Apply(a, t, RBuild);
      Sends(a, t);
      ReturnerSteps(a, t);
      var step := if sends then RSend else RStop;
      Then(a, s, steps, t, step);
      steps, t := steps + [step], Apply(a, t, step);
    }
  }

  /** One turn of the returning loop, followed in the same way. */
  method ReturnAlong(assoc: H.Association, ghost s: State)
    returns (turn: H.Turn, ghost steps: seq<Step>, ghost t: State)
    requires AtReturn(s, assoc.clientAddr, assoc.clientAddrMu.held, assoc.remoteConn.conn.incoming)
    modifies assoc.clientAddrMu, assoc.udpConn`sent, assoc.udpConn`room, assoc.remoteConn.conn`incoming
    ensures AnyPath(assoc.remoteConn.aead, s, steps, t)
    ensures t == s.(r := t.r, down := t.down, mutex := t.mutex, returned := t.returned)
    ensures t.down.wire == assoc.remoteConn.conn.incoming && (t.mutex.Some? <==> assoc.clientAddrMu.held)
    ensures old(assoc.udpConn.sent) <= assoc.udpConn.sent
    ensures t.returned == s.returned + assoc.udpConn.sent[|old(assoc.udpConn.sent)|..]
    ensures match turn
            case GoesOn => AtReturn(t, assoc.clientAddr, assoc.clientAddrMu.held, assoc.remoteConn.conn.incoming)
            case Stops => t.r.RDone?
            case Waits => t.r.RLocking? && t.mutex.Some?
  {
    ghost var a, conn := assoc.remoteConn.aead, assoc.remoteConn.conn;
    ghost var r := Outcome(a, conn.isOpen, conn.incoming, conn.ending);
    ghost var side := assoc.Here();
    hide Enabled, Apply, AnyPath, ReadFrame, H.Payload, ForClient, Build, HeaderBytes;
    if conn.isOpen {
      steps, t := PayloadPath(a, s, conn.ending);
    } else {
      Stay(a, s);
      ReturnerSteps(a, s);
      Then(a, s, [], s, RStop);
      steps, t := [] + [RStop], Apply(a, s, RStop);
    }
    turn := assoc.ReturnOnce();
    if H.Payload(r).Some? && !side.held {
      steps, t := SendPath(a, s, steps, t, side.room > 0);
    }
  }

  // ---------- the relay ----------

  /** The relay of `s` is where the code is at the top of its loop. */
  predicate AtServe(s: State, incoming: bytes) {
    s.y.YReading? && s.up.part == [] && s.up.wire == incoming && s.down.tail == [] && !s.down.cut
  }

  /** Reading and parsing the next request, or stopping. */
  lemma RequestPath(a: Aead, s: State, ending: Ending) returns (steps: seq<Step>, t: State)
    requires s.y.YReading? && s.up.part == []
    ensures AnyPath(a, s, steps, t)
    ensures var r := ReadFrame(a, s.up.wire, ending);
            var parsed := if r.Got? then Parse(Fit(r.body, BLOCK_SIZE)) else None;
            && t == s.(y := t.y, up := t.up)
            && t.y == (if parsed.Some? then YDialling(parsed.value.0, parsed.value.1) else YExited)
            && t.up.wire == r.rest && (parsed.Some? ==> t.up.part == [])
  {
    var k := Reach(s.up.wire);
    steps := RelayCollects(a, s, k);
    t := s.(up := Took(s.up, s.up.wire, k));
    ReadsReach(a, s.up, s.up.wire, ending);
    hide AnyPath, ReadFrame, Reach, Complete, Parse;
    var step := if Complete(t.up.part) then YDecode else YStop;
    Then(a, s, steps, t, step);
    steps, t := steps + [step], Apply(a, t, step);
  }

  /** The exchange with the target and the write of the reply, as far as the link takes it. */
  lemma ExchangePath(a: Aead, s: State, before: seq<Step>, t0: State, response: Option<bytes>, nonce: bytes,
                     takes: nat)
    returns (steps: seq<Step>, t: State)
    requires AnyPath(a, s, before, t0) && t0.y.YDialling? && WellFormed(t0.y.header) && |nonce| == NONCE
    requires t0.down.tail == [] && !t0.down.cut
    ensures AnyPath(a, s, steps, t)
    ensures t == t0.(y := t.y, down := t.down, targets := t0.targets + [(Dst(t0.y.header), t0.y.payload)],
                     responses := t0.responses + if response.Some? then [response.value] else [])
    ensures response.None? ==> t.y.YExited? && t.down == t0.down
    ensures response.Some? ==>
              var f := Frame(a, Packet(nonce, Reply(t0.y.header, response.value)));
              && t.y == (if |f| <= takes then YReading else YExited)
              && t.down.wire == t0.down.wire + Fit(f, takes) && !t.down.cut && (|f| <= takes ==> t.down.tail == [])
  {
    HeaderLength(t0.y.header);
    hide AnyPath, HeaderBytes, Dst;
    Then(a, s, before, t0, YDial);
    steps, t := before + [YDial], Apply(a, t0, YDial);
    if response.None? {
      Then(a, s, steps, t, YStop);
      steps, t := steps + [YStop], Apply(a, t, YStop);
    } else {
      Then(a, s, steps, t, YAnswer(response.value));
      steps, t := steps + [YAnswer(response.value)], Apply(a, t, YAnswer(response.value));
      steps, t := ReplyWrites(a, s, steps, t, nonce, takes);
    }
  }

  lemma ReplyWrites(a: Aead, s: State, before: seq<Step>, t0: State, nonce: bytes, takes: nat)
    returns (steps: seq<Step>, t: State)
    requires AnyPath(a, s, before, t0) && t0.y.YReplying? && |t0.y.packet| <= 1762 && |nonce| == NONCE
    requires t0.down.tail == [] && !t0.down.cut
    ensures AnyPath(a, s, steps, t)
    ensures var f := Frame(a, Packet(nonce, t0.y.packet));
            && t == t0.(y := if |f| <= takes then YReading else YExited, down := t.down)
            && t.down.wire == t0.down.wire + Fit(f, takes) && !t.down.cut && (|f| <= takes ==> t.down.tail == [])
  {
    var f := Frame(a, Packet(nonce, t0.y.packet));
    FrameIsSome(a, Packet(nonce, t0.y.packet));
    hide AnyPath, Frame;
    if takes == 0 {
      Then(a, s, before, t0, YStop);
      steps, t := before + [YStop], Apply(a, t0, YStop);
    } else {
      Then(a, s, before, t0, YBegin(nonce));
      steps, t := before + [YBegin(nonce)], Apply(a, t0, YBegin(nonce));
      var k := Min(|f|, takes);
      assert t.down.tail == f;
      Then(a, s, steps, t, YEmit(k));
      steps, t := steps + [YEmit(k)], Apply(a, t, YEmit(k));
      if k < |f| {
        Then(a, s, steps, t, YStop);
        steps, t := steps + [YStop], Apply(a, t, YStop);
      }
    }
  }

  lemma RelayStops(a: Aead, s: State)
    requires !s.y.YExited?
    ensures Enabled(s, YStop) && Apply(a, s, YStop) == s.(y := YExited)
  {
  }

  /** One turn of the relay's loop, the look at the context included, followed in the same way. */
  method ServeAlong(link: SecureConn, o: R.Outside, k: nat, ghost s: State)
    returns (ok: bool, ghost steps: seq<Step>, ghost t: State)
    requires link.conn.isOpen && |o.nonceAt(k)| == NONCE && AtServe(s, link.conn.incoming)
    modifies link.conn`incoming, link.conn`outgoing, link.conn`room
    ensures AnyPath(link.aead, s, steps, t)
    ensures t == s.(y := t.y, up := t.up, down := t.down, targets := t.targets, responses := t.responses)
    ensures t.up.wire == link.conn.incoming
    ensures old(link.conn.outgoing) <= link.conn.outgoing
    ensures t.down.wire == s.down.wire + link.conn.outgoing[|old(link.conn.outgoing)|..]
    ensures ok ==> AtServe(t, link.conn.incoming) && |t.targets| == |s.targets| + 1 && s.targets <= t.targets
                   && s.responses <= t.responses && |t.responses| == |s.responses| + 1
                   && var (where, payload) := t.targets[|s.targets|];
                      o.targets(k, where, payload) == Some(t.responses[|s.responses|])
    ensures !ok ==> t.y.YExited?
  {
    Stay(link.aead, s);
    hide AnyPath, Enabled, Apply, ReadFrame, Frame, Parse, Dst, Reply, Fit;
    RelayStops(link.aead, s);
    if o.done(k) {
      Then(link.aead, s, [], s, YStop);
      steps, t := [] + [YStop], Apply(link.aead, s, YStop);
      return false, steps, t;
    }
    ghost var a, r := link.aead, ReadFrame(link.aead, link.conn.incoming, link.conn.ending);
    ghost var out, takes := link.conn.outgoing, link.conn.room;
    steps, t := RequestPath(a, s, link.conn.ending);
    var reply;
    reply, ok := R.ServeOnce(link, o.targets, k, o.nonceAt(k));
    FitBehind(out, if reply.None? then [] else Frame(a, Packet(o.nonceAt(k), reply.value)), takes);
    if t.y.YDialling? {
      ghost var response := o.targets(k, Dst(t.y.header), t.y.payload);
      steps, t := ExchangePath(a, s, steps, t, response, o.nonceAt(k), takes);
    }
  }

  // ---------- losses ----------

  lemma {:induction false} Traced(a: Aead, states: seq<State>, steps: seq<Step>, more: seq<Step>, t: State)
    returns (states': seq<State>)
    requires IsRun(a, states, steps) && AnyPath(a, states[|steps|], more, t)
    ensures IsRun(a, states', steps + more) && states'[|steps + more|] == t
    decreases |more|
  {
    hide Init, Enabled, Apply;
    if more == [] {
      assert steps + more == steps;
      states' := states;
    } else {
      states' := Traced(a, states + [Apply(a, states[|steps|], more[0])], steps + [more[0]], more[1..], t);
      assert steps + more == steps + [more[0]] + more[1..];
    }
  }

  lemma Start(a: Aead) returns (s: State)
    ensures Init(s) && IsRun(a, [s], []) && AtForward(s, None, false) && AtServe(s, []) && s.r.RReading?
    ensures s.received == [] && s.returned == [] && s.responses == [] && s.targets == []
    ensures s.up == s.down == Channel([], 0, [], [], [], false)
  {
    var empty := Channel([], 0, [], [], [], false);
    s := State(FReading, RReading, YReading, None, None, empty, empty, [], [], [], []);
  }

  /** A loss on the link towards the relay goes unnoticed: for every sender and datagram, some run after which all three
      are back at reading and nothing can ever be given back. */
  lemma LostRequest(a: Aead, from: Addr, data: bytes, nonce: bytes) returns (states: seq<State>, steps: seq<Step>)
    requires Lawful(a) && |nonce| == NONCE
    ensures IsRun(a, states, steps)
    ensures var t := states[|steps|];
            && t.f.FReading? && t.r.RReading? && t.y.YReading? && t.received == [(from, data)]
            && forall n: nat :: CanHave(a, t, n) ==> n == 0
  {
    var s := Start(a);
    var locked, t0 := LockPath(a, s, from, data);
    BlockFits(data);
    var p := Packet(nonce, t0.f.data);
    FrameLength(a, p);
    hide AnyPath, Frame, Lawful, CanHave, IsRun;
    Then(a, s, locked, t0, FBegin(nonce));
    var path, t := locked + [FBegin(nonce)], Apply(a, t0, FBegin(nonce));
    Then(a, s, path, t, FEmit(1));
    path, t := path + [FEmit(1)], Apply(a, t, FEmit(1));
    Then(a, s, path, t, CutUp(0));
    path, t := path + [CutUp(0)], Apply(a, t, CutUp(0));
    Then(a, s, path, t, FSwallow);
    path, t := path + [FSwallow], Apply(a, t, FSwallow);
    assert [] + path == path;
    states := Traced(a, [s], [], path, t);
    steps := path;
    NothingTaken(a, t);
    RunAfterStop(a, states, steps, |steps|);
  }

  lemma NothingTaken(a: Aead, t: State)
    requires t.r.RReading? && t.y.YReading? && t.down.sent == [] && !t.down.cut && t.up.got == 0
    requires t.up.part == [] && t.up.wire == [] && t.up.sent != [] && |Frame(a, t.up.sent[0])| > 0
    ensures Most(a, t) == 0
  {
    hide Frame, Request;
  }

  /** From the start to the relay with a request in hand. */
  lemma Served(a: Aead, s: State, from: Addr, data: bytes, nonce: bytes) returns (path: seq<Step>, t: State)
    requires Lawful(a) && |nonce| == NONCE && Request(data).Some? && AtForward(s, None, false) && AtServe(s, [])
    requires s.received == []
    ensures AnyPath(a, s, path, t)
    ensures t == s.(f := FReading, y := t.y, up := t.up, clientAddr := Some(from), received := [(from, data)])
    ensures t.y.YDialling? && WellFormed(t.y.header)
  {
    var t0, read;
    path, t0 := LockPath(a, s, from, data);
    BlockFits(data);
    FitTwice(data);
    var p := Packet(nonce, t0.f.data);
    assert Frame(a, p) + [] == Frame(a, p) && [] + Frame(a, p) == Frame(a, p);
    path, t0 := ForwardWrites(a, s, path, t0, nonce, |Frame(a, p)|);
    assert t0.up.wire == Frame(a, p);
    ReadUndoesWrite(a, p, [], Closes);
    read, t := RequestPath(a, t0, Closes);
    hide AnyPath, Frame, Lawful, ReadFrame, Parse, Fit;
    Both(a, s, path, t0, read, t);
    path := path + read;
  }

  lemma AnswerPath(a: Aead, s: State, before: seq<Step>, t0: State, answer: bytes)
    returns (path: seq<Step>, t: State)
    requires AnyPath(a, s, before, t0) && t0.y.YDialling? && WellFormed(t0.y.header)
    requires |HeaderBytes(t0.y.header)| <= 262
    ensures AnyPath(a, s, path, t)
    ensures t == t0.(y := t.y, targets := t.targets, responses := t0.responses + [answer])
    ensures t.y.YReplying? && |t.y.packet| <= 1762
  {
    hide AnyPath, HeaderBytes, Dst;
    Then(a, s, before, t0, YDial);
    path, t := before + [YDial], Apply(a, t0, YDial);
    Then(a, s, path, t, YAnswer(answer));
    path, t := path + [YAnswer(answer)], Apply(a, t, YAnswer(answer));
  }

  lemma ReplyLost(a: Aead, s: State, before: seq<Step>, t0: State, nonce: bytes) returns (path: seq<Step>, t: State)
    requires AnyPath(a, s, before, t0) && t0.y.YReplying? && |t0.y.packet| <= 1762 && |nonce| == NONCE
    requires t0.down == Channel([], 0, [], [], [], false)
    ensures AnyPath(a, s, path, t) && t == t0.(y := YReading, down := t.down)
    ensures t.down.cut && t.down.got == 0 && t.down.part == [] && t.down.wire == [] && t.down.sent != []
    ensures |Frame(a, t.down.sent[0])| > 0
  {
    var p := Packet(nonce, t0.y.packet);
    FrameIsSome(a, p);
    hide AnyPath, Frame;
    Then(a, s, before, t0, YBegin(nonce));
    path, t := before + [YBegin(nonce)], Apply(a, t0, YBegin(nonce));
    Then(a, s, path, t, YEmit(1));
    path, t := path + [YEmit(1)], Apply(a, t, YEmit(1));
    Then(a, s, path, t, CutDown(0));
    path, t := path + [CutDown(0)], Apply(a, t, CutDown(0));
    Then(a, s, path, t, YSwallow);
    path, t := path + [YSwallow], Apply(a, t, YSwallow);
  }

  lemma NothingReturned(a: Aead, t: State)
    requires t.r.RReading? && t.returned == [] && t.down.cut && t.down.got == 0
    requires t.down.part == [] && t.down.wire == [] && t.down.sent != [] && |Frame(a, t.down.sent[0])| > 0
    ensures Most(a, t) == 0
  {
    hide Frame;
  }

  /** So does a loss on the link back: for every sender, readable datagram and answer, some run after which the target
      has answered, all three are back at reading and nothing can ever be given back. */
  lemma LostReply(a: Aead, from: Addr, data: bytes, answer: bytes, nonce: bytes)
    returns (states: seq<State>, steps: seq<Step>)
    requires Lawful(a) && |nonce| == NONCE && Request(data).Some?
    ensures IsRun(a, states, steps)
    ensures var t := states[|steps|];
            && t.f.FReading? && t.r.RReading? && t.y.YReading?
            && t.received == [(from, data)] && t.responses == [answer]
            && forall n: nat :: CanHave(a, t, n) ==> n == 0
  {
    var s := Start(a);
    var path, t := Served(a, s, from, data, nonce);
    HeaderLength(t.y.header);
    hide AnyPath, Frame, Lawful, CanHave, IsRun, Init, Parse, HeaderBytes, Dst, AtForward, AtServe, Most;
    hide Enabled, Apply, Made;
    path, t := AnswerPath(a, s, path, t, answer);
    path, t := ReplyLost(a, s, path, t, nonce);
    assert [] + path == path;
    states := Traced(a, [s], [], path, t);
    steps := path;
    NothingReturned(a, t);
    RunAfterStop(a, states, steps, |steps|);
  }
}
