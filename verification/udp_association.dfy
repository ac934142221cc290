/**
 A UDP association as a whole: on the SOCKS5 side a goroutine that forwards the client's datagrams and one that
 returns the replies, sharing the client's address under a mutex; on the relay a loop that serves one request at a
 time; between them the two directions of the link. A run is any interleaving of the steps below. Every I/O call may
 also fail or time out, which covers the closes the other side's exit causes; waiting for the mutex never fails.
 */
module UdpAssociation {
  import opened Bytes
  import opened Constants
  import opened Frames
  import opened Link
  import opened AddressText
  import opened UdpHeader

  datatype RawAddr = RawAddr(ip: bytes, port: nat)

  /** A client's UDP address. The listener is bound to 127.0.0.1, so it is always an IPv4 one. */
  type Addr = a: RawAddr | |a.ip| == 4 && a.port < 65536 witness RawAddr([127, 0, 0, 1], 0)

  function AddrHeader(a: Addr): (h: Header)
    ensures WellFormed(h)
  {
    Header(IPV4, a.ip, PutBE16(a.port))
  }

  /** net.UDPAddr.String. */
  function AddrString(a: Addr): bytes {
    Dst(AddrHeader(a))
  }

  /** What the relay sends back for a request: the request's own header and as much of the response as its one
      read of the target took. */
  function Reply(h: Header, response: bytes): bytes {
    HeaderBytes(h) + Fit(response, BLOCK_SIZE)
  }

  /** A datagram as the relay parses it, both reads cutting it to one block. */
  function Request(datagram: bytes): Option<(Header, bytes)> {
    Parse(Fit(datagram, BLOCK_SIZE))
  }

  /** Where the relay sends what, for a request it can parse. */
  function Target(datagram: bytes): (bytes, bytes) {
    var r := Request(datagram);
    if r.Some? then (Dst(r.value.0), r.value.1) else ([], [])
  }

  function ReplyTo(datagram: bytes, response: bytes): bytes {
    var r := Request(datagram);
    if r.Some? then Reply(r.value.0, response) else []
  }

  /** What is left of the response to `datagram` when the client gets it. */
  function Survives(datagram: bytes, response: bytes): bytes {
    var r := Request(datagram);
    if r.Some? then (HeaderLength(r.value.0); Fit(response, BLOCK_SIZE - |HeaderBytes(r.value.0)|)) else []
  }

  /** The datagram the client gets: a header naming its own address, then the payload. */
  function ForClient(to: Addr, payload: bytes): bytes {
    HeaderBytes(AddrHeader(to)) + payload
  }

  datatype Owner = Forwarding | Returning

  datatype Forwarder =
    | FReading
    | FLocking(from: Addr, data: bytes)
    | FSetting(from: Addr, data: bytes)
    | FUnlocking(data: bytes)
    | FStarting(data: bytes)
    | FWriting
    | FDone

  datatype Returner =
    | RReading
    | RLocking(payload: bytes)
    | RChecking(payload: bytes)
    | RUnlocking(payload: bytes, current: Addr)
    | RBuilding(payload: bytes, current: Addr)
    | RSending(packet: bytes)
    | RDone

  datatype Relay =
    | YReading
    | YDialling(header: Header, payload: bytes)
    | YAwaiting(header: Header)
    | YReplying(packet: bytes)
    | YWriting
    | YExited

  datatype State = State(
    f: Forwarder, r: Returner, y: Relay,
    clientAddr: Option<Addr>, mutex: Option<Owner>,
    up: Channel, down: Channel,
    received: seq<(Addr, bytes)>,   // datagrams the forwarder read, whole, with their senders
    targets: seq<(bytes, bytes)>,   // where the relay sent which payload
    responses: seq<bytes>,          // what the targets answered, whole
    returned: seq<(Addr, bytes)>)   // datagrams given back, with their receivers

  datatype Step =
    | Datagram(from: Addr, data: bytes) | FLock | FSet | FUnlock | FBegin(nonce: bytes) | FEmit(k: nat)
    | FSwallow | FStop
    | RPull(k: nat) | RDecode | RLock | RCheck | RUnlock | RBuild | RSend | RStop
    | YPull(k: nat) | YDecode | YDial | YAnswer(response: bytes) | YBegin(nonce: bytes) | YEmit(k: nat)
    | YSwallow | YStop
    | CutUp(k: nat) | CutDown(k: nat)

  predicate Enabled(s: State, step: Step) {
    match step
    case Datagram(from, data) => s.f.FReading?
    case FLock => s.f.FLocking? && s.mutex == None
    case FSet => s.f.FSetting?
    case FUnlock => s.f.FUnlocking?
    case FBegin(nonce) => s.f.FStarting? && s.up.CanBegin(Packet(nonce, s.f.data))
    case FEmit(k) => s.f.FWriting? && s.up.CanEmit(k)
    case FSwallow => s.f.FWriting? && s.up.cut
    case FStop => s.f.FReading? || s.f.FStarting? || s.f.FWriting?
    case RPull(k) => s.r.RReading? && s.down.CanPull(k)
    case RDecode => s.r.RReading? && Complete(s.down.part)
    case RLock => s.r.RLocking? && s.mutex == None
    case RCheck => s.r.RChecking?
    case RUnlock => s.r.RUnlocking?
    case RBuild => s.r.RBuilding?
    case RSend => s.r.RSending? && s.clientAddr.Some?
    case RStop => s.r.RReading? || s.r.RSending?
    case YPull(k) => s.y.YReading? && s.up.CanPull(k)
    case YDecode => s.y.YReading? && Complete(s.up.part)
    case YDial => s.y.YDialling? && Made(s.y.header)
    case YAnswer(response) => s.y.YAwaiting?
    case YBegin(nonce) => s.y.YReplying? && s.down.CanBegin(Packet(nonce, s.y.packet))
    case YEmit(k) => s.y.YWriting? && s.down.CanEmit(k)
    case YSwallow => s.y.YWriting? && s.down.cut
    case YStop => !s.y.YExited?
    case CutUp(k) => s.up.CanCut(k)
    case CutDown(k) => s.down.CanCut(k)
  }

  function NoMapping(host: bytes): Option<bytes> { None }

  function Apply(a: Aead, s: State, step: Step): State
    requires Enabled(s, step)
  {
    match step
    case Datagram(from, data) =>
      s.(f := FLocking(from, Fit(data, BLOCK_SIZE)), received := s.received + [(from, data)])
    case FLock => s.(f := FSetting(s.f.from, s.f.data), mutex := Some(Forwarding))
    case FSet =>
      s.(f := FUnlocking(s.f.data), clientAddr := if s.clientAddr == None then Some(s.f.from) else s.clientAddr)
    case FUnlock => s.(f := FStarting(s.f.data), mutex := None)
    case FBegin(nonce) => s.(f := FWriting, up := s.up.Begin(a, Packet(nonce, s.f.data)))
    case FEmit(k) => s.(f := if k == |s.up.tail| then FReading else FWriting, up := s.up.Emit(k))
    case FSwallow => s.(f := FReading)
    case FStop => s.(f := FDone)
    case RPull(k) => s.(down := s.down.Pull(k))
    case RDecode =>
      var plain := s.down.Opened(a);
      var parsed := if plain.Some? then Parse(Fit(plain.value, BLOCK_SIZE)) else None;
      s.(down := s.down.Decode(), r := if parsed.Some? then RLocking(parsed.value.1) else RDone)
    case RLock => s.(r := RChecking(s.r.payload), mutex := Some(Returning))
    case RCheck =>
      // The nil branch goes back to reading without unlocking.
      if s.clientAddr == None then s.(r := RReading)
      else s.(r := RUnlocking(s.r.payload, s.clientAddr.value))
    case RUnlock => s.(r := RBuilding(s.r.payload, s.r.current), mutex := None)
    case RBuild =>
      var h := Build(AddrString(s.r.current), NoMapping);
      s.(r := if h.Some? then RSending(HeaderBytes(h.value) + s.r.payload) else RDone)
    case RSend =>
      // The receiver is the shared variable itself, read without the mutex.
      s.(r := RReading, returned := s.returned + [(s.clientAddr.value, s.r.packet)])
    case RStop => s.(r := RDone)
    case YPull(k) => s.(up := s.up.Pull(k))
    case YDecode =>
      var plain := s.up.Opened(a);
      var parsed := if plain.Some? then Parse(Fit(plain.value, BLOCK_SIZE)) else None;
      s.(up := s.up.Decode(),
         y := if parsed.Some? then YDialling(parsed.value.0, parsed.value.1) else YExited)
    case YDial => s.(y := YAwaiting(s.y.header), targets := s.targets + [(Dst(s.y.header), s.y.payload)])
    case YAnswer(response) =>
      s.(y := YReplying(Reply(s.y.header, response)), responses := s.responses + [response])
    case YBegin(nonce) => s.(y := YWriting, down := s.down.Begin(a, Packet(nonce, s.y.packet)))
    case YEmit(k) => s.(y := if k == |s.down.tail| then YReading else YWriting, down := s.down.Emit(k))
    case YSwallow => s.(y := YReading)
    case YStop => s.(y := YExited)
    case CutUp(k) => s.(up := s.up.Cut(k))
    case CutDown(k) => s.(down := s.down.Cut(k))
  }

  predicate Init(s: State) {
    var empty := Channel([], 0, [], [], [], false);
    s == State(FReading, RReading, YReading, None, None, empty, empty, [], [], [], [])
  }

  predicate IsRun(a: Aead, states: seq<State>, steps: seq<Step>) {
    && |states| == |steps| + 1 && Init(states[0])
    && forall i :: 0 <= i < |steps| ==>
         Enabled(states[i], steps[i]) && states[i + 1] == Apply(a, states[i], steps[i])
  }

  // ---------- the invariant, process by process ----------

  /** The k-th request frame carries the front of the k-th datagram. */
  predicate Forwarded(received: seq<(Addr, bytes)>, sent: seq<Packet>) {
    && |sent| <= |received|
    && forall k :: 0 <= k < |sent| ==> sent[k].body == Fit(received[k].1, BLOCK_SIZE)
  }

  /** The k-th thing sent out by the relay is the k-th request. */
  predicate Asked(received: seq<(Addr, bytes)>, targets: seq<(bytes, bytes)>) {
    && |targets| <= |received|
    && forall k :: 0 <= k < |targets| ==>
         Request(received[k].1).Some? && targets[k] == Target(received[k].1)
  }

  /** The k-th reply frame is the k-th request's header and the response to the k-th request. */
  predicate Replied(received: seq<(Addr, bytes)>, responses: seq<bytes>, sent: seq<Packet>) {
    && |sent| <= |responses| <= |received|
    && forall k :: 0 <= k < |sent| ==>
         Request(received[k].1).Some? && sent[k].body == ReplyTo(received[k].1, responses[k])
  }

  /** The k-th datagram given back is for the first sender and carries what survives of the k-th response. */
  predicate Returned(received: seq<(Addr, bytes)>, responses: seq<bytes>, returned: seq<(Addr, bytes)>) {
    && |returned| <= |responses| <= |received|
    && forall k :: 0 <= k < |returned| ==>
         returned[k] == (received[0].0, ForClient(received[0].0, Survives(received[k].1, responses[k])))
  }

  predicate ForwarderOk(s: State) {
    var n := |s.received|;
    match s.f
    case FReading => |s.up.sent| == n
    case FLocking(from, data) =>
      |s.up.sent| == n - 1 && (from, data) == (s.received[n - 1].0, Fit(s.received[n - 1].1, BLOCK_SIZE))
    case FSetting(from, data) =>
      |s.up.sent| == n - 1 && (from, data) == (s.received[n - 1].0, Fit(s.received[n - 1].1, BLOCK_SIZE))
    case FUnlocking(data) => |s.up.sent| == n - 1 && data == Fit(s.received[n - 1].1, BLOCK_SIZE)
    case FStarting(data) => |s.up.sent| == n - 1 && data == Fit(s.received[n - 1].1, BLOCK_SIZE)
    case FWriting => |s.up.sent| == n
    case FDone => n <= |s.up.sent| + 1
  }

  /** The shared address is the first sender's, from the first critical section on. */
  predicate ClientOk(s: State) {
    if s.clientAddr == None then s.up.sent == [] && (s.received == [] || s.f.FLocking? || s.f.FSetting?)
    else s.received != [] && s.clientAddr == Some(s.received[0].0)
  }

  predicate MutexOk(s: State) {
    && (s.mutex == Some(Forwarding) <==> s.f.FSetting? || s.f.FUnlocking?)
    && (s.mutex == Some(Returning) <==> s.r.RChecking? || s.r.RUnlocking?)
  }

  /** Stop and wait: how many requests the relay has consumed, sent out, been answered and replied to. */
  predicate RelayCounts(s: State) {
    var taken, asked, answered, replied := s.up.got, |s.targets|, |s.responses|, |s.down.sent|;
    && taken <= |s.up.sent|
    && match s.y
       case YReading => taken == asked == answered == replied
       case YDialling(_, _) => taken == asked + 1 && asked == answered == replied
       case YAwaiting(_) => taken == asked == answered + 1 && answered == replied
       case YReplying(_) => taken == asked == answered == replied + 1
       case YWriting => taken == asked == answered == replied
       case YExited => replied <= answered <= asked <= taken <= replied + 1
  }

  /** What the relay is at belongs to the request next in turn. */
  predicate RelayStage(y: Relay, received: seq<(Addr, bytes)>, asked: nat, responses: seq<bytes>, replied: nat) {
    match y
    case YDialling(h, payload) => asked < |received| && Request(received[asked].1) == Some((h, payload))
    case YAwaiting(h) =>
      |responses| < |received| && Request(received[|responses|].1).Some?
      && Request(received[|responses|].1).value.0 == h
    case YReplying(packet) =>
      replied < |responses| && replied < |received| && Request(received[replied].1).Some?
      && packet == ReplyTo(received[replied].1, responses[replied])
    case _ => true
  }

  predicate RelayPairs(s: State) {
    && Asked(s.received, s.targets) && Replied(s.received, s.responses, s.down.sent)
    && RelayStage(s.y, s.received, |s.targets|, s.responses, |s.down.sent|)
  }

  predicate Pending(r: Returner) {
    r.RLocking? || r.RChecking? || r.RUnlocking? || r.RBuilding? || r.RSending?
  }

  /** What the returner is at is the reply next in turn, for the first sender. */
  predicate ReturnStage(r: Returner, first: Addr, payload: bytes) {
    match r
    case RLocking(p) => p == payload
    case RChecking(p) => p == payload
    case RUnlocking(p, current) => p == payload && current == first
    case RBuilding(p, current) => p == payload && current == first
    case RSending(packet) => packet == ForClient(first, payload)
    case _ => true
  }

  /** The returner handles the replies in order, each once. */
  predicate ReturnerOk(s: State) {
    var n := |s.returned|;
    && s.down.got <= |s.down.sent| && Returned(s.received, s.responses, s.returned)
    && (if Pending(s.r) then s.down.got == n + 1 else if s.r.RReading? then s.down.got == n else n <= s.down.got)
    && (Pending(s.r) ==>
          n < |s.responses| && s.clientAddr == Some(s.received[0].0)
          && ReturnStage(s.r, s.received[0].0, Survives(s.received[n].1, s.responses[n])))
  }

  ghost predicate Inv(a: Aead, s: State) {
    && s.up.Inv(a) && s.down.Inv(a)
    && Forwarded(s.received, s.up.sent) && ForwarderOk(s) && ClientOk(s) && MutexOk(s)
    && RelayCounts(s) && RelayPairs(s) && ReturnerOk(s)
  }

  // ---------- sizes ----------

  /** The header of a reply is never cut, and of the response exactly the front survives that fits behind it in one
      block: all of it just when header and response together are at most 1500 bytes. */
  lemma ReplySurvives(datagram: bytes, response: bytes)
    requires Request(datagram).Some?
    ensures var h := Request(datagram).value.0;
            && Parse(Fit(ReplyTo(datagram, response), BLOCK_SIZE)) == Some((h, Survives(datagram, response)))
            && |HeaderBytes(h)| <= 262
            && Survives(datagram, response) == response[..Min(|response|, 1500 - |HeaderBytes(h)|)]
            && (Survives(datagram, response) == response <==> |HeaderBytes(h)| + |response| <= 1500)
  {
    var h := Request(datagram).value.0;
    HeaderLength(h);
    var room := BLOCK_SIZE - |HeaderBytes(h)|;
    assert Fit(Reply(h, response), BLOCK_SIZE) == HeaderBytes(h) + Fit(response, room);
    ParseUndoesBytes(h, Fit(response, room));
  }

  /** A datagram of at most 1500 bytes is parsed by the relay as the client made it. */
  lemma RequestIntact(h: Header, payload: bytes)
    requires WellFormed(h) && |HeaderBytes(h) + payload| <= 1500
    ensures Request(HeaderBytes(h) + payload) == Some((h, payload))
    ensures Target(HeaderBytes(h) + payload) == (Dst(h), payload)
  {
    var p := HeaderBytes(h) + payload;
    assert Fit(p, BLOCK_SIZE) == p;
    ParseUndoesBytes(h, payload);
  }

  /** The header of a client's address, byte by byte. */
  lemma OwnHeader(a: Addr)
    ensures HeaderBytes(AddrHeader(a)) == [0, 0, 0, 1] + a.ip + [a.port / 256, a.port % 256]
    ensures var h := AddrHeader(a); h.atyp == 1 && h.addr == a.ip && BE16(h.port[0], h.port[1]) == a.port
  {
  }

  /** The client's printed address takes apart into its octets and its port, and the header built from it is theirs. */
  lemma BuildOfAddr(a: Addr)
    ensures Build(AddrString(a), NoMapping) == Some(AddrHeader(a))
    ensures SplitHostPort(AddrString(a)) == Some((Quad(a.ip), Dec(a.port)))
    ensures HeaderBytes(AddrHeader(a)) == [0, 0, 0, 1] + a.ip + [a.port / 256, a.port % 256]
  {
    OwnHeader(a);
    BuildUndoesDst(AddrHeader(a), NoMapping);
    QuadIsPlain(a.ip);
    JoinSplits(Quad(a.ip), a.port);
    hide SplitHostPort, JoinHostPort, Quad, Dec, Build, HeaderBytes;
  }

  // ---------- every step keeps it, one part at a time ----------

  lemma LinksKeep(a: Aead, s: State, step: Step)
    requires Lawful(a) && Inv(a, s) && Enabled(s, step)
    ensures Apply(a, s, step).up.Inv(a) && Apply(a, s, step).down.Inv(a)
  {
    hide Forwarded, ForwarderOk, ClientOk, MutexOk, RelayCounts, RelayPairs, ReturnerOk;
    hide Fit, Parse, Build, Dst, Reply, HeaderBytes, Frame, Frames.Encode, Lawful, AddrString;
    match step {
      case FBegin(nonce) => BeginKeeps(a, s.up, Packet(nonce, s.f.data));
      case FEmit(k) => EmitKeeps(a, s.up, k);
      case CutUp(k) => CutKeeps(a, s.up, k);
      case YPull(k) => PullKeeps(a, s.up, k);
      case YDecode => DecodeKeeps(a, s.up);
      case YBegin(nonce) => BeginKeeps(a, s.down, Packet(nonce, s.y.packet));
      case YEmit(k) => EmitKeeps(a, s.down, k);
      case CutDown(k) => CutKeeps(a, s.down, k);
      case RPull(k) => PullKeeps(a, s.down, k);
      case RDecode => DecodeKeeps(a, s.down);
      case _ =>
    }
  }

  predicate ForwarderStep(step: Step) {
    step.Datagram? || step.FLock? || step.FSet? || step.FUnlock? || step.FBegin? || step.FEmit? || step.FSwallow?
    || step.FStop?
  }

  predicate RelayStep(step: Step) {
    step.YPull? || step.YDecode? || step.YDial? || step.YAnswer? || step.YBegin? || step.YEmit? || step.YSwallow?
    || step.YStop?
  }

  /** What the parts of the invariant about the forwarder look at, and what those about the relay look at. */
  predicate SameForwarder(s: State, t: State) {
    t.f == s.f && t.up.sent == s.up.sent && t.received == s.received && t.clientAddr == s.clientAddr
  }

  predicate SameRelay(s: State, t: State) {
    && t.y == s.y && t.targets == s.targets && t.responses == s.responses
    && t.up.got == s.up.got && t.down.sent == s.down.sent
  }

  lemma Effects(a: Aead, s: State, step: Step)
    requires Enabled(s, step)
    ensures var t := Apply(a, s, step);
            && (!ForwarderStep(step) ==> SameForwarder(s, t))
            && (!RelayStep(step) ==> SameRelay(s, t))
            && s.received <= t.received && s.up.sent <= t.up.sent
            && (ForwarderStep(step) || RelayStep(step) ==>
                  t.r == s.r && t.returned == s.returned && t.down.got == s.down.got)
            && s.targets <= t.targets && s.responses <= t.responses && s.down.sent <= t.down.sent
            && (s.clientAddr.Some? ==> t.clientAddr == s.clientAddr)
  {
    hide Fit, Parse, Build, Dst, Reply, HeaderBytes, Frame, Need, BE16, Complete, AddrString;
  }

  lemma FitTwice(s: bytes)
    ensures Fit(Fit(s, BLOCK_SIZE), BLOCK_SIZE) == Fit(s, BLOCK_SIZE)
  {
  }

  lemma ForwarderOwn(a: Aead, s: State, step: Step)
    requires Forwarded(s.received, s.up.sent) && ForwarderOk(s) && ClientOk(s) && Enabled(s, step)
    requires ForwarderStep(step)
    ensures var t := Apply(a, s, step); Forwarded(t.received, t.up.sent) && ForwarderOk(t) && ClientOk(t)
  {
    hide Fit, Parse, Build, Dst, Reply, HeaderBytes, Frame, Need, BE16, Complete, AddrString;
  }

  lemma ForwarderFrame(s: State, t: State)
    requires Forwarded(s.received, s.up.sent) && ForwarderOk(s) && ClientOk(s) && SameForwarder(s, t)
    ensures Forwarded(t.received, t.up.sent) && ForwarderOk(t) && ClientOk(t)
  {
    hide Forwarded, Fit;
  }

  lemma ForwarderKeeps(a: Aead, s: State, step: Step)
    requires Forwarded(s.received, s.up.sent) && ForwarderOk(s) && ClientOk(s) && Enabled(s, step)
    ensures var t := Apply(a, s, step); Forwarded(t.received, t.up.sent) && ForwarderOk(t) && ClientOk(t)
  {
    hide Apply, Enabled, Forwarded, ForwarderOk, ClientOk, SameForwarder, SameRelay;
    if ForwarderStep(step) {
      ForwarderOwn(a, s, step);
    } else {
      Effects(a, s, step);
      ForwarderFrame(s, Apply(a, s, step));
    }
  }

  lemma MutexKeeps(a: Aead, s: State, step: Step)
    requires MutexOk(s) && Enabled(s, step) && (step.RCheck? ==> s.clientAddr.Some?)
    ensures MutexOk(Apply(a, s, step))
  {
    hide Fit, Parse, Build, Dst, Reply, HeaderBytes, Frame, Need, BE16, Complete, AddrString;
  }

  lemma RelayCountsKeep(a: Aead, s: State, step: Step)
    requires RelayCounts(s) && Enabled(s, step) && (step.YDecode? ==> s.up.got < |s.up.sent|)
    ensures RelayCounts(Apply(a, s, step))
  {
    hide Fit, Parse, Build, Dst, Reply;
    Effects(a, s, step);
    var t := Apply(a, s, step);
    if !RelayStep(step) {
      hide Apply;
      assert SameRelay(s, t);
    }
  }

  /** The relay parses the front of the datagram it was sent for. */
  lemma DecodedRequest(a: Aead, s: State)
    requires Lawful(a) && s.up.Inv(a) && Forwarded(s.received, s.up.sent) && Enabled(s, YDecode)
    ensures var plain := s.up.Opened(a);
            && s.up.got < |s.up.sent| <= |s.received| && plain.Some?
            && Parse(Fit(plain.value, BLOCK_SIZE)) == Request(s.received[s.up.got].1)
  {
    NextFrame(a, s.up);
    FitTwice(s.received[s.up.got].1);
  }

  /** Histories stay paired when the earlier ones grow. */
  lemma PairsGrow(received: seq<(Addr, bytes)>, received': seq<(Addr, bytes)>, targets: seq<(bytes, bytes)>,
                  responses: seq<bytes>, responses': seq<bytes>, sent: seq<Packet>, returned: seq<(Addr, bytes)>)
    requires received <= received' && responses <= responses' && |responses'| <= |received'|
    ensures Asked(received, targets) ==> Asked(received', targets)
    ensures Replied(received, responses, sent) ==> Replied(received', responses', sent)
    ensures Returned(received, responses, returned) ==> Returned(received', responses', returned)
  {
    hide Request, Target, ReplyTo, ForClient, Survives;
  }

  lemma StageGrows(y: Relay, received: seq<(Addr, bytes)>, received': seq<(Addr, bytes)>, asked: nat,
                   responses: seq<bytes>, replied: nat)
    requires RelayStage(y, received, asked, responses, replied) && received <= received'
    ensures RelayStage(y, received', asked, responses, replied)
  {
    hide Request, ReplyTo;
  }

  lemma RelayPairsKeep(a: Aead, s: State, step: Step)
    requires RelayCounts(s) && RelayPairs(s) && Enabled(s, step)
    requires step.YDecode? ==>
      var plain := s.up.Opened(a);
      && s.up.got < |s.up.sent| <= |s.received| && plain.Some?
      && Parse(Fit(plain.value, BLOCK_SIZE)) == Request(s.received[s.up.got].1)
    ensures RelayPairs(Apply(a, s, step))
  {
    if step.YDecode? || step.YDial? || step.YAnswer? || step.YBegin? {
      RelayOwnPairs(a, s, step);
    } else {
      hide RelayPairs, RelayCounts;
      OtherPairs(a, s, step);
    }
  }

  lemma OtherPairs(a: Aead, s: State, step: Step)
    requires RelayPairs(s) && Enabled(s, step) && |s.responses| <= |s.received|
    requires !step.YDecode? && !step.YDial? && !step.YAnswer? && !step.YBegin?
    ensures RelayPairs(Apply(a, s, step))
  {
    PairsEffects(a, s, step);
    var t := Apply(a, s, step);
    hide Apply, Enabled, Asked, Replied, RelayStage;
    PairsGrow(s.received, t.received, s.targets, s.responses, s.responses, s.down.sent, []);
    if t.y == s.y {
      StageGrows(s.y, s.received, t.received, |s.targets|, s.responses, |s.down.sent|);
    } else {
      IdleStage(t.y, t.received, |t.targets|, t.responses, |t.down.sent|);
    }
  }

  lemma IdleStage(y: Relay, received: seq<(Addr, bytes)>, asked: nat, responses: seq<bytes>, replied: nat)
    requires y.YReading? || y.YExited?
    ensures RelayStage(y, received, asked, responses, replied)
  {
  }

  lemma PairsEffects(a: Aead, s: State, step: Step)
    requires Enabled(s, step) && !step.YDecode? && !step.YDial? && !step.YAnswer? && !step.YBegin?
    ensures var t := Apply(a, s, step);
            && s.received <= t.received && t.targets == s.targets && t.responses == s.responses
            && t.down.sent == s.down.sent
            && (t.y == s.y || t.y.YReading? || t.y.YExited?)
  {
    hide Fit, Parse, Build, HeaderBytes, AddrString, Frame;
  }

  lemma RelayOwnPairs(a: Aead, s: State, step: Step)
    requires RelayCounts(s) && RelayPairs(s) && Enabled(s, step)
    requires step.YDecode? || step.YDial? || step.YAnswer? || step.YBegin?
    requires step.YDecode? ==>
      var plain := s.up.Opened(a);
      && s.up.got < |s.up.sent| <= |s.received| && plain.Some?
      && Parse(Fit(plain.value, BLOCK_SIZE)) == Request(s.received[s.up.got].1)
    ensures RelayPairs(Apply(a, s, step))
  {
    hide Parse, Fit, Build, Dst, Reply, HeaderBytes, Frame, Request;
    match step {
      case YDecode => hide Asked, Replied;
      case YDial => hide Replied;
      case YAnswer(response) =>
        assert s.responses <= s.responses + [response];
        PairsGrow(s.received, s.received, s.targets, s.responses, s.responses + [response], s.down.sent, []);
        hide Asked, Replied;
      case YBegin(nonce) => hide Asked;
    }
  }

  /** The crux: a reply can be there only after a request was, and then the client's address is known. */
  lemma ReplyMeansClient(s: State)
    requires Forwarded(s.received, s.up.sent) && ClientOk(s) && RelayCounts(s) && s.down.sent != []
    ensures s.received != [] && s.clientAddr == Some(s.received[0].0)
  {
  }

  /** The decoded reply gives the returner what survives of the response. */
  lemma DecodedReply(a: Aead, s: State)
    requires Lawful(a) && s.down.Inv(a) && Replied(s.received, s.responses, s.down.sent) && Enabled(s, RDecode)
    ensures var k := s.down.got;
            var plain := s.down.Opened(a);
            && k < |s.down.sent| && plain.Some?
            && Parse(Fit(plain.value, BLOCK_SIZE)).Some?
            && Parse(Fit(plain.value, BLOCK_SIZE)).value.1 == Survives(s.received[k].1, s.responses[k])
  {
    NextFrame(a, s.down);
    ReplySurvives(s.received[s.down.got].1, s.responses[s.down.got]);
  }

  lemma ReturnerOwn(a: Aead, s: State, step: Step)
    requires ReturnerOk(s) && |s.down.sent| <= |s.responses| && Enabled(s, step)
    requires !ForwarderStep(step) && !RelayStep(step)
    requires step.RDecode? ==>
      var k := s.down.got;
      var plain := s.down.Opened(a);
      && k < |s.down.sent| && plain.Some? && s.received != [] && s.clientAddr == Some(s.received[0].0)
      && Parse(Fit(plain.value, BLOCK_SIZE)).Some?
      && Parse(Fit(plain.value, BLOCK_SIZE)).value.1 == Survives(s.received[k].1, s.responses[k])
    ensures ReturnerOk(Apply(a, s, step))
  {
    hide ReturnerOk, Enabled, Apply;
    if step.RSend? {
      ReturnerSends(a, s);
    } else if step.RBuild? {
      ReturnerBuilds(a, s);
    } else if step.RDecode? {
      ReturnerDecodes(a, s);
    } else {
      ReturnerStages(a, s, step);
    }
  }

  lemma ReturnerBuilds(a: Aead, s: State)
    requires ReturnerOk(s) && Enabled(s, RBuild)
    ensures ReturnerOk(Apply(a, s, RBuild))
  {
    hide Parse, Fit, Build, HeaderBytes, AddrString, AddrHeader, Survives, Returned;
    BuildOfAddr(s.r.current);
  }

  lemma ReturnerDecodes(a: Aead, s: State)
    requires ReturnerOk(s) && |s.down.sent| <= |s.responses| && Enabled(s, RDecode)
    requires var k := s.down.got;
             var plain := s.down.Opened(a);
             && k < |s.down.sent| && plain.Some? && s.received != [] && s.clientAddr == Some(s.received[0].0)
             && Parse(Fit(plain.value, BLOCK_SIZE)).Some?
             && Parse(Fit(plain.value, BLOCK_SIZE)).value.1 == Survives(s.received[k].1, s.responses[k])
    ensures ReturnerOk(Apply(a, s, RDecode))
  {
    hide Parse, Fit, Survives, Returned;
  }

  /** Around the critical section the reply at hand only changes its stage. */
  lemma ReturnerStages(a: Aead, s: State, step: Step)
    requires ReturnerOk(s) && Enabled(s, step)
    requires !ForwarderStep(step) && !RelayStep(step) && !step.RSend? && !step.RBuild? && !step.RDecode?
    ensures ReturnerOk(Apply(a, s, step))
  {
    hide Parse, Fit, Build, HeaderBytes, AddrString, AddrHeader, Survives, ForClient, Returned;
  }

  lemma ReturnerSends(a: Aead, s: State)
    requires ReturnerOk(s) && Enabled(s, RSend)
    ensures ReturnerOk(Apply(a, s, RSend))
  {
    hide Parse, Fit, Build, HeaderBytes, AddrString, AddrHeader, Survives, ForClient;
    var t := Apply(a, s, RSend);
    var first := s.received[0].0;
    var n := |s.returned|;
    assert t.returned == s.returned + [(first, ForClient(first, Survives(s.received[n].1, s.responses[n])))];
    hide Apply, Enabled;
  }

  /** What the others do leaves the returner's part alone. */
  lemma ReturnerFrame(s: State, t: State)
    requires ReturnerOk(s) && t.r == s.r && t.returned == s.returned && t.down.got == s.down.got
    requires s.received <= t.received && s.responses <= t.responses && s.down.sent <= t.down.sent
    requires (s.clientAddr.Some? ==> t.clientAddr == s.clientAddr) && Returned(t.received, t.responses, t.returned)
    ensures ReturnerOk(t)
  {
    assert |s.responses| <= |s.received|;
    hide Returned, Survives, ReturnStage;
  }

  lemma ReturnerKeeps(a: Aead, s: State, step: Step)
    requires Lawful(a) && Inv(a, s) && Enabled(s, step)
    requires var t := Apply(a, s, step); RelayPairs(t) && ClientOk(t)
    ensures ReturnerOk(Apply(a, s, step))
  {
    if step.RDecode? {
      DecodedReply(a, s);
      ReplyMeansClient(s);
    }
    var t := Apply(a, s, step);
    if ForwarderStep(step) || RelayStep(step) {
      Effects(a, s, step);
      assert Returned(s.received, s.responses, s.returned) && |t.responses| <= |t.received|;
      hide Apply, Enabled, ForwarderStep, RelayStep, RelayPairs, ClientOk, ReturnerOk, Returned, Channel.Inv;
      PairsGrow(s.received, t.received, [], s.responses, t.responses, [], s.returned);
      ReturnerFrame(s, t);
    } else {
      hide Apply, ReturnerOk;
      ReturnerOwn(a, s, step);
    }
  }

  lemma StepKeeps(a: Aead, s: State, step: Step)
    requires Lawful(a) && Inv(a, s) && Enabled(s, step)
    ensures Inv(a, Apply(a, s, step))
  {
    if step.RCheck? {
      NilBranchDead(a, s);
    }
    if step.YDecode? {
      DecodedRequest(a, s);
    }
    hide Apply, Enabled, Forwarded, ForwarderOk, MutexOk, ClientOk, RelayCounts, RelayPairs, ReturnerOk;
    LinksKeep(a, s, step);
    ForwarderKeeps(a, s, step);
    MutexKeeps(a, s, step);
    RelayCountsKeep(a, s, step);
    RelayPairsKeep(a, s, step);
    ReturnerKeeps(a, s, step);
  }

  lemma NilBranchDead(a: Aead, s: State)
    requires Inv(a, s) && s.r.RChecking?
    ensures s.clientAddr.Some?
  {
    ReplyMeansClient(s);
  }

  lemma InitInv(a: Aead, s: State)
    requires Init(s)
    ensures Inv(a, s)
  {
    assert Frames.Encode(a, []) == [];
    FreshChannel(a, []);
    hide Channel.Inv, Fit, Parse, Dst, Reply, Frame, Request, Target, ReplyTo, ForClient, Survives, BE16, Frames.Encode;
  }

  lemma {:induction false} RunInv(a: Aead, states: seq<State>, steps: seq<Step>, i: nat)
    requires Lawful(a) && IsRun(a, states, steps) && i < |states|
    ensures Inv(a, states[i])
  {
    hide Inv, Apply, Init, Enabled;
    if i == 0 {
      InitInv(a, states[0]);
    } else {
      RunInv(a, states, steps, i - 1);
      StepKeeps(a, states[i - 1], steps[i - 1]);
    }
  }

  // ---------- whole runs ----------

  /** Whenever the returning goroutine looks at the client's address it is set, so the branch that goes on without
      unlocking is never taken; and the mutex is held exactly by a goroutine inside its critical section. */
  lemma RunLockSafe(a: Aead, states: seq<State>, steps: seq<Step>, i: nat)
    requires Lawful(a) && IsRun(a, states, steps) && i < |states|
    ensures states[i].r.RChecking? ==> states[i].clientAddr.Some?
    ensures MutexOk(states[i])
  {
    RunInv(a, states, steps, i);
    if states[i].r.RChecking? {
      NilBranchDead(a, states[i]);
    }
  }

  /** Nobody waits for the mutex forever: its holder, left to itself, gives it back in at most two steps, neither of
      which is an I/O call. */
  lemma RunMutexReturns(a: Aead, states: seq<State>, steps: seq<Step>, i: nat) returns (next: Step)
    requires Lawful(a) && IsRun(a, states, steps) && i < |states| && states[i].mutex.Some?
    ensures next.FSet? || next.FUnlock? || next.RCheck? || next.RUnlock?
    ensures Enabled(states[i], next)
    ensures next.FUnlock? || next.RUnlock? ==> Apply(a, states[i], next).mutex == None
    ensures next.FSet? ==> Enabled(Apply(a, states[i], next), FUnlock)
    ensures next.RCheck? ==> Enabled(Apply(a, states[i], next), RUnlock)
  {
    RunLockSafe(a, states, steps, i);
    var s := states[i];
    match s.mutex.value {
      case Forwarding => next := if s.f.FSetting? then FSet else FUnlock;
      case Returning => next := if s.r.RChecking? then RCheck else RUnlock;
    }
  }

  /** Nobody starts a frame behind a piece of an earlier one, unless the link is lost anyway. */
  predicate TailsOk(s: State) {
    && (s.f.FWriting? || s.f.FDone? || s.up.tail == [] || s.up.cut) && (s.f.FWriting? ==> s.up.tail != [])
    && (s.y.YWriting? || s.y.YExited? || s.down.tail == [] || s.down.cut) && (s.y.YWriting? ==> s.down.tail != [])
    && (s.up.cut ==> s.up.tail != []) && (s.down.cut ==> s.down.tail != [])
  }

  lemma TailsKeep(a: Aead, s: State, step: Step)
    requires TailsOk(s) && Enabled(s, step)
    ensures TailsOk(Apply(a, s, step))
  {
    if step.FBegin? {
      FrameIsSome(a, Packet(step.nonce, s.f.data));
    }
    if step.YBegin? {
      FrameIsSome(a, Packet(step.nonce, s.y.packet));
    }
    hide Fit, Parse, Build, Dst, Reply, HeaderBytes, Frame, Need, BE16, Complete, AddrString;
  }

  lemma {:induction false} RunTails(a: Aead, states: seq<State>, steps: seq<Step>, i: nat)
    requires IsRun(a, states, steps) && i < |states|
    ensures TailsOk(states[i])
  {
    if i > 0 {
      hide Apply, Enabled, TailsOk;
      RunTails(a, states, steps, i - 1);
      TailsKeep(a, states[i - 1], steps[i - 1]);
    }
  }

  lemma ForwarderWritesFit(s: State)
    requires ForwarderOk(s) && s.f.FStarting? && s.received != []
    ensures |s.f.data| <= BLOCK_SIZE
  {
  }

  lemma RelayWritesFit(s: State)
    requires RelayPairs(s) && RelayCounts(s)
    ensures s.y.YReplying? ==> |s.y.packet| <= 262 + BLOCK_SIZE
    ensures s.y.YDialling? ==> Made(s.y.header)
  {
    hide Parse, HeaderBytes, Asked, Replied, Dst;
    if s.y.YReplying? {
      HeaderLength(Request(s.received[|s.down.sent|].1).value.0);
    }
  }

  /** No write of an association can outgrow the two length bytes of a frame: a request has at most 1500 bytes, a reply
      at most 262 more. So a goroutine that is about to write, send or dial never has to hold back. */
  lemma RunWritesFit(a: Aead, states: seq<State>, steps: seq<Step>, i: nat, nonce: bytes)
    requires Lawful(a) && IsRun(a, states, steps) && i < |states| && |nonce| == NONCE
    ensures var s := states[i];
            && (s.f.FStarting? ==> |s.f.data| <= 1500 && Enabled(s, FBegin(nonce)))
            && (s.y.YReplying? ==> |s.y.packet| <= 1762 && Enabled(s, YBegin(nonce)))
            && (s.r.RSending? ==> Enabled(s, RSend)) && (s.y.YDialling? ==> Enabled(s, YDial))
  {
    RunInv(a, states, steps, i);
    RunTails(a, states, steps, i);
    hide IsRun;
    WritesFit(a, states[i], nonce);
  }

  lemma WritesFit(a: Aead, s: State, nonce: bytes)
    requires Inv(a, s) && TailsOk(s) && |nonce| == NONCE
    ensures s.f.FStarting? ==> |s.f.data| <= BLOCK_SIZE && Enabled(s, FBegin(nonce))
    ensures s.y.YReplying? ==> |s.y.packet| <= 262 + BLOCK_SIZE && Enabled(s, YBegin(nonce))
    ensures (s.r.RSending? ==> Enabled(s, RSend)) && (s.y.YDialling? ==> Enabled(s, YDial))
  {
    hide Channel.Inv, RelayPairs, RelayCounts, Forwarded, Returned, ReturnStage, Fit, MutexOk, ClientOk;
    RelayWritesFit(s);
    if s.f.FStarting? {
      assert s.received != [];
      ForwarderWritesFit(s);
    }
    hide ForwarderOk, ReturnerOk;
  }

  /** What the nil branch would have done. */
  predicate SelfLocked(s: State) {
    s.mutex == Some(Returning) && (s.r.RReading? || s.r.RLocking? || s.r.RDone?)
    && !s.f.FSetting? && !s.f.FUnlocking?
  }

  /** Were the client's address unset at the check, the mutex would be lost for good: no later step of anybody gives
      it back, and neither goroutine could enter its critical section again. */
  lemma NilBranchWouldLock(a: Aead, s: State, step: Step)
    requires Enabled(s, step)
    ensures s.r.RChecking? && s.clientAddr == None && s.mutex == Some(Returning) && MutexOk(s) && step.RCheck? ==>
              SelfLocked(Apply(a, s, step))
    ensures SelfLocked(s) ==> SelfLocked(Apply(a, s, step)) && !step.FLock? && !step.RLock?
  {
    hide Parse, Fit, Build, Dst, Reply;
  }

  /** The client's address never changes once set, so the unlocked use at the send agrees with the locked copy the
      header was built from. */
  lemma {:induction false} RunWriteOnce(a: Aead, states: seq<State>, steps: seq<Step>, i: nat, j: nat)
    requires Lawful(a) && IsRun(a, states, steps) && i <= j < |states| && states[i].clientAddr.Some?
    ensures states[j].clientAddr == states[i].clientAddr
  {
    hide Init, Enabled, Apply;
    if i < j {
      RunWriteOnce(a, states, steps, i, j - 1);
      ClientStays(a, states, steps, j - 1);
    }
  }

  /** The client's address, if set, is the first datagram's sender. */
  lemma RunFirstSender(a: Aead, states: seq<State>, steps: seq<Step>, i: nat)
    requires Lawful(a) && IsRun(a, states, steps) && i < |states| && states[i].clientAddr.Some?
    ensures states[i].received != [] && states[i].clientAddr == Some(states[i].received[0].0)
  {
    RunInv(a, states, steps, i);
    hide IsRun;
    ClientIsFirst(a, states[i]);
  }

  lemma ClientIsFirst(a: Aead, s: State)
    requires Inv(a, s)
    ensures s.clientAddr.Some? ==> s.received != [] && s.clientAddr == Some(s.received[0].0)
  {
  }

  lemma ClientStays(a: Aead, states: seq<State>, steps: seq<Step>, j: nat)
    requires Lawful(a) && IsRun(a, states, steps) && j < |steps|
    ensures states[j].clientAddr.Some? ==> states[j + 1].clientAddr == states[j].clientAddr
  {
    hide Parse, Fit, Build, Dst, Reply, Init;
    assert states[j + 1] == Apply(a, states[j], steps[j]);
  }

  /** Stop and wait, over every run: the relay is at most one request ahead of its replies; the k-th payload it sends
      out is that of the k-th datagram, to where that datagram says; the k-th reply frame is the k-th request's header
      with the k-th response; the k-th datagram given back is for the first sender, with what survives of the k-th
      response; and none is given back twice or early. */
  lemma RunPairs(a: Aead, states: seq<State>, steps: seq<Step>, i: nat)
    requires Lawful(a) && IsRun(a, states, steps) && i < |states|
    ensures var s := states[i];
            && |s.down.sent| <= s.up.got <= |s.down.sent| + 1
            && Forwarded(s.received, s.up.sent) && Asked(s.received, s.targets)
            && Replied(s.received, s.responses, s.down.sent) && Returned(s.received, s.responses, s.returned)
            && |s.returned| <= s.down.got <= |s.down.sent| <= |s.responses| <= |s.targets| <= s.up.got <= |s.up.sent|
  {
    RunInv(a, states, steps, i);
    hide IsRun, Asked, Forwarded, ForwarderOk, ClientOk, MutexOk, RelayStage, Channel.Inv;
    Counts(states[i]);
  }

  lemma Counts(s: State)
    requires RelayCounts(s) && RelayPairs(s) && ReturnerOk(s)
    ensures |s.down.sent| <= s.up.got <= |s.down.sent| + 1
    ensures |s.returned| <= s.down.got <= |s.down.sent| <= |s.responses| <= |s.targets| <= s.up.got <= |s.up.sent|
  {
    hide Asked, Replied, Returned, RelayStage, ReturnStage;
  }

  /** Of the k-th response the client gets the front that fits behind the relay's header in 1500 bytes, and all of it
      exactly when both together fit. */
  lemma RunDelivers(a: Aead, states: seq<State>, steps: seq<Step>, i: nat, k: nat)
    requires Lawful(a) && IsRun(a, states, steps) && i < |states| && k < |states[i].returned|
    ensures var s := states[i];
            && k < |s.received| && k < |s.responses| && Request(s.received[k].1).Some?
            && var head := HeaderBytes(Request(s.received[k].1).value.0);
               var response := s.responses[k];
               && |head| <= 262
               && s.returned[k].0 == s.received[0].0
               && s.returned[k].1 == ForClient(s.received[0].0, response[..Min(|response|, 1500 - |head|)])
               && (s.returned[k].1 == ForClient(s.received[0].0, response) <==> |head| + |response| <= 1500)
  {
    RunPairs(a, states, steps, i);
    var s := states[i];
    ReplySurvives(s.received[k].1, s.responses[k]);
    var first := s.received[0].0;
    var part := Survives(s.received[k].1, s.responses[k]);
    assert ForClient(first, part)[|HeaderBytes(AddrHeader(first))|..] == part;
    assert ForClient(first, s.responses[k])[|HeaderBytes(AddrHeader(first))|..] == s.responses[k];
  }

  /** What is given back is headed with the client's own address, never the answering host's. So the k-th datagram given
      back carries the header of the k-th request exactly when the client asked for its own address. */
  lemma RunHeads(a: Aead, states: seq<State>, steps: seq<Step>, i: nat, k: nat)
    requires Lawful(a) && IsRun(a, states, steps) && i < |states| && k < |states[i].returned|
    ensures var s := states[i];
            && k < |s.received| && k < |s.responses| && Request(s.received[k].1).Some?
            && var asked := Request(s.received[k].1).value.0;
               var own := AddrHeader(s.received[0].0);
               && Parse(s.returned[k].1) == Some((own, Survives(s.received[k].1, s.responses[k])))
               && own.atyp == 1 && own.addr == s.received[0].0.ip
               && BE16(own.port[0], own.port[1]) == s.received[0].0.port
               && (HeaderBytes(asked) <= s.returned[k].1 <==> asked == own)
  {
    RunPairs(a, states, steps, i);
    var s := states[i];
    OwnHeader(s.received[0].0);
    hide IsRun, Lawful, Asked, Forwarded, Request, Survives, HeaderBytes, Parse, AddrHeader;
    assert s.returned[k].1 == ForClient(s.received[0].0, Survives(s.received[k].1, s.responses[k]));
    Heads(Request(s.received[k].1).value.0, s.received[0].0, Survives(s.received[k].1, s.responses[k]));
  }

  lemma Heads(asked: Header, to: Addr, part: bytes)
    requires WellFormed(asked)
    ensures Parse(ForClient(to, part)) == Some((AddrHeader(to), part))
    ensures HeaderBytes(asked) <= ForClient(to, part) <==> asked == AddrHeader(to)
  {
    hide Parse, HeaderBytes;
    var packet := ForClient(to, part);
    ParseUndoesBytes(AddrHeader(to), part);
    if HeaderBytes(asked) <= packet {
      var rest := packet[|HeaderBytes(asked)|..];
      assert HeaderBytes(asked) + rest == packet;
      ParseUndoesBytes(asked, rest);
    }
  }

  // ---------- an association nobody disturbs ----------

  /** Nothing has stopped or been cut so far. */
  predicate Smooth(s: State) {
    !s.f.FDone? && !s.r.RDone? && !s.y.YExited? && !s.up.cut && !s.down.cut
  }

  predicate AllParse(received: seq<(Addr, bytes)>) {
    forall k :: 0 <= k < |received| ==> Request(received[k].1).Some?
  }

  /** Steps other than a further datagram, a stop and a loss. */
  predicate Quiet(step: Step) {
    !step.Datagram? && !step.FStop? && !step.RStop? && !step.YStop? && !step.CutUp? && !step.CutDown?
  }

  /** What is still to be answered. */
  predicate Behind(s: State) {
    |s.returned| < |s.received|
  }

  /** What the invariant says about the steps ahead. */
  predicate Ready(s: State) {
    && MutexOk(s) && TailsOk(s)
    && (s.r.RChecking? || s.r.RSending? ==> s.clientAddr.Some?)
    && (s.f.FStarting? ==> Sendable(Packet(Zeros(NONCE), s.f.data)))
    && (s.y.YReplying? ==> Sendable(Packet(Zeros(NONCE), s.y.packet)))
    && (s.y.YDialling? ==> Made(s.y.header))
  }

  lemma InvReady(a: Aead, s: State)
    requires Inv(a, s) && TailsOk(s)
    ensures Ready(s)
  {
    hide Channel.Inv, RelayPairs, RelayCounts, Forwarded, Returned, Fit, ReturnStage;
    RelayWritesFit(s);
    if s.r.RChecking? {
      NilBranchDead(a, s);
    }
    if s.f.FStarting? {
      assert s.received != [];
      ForwarderWritesFit(s);
    }
    hide ForwarderOk, ClientOk;
  }

  lemma Holder(s: State)
    requires MutexOk(s) && s.mutex.Some?
    ensures s.f.FSetting? || s.f.FUnlocking? || s.r.RChecking? || s.r.RUnlocking?
  {
    assert s.mutex.value.Forwarding? || s.mutex.value.Returning?;
  }

  /** The forwarding goroutine goes on, if it has a datagram in hand, or else whoever holds the mutex before it. */
  lemma ForwarderGoesOn(a: Aead, s: State) returns (step: Step)
    requires Smooth(s) && Ready(s) && !s.f.FReading?
    ensures Enabled(s, step) && Quiet(step) && !step.YAnswer? && Smooth(Apply(a, s, step))
  {
    hide Fit, Parse, Build, Dst, Reply, HeaderBytes, Frame, AddrString, Complete, Need, BE16;
    if s.mutex.Some? {
      Holder(s);
    }
    match s.f {
      case FLocking(_, _) => step := if s.mutex == None then FLock else if s.r.RChecking? then RCheck else RUnlock;
      case FSetting(_, _) => step := FSet;
      case FUnlocking(_) => step := FUnlock;
      case FStarting(_) => step := FBegin(Zeros(NONCE));
      case FWriting => step := FEmit(1);
    }
  }

  lemma ReturnerGoesOn(a: Aead, s: State) returns (step: Step)
    requires Smooth(s) && Ready(s) && s.f.FReading? && Pending(s.r)
    ensures Enabled(s, step) && Quiet(step) && !step.YAnswer? && Smooth(Apply(a, s, step))
  {
    hide Fit, Parse, Build, Dst, Reply, HeaderBytes, Frame, AddrString, Complete, Need, BE16;
    if s.mutex.Some? {
      Holder(s);
    }
    if s.r.RBuilding? {
      step := RBuild;
      Builds(a, s);
    } else {
      step := if s.r.RLocking? then RLock else if s.r.RChecking? then RCheck
              else if s.r.RUnlocking? then RUnlock else RSend;
    }
  }

  lemma Builds(a: Aead, s: State)
    requires s.r.RBuilding? && Smooth(s)
    ensures Smooth(Apply(a, s, RBuild))
  {
    hide Fit, Parse, Build, Dst, Reply, HeaderBytes, Frame, AddrString, AddrHeader, Complete, Need, BE16, WellFormed;
    BuildOfAddr(s.r.current);
  }

  /** The relay goes on, if it has a request in hand, whatever the target answers. */
  lemma RelayGoesOn(a: Aead, s: State, answer: bytes) returns (step: Step)
    requires Smooth(s) && Ready(s) && !s.y.YReading?
    ensures Enabled(s, step) && Quiet(step) && Smooth(Apply(a, s, step))
    ensures step.YAnswer? ==> step.response == answer
  {
    hide Fit, Parse, Build, Dst, Reply, HeaderBytes, Frame, AddrString, Complete, Need, BE16;
    match s.y {
      case YDialling(_, _) => step := YDial;
      case YAwaiting(_) => step := YAnswer(answer);
      case YReplying(_) => step := YBegin(Zeros(NONCE));
      case YWriting => step := YEmit(1);
    }
  }

  /** With everyone reading, a reply in transit moves on. */
  lemma ReplyGoesOn(a: Aead, s: State) returns (step: Step)
    requires Lawful(a) && Inv(a, s) && Smooth(s) && TailsOk(s)
    requires s.r.RReading? && s.y.YReading? && s.down.got < |s.down.sent|
    ensures Enabled(s, step) && Quiet(step) && !step.YAnswer? && Smooth(Apply(a, s, step))
  {
    hide Forwarded, ForwarderOk, ClientOk, MutexOk, RelayCounts, ReturnerOk, Parse, Fit, Complete, Survives, Frame;
    Moves(a, s.down);
    if Complete(s.down.part) {
      DecodedReply(a, s);
      step := RDecode;
      hide Inv, Channel.Opened;
    } else {
      hide Inv;
      step := RPull(1);
    }
  }

  /** And so does a request. */
  lemma RequestGoesOn(a: Aead, s: State) returns (step: Step)
    requires Lawful(a) && Inv(a, s) && Smooth(s) && TailsOk(s) && AllParse(s.received)
    requires s.f.FReading? && s.y.YReading? && s.up.got < |s.up.sent|
    ensures Enabled(s, step) && Quiet(step) && !step.YAnswer? && Smooth(Apply(a, s, step))
  {
    hide ForwarderOk, ClientOk, MutexOk, RelayCounts, RelayPairs, ReturnerOk, Parse, Fit, Complete, Frame, Request;
    Moves(a, s.up);
    if Complete(s.up.part) {
      DecodedRequest(a, s);
      step := YDecode;
      hide Inv, Channel.Opened;
    } else {
      hide Inv;
      step := YPull(1);
    }
  }

  /** A frame that is wholly in transit is complete or comes nearer. */
  lemma Moves(a: Aead, c: Channel)
    requires Lawful(a) && c.Inv(a) && c.tail == [] && c.got < |c.sent|
    ensures Complete(c.part) || c.CanPull(1)
  {
    if c.wire == [] {
      NothingMissing(a, c);
    }
  }

  /** As long as a datagram is not answered to the client, an association nobody disturbs can go on undisturbed. */
  lemma GoesOn(a: Aead, s: State, answer: bytes) returns (step: Step)
    requires Lawful(a) && Inv(a, s) && Smooth(s) && TailsOk(s) && AllParse(s.received) && Behind(s)
    ensures Enabled(s, step) && Quiet(step) && Smooth(Apply(a, s, step))
    ensures step.YAnswer? ==> step.response == answer
  {
    hide Enabled, Apply, Smooth, TailsOk, AllParse, Inv, Ready;
    InvReady(a, s);
    Idle(a, s);
    if !s.f.FReading? {
      step := ForwarderGoesOn(a, s);
    } else if Pending(s.r) {
      step := ReturnerGoesOn(a, s);
    } else if !s.y.YReading? {
      step := RelayGoesOn(a, s, answer);
    } else if s.down.got < |s.down.sent| {
      step := ReplyGoesOn(a, s);
    } else {
      step := RequestGoesOn(a, s);
    }
  }

  /** With everyone reading and every reply given back, an unanswered datagram is a request in transit. */
  lemma Idle(a: Aead, s: State)
    requires Inv(a, s) && Smooth(s) && Behind(s)
    ensures s.f.FReading? && !Pending(s.r) ==> s.r.RReading?
    ensures s.f.FReading? && !Pending(s.r) && s.y.YReading? && s.down.got >= |s.down.sent| ==> s.up.got < |s.up.sent|
  {
    hide Channel.Inv, RelayPairs, MutexOk, ClientOk, Forwarded, Returned, ReturnStage;
  }

  function Transit(c: Channel): nat {
    3 * |c.tail| + 2 * |c.wire| + |c.part|
  }

  function ForwarderRank(f: Forwarder): nat {
    match f
    case FLocking(_, _) => 5005
    case FSetting(_, _) => 5004
    case FUnlocking(_) => 5003
    case FStarting(_) => 5002
    case FWriting => 1
    case _ => 0
  }

  function ReturnerRank(r: Returner): nat {
    match r
    case RLocking(_) => 5
    case RChecking(_) => 4
    case RUnlocking(_, _) => 3
    case RBuilding(_, _) => 2
    case RSending(_) => 1
    case _ => 0
  }

  function RelayRank(y: Relay): nat {
    match y
    case YDialling(_, _) => 8002
    case YAwaiting(_) => 8001
    case YReplying(_) => 8000
    case YWriting => 1
    case _ => 0
  }

  /** Bounds the quiet steps still to come. */
  function Measure(s: State): nat {
    (if s.up.got <= |s.received| then 10000 * (|s.received| - s.up.got) else 0)
    + ForwarderRank(s.f) + ReturnerRank(s.r) + RelayRank(s.y) + Transit(s.up) + Transit(s.down)
  }

  lemma QuietShrinks(a: Aead, s: State, step: Step)
    requires Lawful(a) && Inv(a, s) && Enabled(s, step) && Quiet(step)
    ensures Measure(Apply(a, s, step)) < Measure(s)
  {
    hide Inv, Enabled, Apply, Measure, Lawful;
    BeginSizes(a, s);
    if ForwarderStep(step) {
      ForwarderShrinks(a, s, step);
    } else if RelayStep(step) {
      if step.YDecode? {
        TakenBelow(a, s);
      }
      RelayShrinks(a, s, step);
    } else {
      ReturnerShrinks(a, s, step);
    }
  }

  lemma ForwarderShrinks(a: Aead, s: State, step: Step)
    requires Lawful(a) && Enabled(s, step) && Quiet(step) && ForwarderStep(step)
    requires s.f.FStarting? ==> |s.f.data| <= BLOCK_SIZE
    ensures Measure(Apply(a, s, step)) < Measure(s)
  {
    hide Fit, Parse, Build, Dst, Reply, HeaderBytes, AddrString, Frame, Need, BE16, Complete, Lawful;
    if step.FBegin? {
      FrameLength(a, Packet(step.nonce, s.f.data));
    }
  }

  lemma RelayShrinks(a: Aead, s: State, step: Step)
    requires Lawful(a) && Enabled(s, step) && Quiet(step) && RelayStep(step)
    requires s.y.YReplying? ==> |s.y.packet| <= 262 + BLOCK_SIZE
    requires step.YDecode? ==> s.up.got < |s.received|
    ensures Measure(Apply(a, s, step)) < Measure(s)
  {
    hide Fit, Parse, Build, Dst, Reply, HeaderBytes, AddrString, Frame, Need, BE16, Lawful;
    if step.YBegin? {
      FrameLength(a, Packet(step.nonce, s.y.packet));
    }
  }

  lemma ReturnerShrinks(a: Aead, s: State, step: Step)
    requires Enabled(s, step) && Quiet(step) && !ForwarderStep(step) && !RelayStep(step)
    ensures Measure(Apply(a, s, step)) < Measure(s)
  {
    hide Fit, Parse, Build, Dst, Reply, HeaderBytes, AddrString, Frame, Need, BE16;
  }

  lemma BeginSizes(a: Aead, s: State)
    requires Inv(a, s)
    ensures s.f.FStarting? ==> |s.f.data| <= BLOCK_SIZE
    ensures s.y.YReplying? ==> |s.y.packet| <= 262 + BLOCK_SIZE
    ensures s.up.got <= |s.received|
  {
    hide Channel.Inv, RelayPairs, RelayCounts, Forwarded, ReturnerOk, MutexOk, ClientOk, Fit;
    RelayWritesFit(s);
    if s.f.FStarting? {
      assert s.received != [];
      ForwarderWritesFit(s);
    }
    hide ForwarderOk;
    GotBelow(a, s);
  }

  lemma GotBelow(a: Aead, s: State)
    requires Forwarded(s.received, s.up.sent) && s.up.Inv(a)
    ensures s.up.got <= |s.received|
  {
  }

  lemma TakenBelow(a: Aead, s: State)
    requires Lawful(a) && Inv(a, s) && Enabled(s, YDecode)
    ensures s.up.got < |s.received|
  {
    DecodedRequest(a, s);
  }

  predicate QuietPath(a: Aead, s: State, steps: seq<Step>, t: State)
    decreases |steps|
  {
    if steps == [] then s == t
    else Enabled(s, steps[0]) && Quiet(steps[0]) && QuietPath(a, Apply(a, s, steps[0]), steps[1..], t)
  }

  lemma QuietKeeps(a: Aead, s: State, step: Step)
    requires Enabled(s, step) && Quiet(step)
    ensures var t := Apply(a, s, step);
            && t.received == s.received
            && t.responses == if step.YAnswer? then s.responses + [step.response] else s.responses
  {
    hide Fit, Parse, Build, Dst, Reply, HeaderBytes, Frame, Need, BE16, Complete, AddrString;
  }

  /** Whatever has happened so far, and whatever the targets are going to answer: an association nobody disturbs, whose
      datagrams the relay can parse, can give back the reply to every one of them within its measure. */
  lemma {:induction false} CanReturn(a: Aead, s: State, answers: nat -> bytes) returns (steps: seq<Step>, t: State)
    requires Lawful(a) && Inv(a, s) && Smooth(s) && TailsOk(s) && AllParse(s.received)
    ensures QuietPath(a, s, steps, t) && |steps| <= Measure(s) && Inv(a, t)
    ensures t.received == s.received && |t.returned| == |t.responses| == |t.received|
    ensures forall k :: |s.responses| <= k < |t.responses| ==> t.responses[k] == answers(k)
    ensures s.responses <= t.responses
    decreases Measure(s)
  {
    hide Enabled, Apply, Smooth, TailsOk, AllParse, Inv, Measure, Quiet;
    if !Behind(s) {
      steps, t := [], s;
      AllBack(a, s);
    } else {
      var step := GoesOn(a, s, answers(|s.responses|));
      var next := Apply(a, s, step);
      StepKeeps(a, s, step);
      TailsKeep(a, s, step);
      QuietShrinks(a, s, step);
      QuietKeeps(a, s, step);
      var rest;
      rest, t := CanReturn(a, next, answers);
      steps := [step] + rest;
      assert steps[1..] == rest;
    }
  }

  lemma AllBack(a: Aead, s: State)
    requires Inv(a, s) && !Behind(s)
    ensures |s.returned| == |s.responses| == |s.received|
  {
    hide Channel.Inv, Forwarded, ForwarderOk, ClientOk, MutexOk, RelayCounts, RelayStage, Asked, ReturnStage;
  }

  /** In every run, from a state in which nothing has stopped or been cut. */
  lemma RunCanReturn(a: Aead, states: seq<State>, steps: seq<Step>, i: nat, answers: nat -> bytes)
    returns (more: seq<Step>, t: State)
    requires Lawful(a) && IsRun(a, states, steps) && i < |states| && Smooth(states[i]) && AllParse(states[i].received)
    ensures QuietPath(a, states[i], more, t) && t.received == states[i].received
    ensures Returned(t.received, t.responses, t.returned) && |t.returned| == |t.responses| == |t.received|
    ensures forall k :: |states[i].responses| <= k < |t.responses| ==> t.responses[k] == answers(k)
  {
    RunInv(a, states, steps, i);
    RunTails(a, states, steps, i);
    hide IsRun;
    more, t := CanReturn(a, states[i], answers);
    hide QuietPath;
  }

  /** A quiet path from where a run stands makes it a longer run. */
  lemma {:induction false} Longer(a: Aead, states: seq<State>, steps: seq<Step>, more: seq<Step>, t: State)
    returns (states': seq<State>, steps': seq<Step>)
    requires IsRun(a, states, steps) && QuietPath(a, states[|steps|], more, t)
    ensures IsRun(a, states', steps') && states'[|steps'|] == t
    decreases |more|
  {
    hide Init, Enabled, Apply, Quiet;
    if more == [] {
      states', steps' := states, steps;
    } else {
      var next := Apply(a, states[|steps|], more[0]);
      states', steps' := Longer(a, states + [next], steps + [more[0]], more[1..], t);
    }
  }

  /** The loss of the answering host's address does happen: for every sender and every target but the sender itself some
      run gives back one datagram, and it does not carry the header of the request it answers. */
  lemma ForeignHead(a: Aead, from: Addr, h: Header, payload: bytes, answer: bytes)
    returns (states: seq<State>, steps: seq<Step>)
    requires Lawful(a) && WellFormed(h) && h != AddrHeader(from) && |HeaderBytes(h) + payload| <= 1500
    ensures IsRun(a, states, steps)
    ensures var t := states[|steps|];
            var asked := HeaderBytes(h) + payload;
            && t.received == [(from, asked)] && t.responses == [answer] && |t.returned| == 1
            && t.returned[0].1 == ForClient(from, Survives(asked, answer))
            && !(HeaderBytes(h) <= t.returned[0].1)
  {
    var asked := HeaderBytes(h) + payload;
    RequestIntact(h, payload);
    hide Parse, HeaderBytes, Request, Fit, Dst;
    var s := OneDatagram(a, from, asked);
    var first := Datagram(from, asked);
    var begun := [s, Apply(a, s, first)];
    assert AllParse(begun[1].received);
    hide Apply;
    var more, t := RunCanReturn(a, begun, [first], 1, _ => answer);
    states, steps := Longer(a, begun, [first], more, t);
    hide QuietPath, IsRun, Lawful;
    assert t.responses == [answer];
    Heads(h, from, Survives(asked, answer));
  }

  lemma OneDatagram(a: Aead, from: Addr, data: bytes) returns (s: State)
    ensures Enabled(s, Datagram(from, data))
    ensures IsRun(a, [s, Apply(a, s, Datagram(from, data))], [Datagram(from, data)])
    ensures var t := Apply(a, s, Datagram(from, data));
            Smooth(t) && t.received == [(from, data)] && t.responses == []
  {
    var empty := Channel([], 0, [], [], [], false);
    s := State(FReading, RReading, YReading, None, None, empty, empty, [], [], [], []);
  }
}
