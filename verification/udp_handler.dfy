/** The two goroutines of socks5-server/internal/udp/handler.go as code, each run on its own while the other one rests;
    what they do together is the subject of UdpAssociation. */
module UdpHandler {
  import opened Bytes
  import opened Constants
  import opened Frames
  import opened SecureChannel
  import opened Pump
  import opened UdpHeader
  import opened UdpAssociation
  import opened UdpRelay

  /** The UDP socket: the datagrams that arrive before a read deadline passes, and how many sends will succeed. */
  class UdpConn {
    var inbox: seq<(Addr, bytes)>
    var sent: seq<(Addr, bytes)>
    var room: nat

    method ReadFromUDP(buf: array<byte>) returns (n: nat, from: Option<Addr>)
      modifies this`inbox, buf
      ensures n <= buf.Length
      ensures old(inbox) == [] ==> n == 0 && from == None && inbox == []
      ensures old(inbox) != [] ==>
                var (sender, data) := old(inbox)[0];
                from == Some(sender) && inbox == old(inbox)[1..] && buf[..n] == Fit(data, buf.Length)
    {
      if inbox == [] {
        return 0, None;
      }
      var (sender, data) := inbox[0];
      n := Min(|data|, buf.Length);
      forall i | 0 <= i < n {
        buf[i] := data[i];
      }
      assert buf[..n] == data[..n];
      inbox := inbox[1..];
      return n, Some(sender);
    }

    method WriteToUDP(packet: bytes, to: Addr) returns (ok: bool)
      modifies this`sent, this`room
      ensures ok <==> old(room) > 0
      ensures ok ==> sent == old(sent) + [(to, packet)] && room == old(room) - 1
      ensures !ok ==> sent == old(sent) && room == old(room)
    {
      if room == 0 {
        return false;
      }
      sent, room := sent + [(to, packet)], room - 1;
      return true;
    }
  }

  class Mutex {
    var held: bool

    /** Not `ok`: the caller waits, and as long as nobody else unlocks, for good. */
    method Lock() returns (ok: bool)
      modifies this
      ensures held && (ok <==> !old(held))
    {
      ok := !held;
      held := true;
    }

    method Unlock()
      requires held
      modifies this
      ensures !held
    {
      held := false;
    }
  }

  // ---------- what the goroutines do, as functions of what arrives ----------

  /** The request frames for these datagrams. */
  function Requests(datagrams: seq<(Addr, bytes)>, nonceAt: nat -> bytes, k: nat): seq<Packet> {
    if datagrams == [] then []
    else [Packet(nonceAt(k), Fit(datagrams[0].1, BLOCK_SIZE))] + Requests(datagrams[1..], nonceAt, k + 1)
  }

  /** The payload of a reply, unless it cannot be read or parsed. */
  function Payload(r: ReadResult): (payload: Option<bytes>)
    ensures payload.Some? ==> r.Got?
  {
    if r.Failed? then None
    else
      match Parse(Fit(r.body, BLOCK_SIZE))
      case None => None
      case Some((_, payload)) => Some(payload)
  }

  /** The payloads of the replies taken off the link, up to the first that cannot be read or parsed. */
  function Payloads(a: Aead, s: bytes, end: Ending): seq<bytes>
    decreases |s|
  {
    var r := ReadFrame(a, s, end);
    match Payload(r)
    case None => []
    case Some(payload) => [payload] + Payloads(a, r.rest, end)
  }

  /** The same of a link end that may be closed. */
  function Arriving(a: Aead, isOpen: bool, s: bytes, end: Ending): seq<bytes> {
    if isOpen then Payloads(a, s, end) else []
  }

  lemma ArrivingUnrolls(a: Aead, isOpen: bool, s: bytes, end: Ending)
    ensures var r := Outcome(a, isOpen, s, end);
            && |r.rest| <= |s| && (Payload(r).Some? ==> |r.rest| < |s|)
            && Arriving(a, isOpen, s, end)
               == if Payload(r).None? then [] else [Payload(r).value] + Arriving(a, isOpen, r.rest, end)
  {
    hide Parse;
  }

  function ForClients(to: Addr, payloads: seq<bytes>): seq<(Addr, bytes)> {
    if payloads == [] then [] else [(to, ForClient(to, payloads[0]))] + ForClients(to, payloads[1..])
  }

  /** The client's address after these datagrams: the first sender's, once and for all. */
  function Learned(known: Option<Addr>, datagrams: seq<(Addr, bytes)>): Option<Addr> {
    if known.Some? || datagrams == [] then known else Some(datagrams[0].0)
  }

  datatype Turn = GoesOn | Stops | Waits

  /** What the returning goroutine changes: the mutex, and what the socket sent and will still send. */
  datatype Side = Side(held: bool, sent: seq<(Addr, bytes)>, room: nat)

  /** One turn with this reply, if there was one. */
  function Returns(client: Option<Addr>, reply: Option<bytes>, s: Side): (Side, Turn) {
    if reply.None? then (s, Stops)
    else if s.held then (s, Waits)
    else if client.None? then (s.(held := true), GoesOn)
    else if s.room == 0 then (s, Stops)
    else (s.(sent := s.sent + [(client.value, ForClient(client.value, reply.value))], room := s.room - 1), GoesOn)
  }

  /** All turns, on these replies: where they lead, outright. */
  function ReturnsAll(client: Option<Addr>, replies: seq<bytes>, s: Side): (Side, Turn) {
    if s.held then (s, if replies == [] then Stops else Waits)
    else
      match client
      case None => (s.(held := replies != []), if |replies| >= 2 then Waits else Stops)
      case Some(c) =>
        var n := Min(|replies|, s.room);
        (s.(sent := s.sent + ForClients(c, replies[..n]), room := s.room - n), Stops)
  }

  /** The first turn and then all others. */
  lemma ReturnsUnrolls(client: Option<Addr>, replies: seq<bytes>, s: Side)
    ensures var reply := if replies == [] then None else Some(replies[0]);
            var (s', turn) := Returns(client, reply, s);
            ReturnsAll(client, replies, s)
            == if turn == GoesOn then ReturnsAll(client, replies[1..], s') else (s', turn)
  {
    hide ForClient;
    if !s.held && client.Some? && s.room > 0 && replies != [] {
      var n := Min(|replies|, s.room);
      assert replies[..n][1..] == replies[1..][..n - 1] && replies[..n][0] == replies[0];
      var first := [(client.value, ForClient(client.value, replies[0]))];
      assert s.sent + (first + ForClients(client.value, replies[1..][..n - 1]))
             == s.sent + first + ForClients(client.value, replies[1..][..n - 1]);
    } else {
      assert client.Some? ==> ForClients(client.value, []) == [];
      assert replies[..0] == [] && s.sent + [] == s.sent;
    }
  }

  // ---------- the code ----------

  class Association {
    const udpConn: UdpConn
    const remoteConn: SecureConn
    const clientAddrMu: Mutex
    var clientAddr: Option<Addr>

    constructor (udpConn: UdpConn, remoteConn: SecureConn)
      ensures this.udpConn == udpConn && this.remoteConn == remoteConn && clientAddr == None
      ensures fresh(clientAddrMu) && !clientAddrMu.held
    {
      this.udpConn, this.remoteConn, clientAddr := udpConn, remoteConn, None;
      var mutex := new Mutex;
      clientAddrMu := mutex;
      new;
      mutex.held := false;
    }

    /** Its critical section. */
    method LearnClient(from: Addr) returns (ok: bool)
      modifies this`clientAddr, clientAddrMu
      ensures clientAddrMu.held == old(clientAddrMu.held) && (ok <==> !clientAddrMu.held)
      ensures clientAddr == if ok && old(clientAddr) == None then Some(from) else old(clientAddr)
    {
      ok := clientAddrMu.Lock();
      if !ok {
        return;
      }
      if clientAddr == None {
        clientAddr := Some(from);
      }
      clientAddrMu.Unlock();
    }

    /** One turn of the forwarding goroutine. With the mutex held by the other one, it waits with the datagram in
        hand. */
    method ForwardOnce(nonce: bytes) returns (turn: Turn)
      requires |nonce| == NONCE
      modifies this`clientAddr, clientAddrMu, udpConn`inbox, remoteConn.conn`outgoing, remoteConn.conn`room
      ensures var waiting := old(udpConn.inbox);
              var sent := if waiting == [] || old(clientAddrMu.held) then []
                          else Frame(remoteConn.aead, Packet(nonce, Fit(waiting[0].1, BLOCK_SIZE)));
              var out, takes := old(remoteConn.conn.outgoing), old(remoteConn.conn.Takes());
              && udpConn.inbox == (if waiting == [] then [] else waiting[1..])
              && clientAddr == (if old(clientAddrMu.held) then old(clientAddr) else Learned(old(clientAddr), waiting))
              && remoteConn.conn.outgoing == Fit(out + sent, |out| + takes)
              && |remoteConn.conn.outgoing| + remoteConn.conn.Takes() == |out| + takes
              && turn == if waiting == [] then Stops else if old(clientAddrMu.held) then Waits
                         else if remoteConn.conn.outgoing == out + sent then GoesOn else Stops
      ensures clientAddrMu.held == old(clientAddrMu.held)
    {
      var buf := new byte[BLOCK_SIZE];
      FitAll(remoteConn.conn.outgoing, remoteConn.conn.Takes());
      assert remoteConn.conn.outgoing + [] == remoteConn.conn.outgoing;
      var n, from := udpConn.ReadFromUDP(buf);
      if from.None? {
        return Stops;
      }
      var ok := LearnClient(from.value);
      if !ok {
        return Waits;
      }
      ghost var p := Packet(nonce, buf[..n]);
      FrameIsSome(remoteConn.aead, p);
      WriteSplits(remoteConn.conn.outgoing, Frame(remoteConn.aead, p), remoteConn.conn.Takes());
      var wErr := remoteConn.Write(buf[..n], nonce);
      return if wErr.Some? then Stops else GoesOn;
    }

    /** The forwarding goroutine: one frame per datagram, in order, as long as the link takes them; and the client is
        whoever sent the first. If the other goroutine sits on the mutex, it forwards nothing at all. */
    method ForwardDatagrams(nonceAt: nat -> bytes) returns (turn: Turn)
      requires forall i :: |nonceAt(i)| == NONCE
      modifies this`clientAddr, clientAddrMu, udpConn`inbox, remoteConn.conn`outgoing, remoteConn.conn`room
      ensures clientAddrMu.held == old(clientAddrMu.held)
      ensures turn == if old(clientAddrMu.held) && old(udpConn.inbox) != [] then Waits else Stops
      ensures old(clientAddrMu.held) ==>
                remoteConn.conn.outgoing == old(remoteConn.conn.outgoing) && clientAddr == old(clientAddr)
      ensures !old(clientAddrMu.held) ==>
                var requests := Requests(old(udpConn.inbox), nonceAt, 0);
                var out := old(remoteConn.conn.outgoing);
                var all := out + Frames.Encode(remoteConn.aead, requests);
                && remoteConn.conn.outgoing == Fit(all, |out| + old(remoteConn.conn.Takes()))
                && (remoteConn.conn.outgoing == all ==> udpConn.inbox == [])
                && clientAddr == Learned(old(clientAddr), old(udpConn.inbox))
    {
      var conn := remoteConn.conn;
      ghost var out0 := conn.outgoing;
      ghost var all, limit := conn.outgoing, |conn.outgoing| + conn.Takes();
      ghost var ahead := Requests(udpConn.inbox, nonceAt, 0);
      ghost var learned := Learned(clientAddr, udpConn.inbox);
      all := all + Frames.Encode(remoteConn.aead, ahead);
      hide Frame, Frames.Encode, Fit, Lawful;
      var k := 0;
      while true
        invariant clientAddrMu.held == old(clientAddrMu.held)
        invariant clientAddrMu.held ==>
                    && k == 0 && conn.outgoing == out0 && clientAddr == old(clientAddr)
                    && udpConn.inbox == old(udpConn.inbox)
        invariant ahead == Requests(udpConn.inbox, nonceAt, k)
        invariant all == conn.outgoing + Frames.Encode(remoteConn.aead, ahead)
        invariant |conn.outgoing| + conn.Takes() == limit
        invariant Learned(clientAddr, udpConn.inbox) == learned && (k > 0 ==> clientAddr == learned)
        decreases |udpConn.inbox|
      {
        ghost var out := conn.outgoing;
        ghost var waiting := udpConn.inbox;
        FitAll(conn.outgoing, conn.Takes());
        turn := ForwardOnce(nonceAt(k));
        if waiting == [] {
          EncodeNone(remoteConn.aead);
          assert conn.outgoing == all;
        } else {
          Front(remoteConn.aead, out, ahead);
        }
        if turn != GoesOn {
          if waiting != [] && turn == Stops {
            ghost var reached := out + Frame(remoteConn.aead, ahead[0]);
            FitIgnores(reached, Frames.Encode(remoteConn.aead, ahead[1..]), limit);
            assert |conn.outgoing| < |reached| <= |all|;
          }
          break;
        }
        k := k + 1;
        ahead := ahead[1..];
      }
    }

    /** Its first half: read a reply and take it apart. */
    method NextPayload() returns (payload: Option<bytes>)
      modifies remoteConn.conn`incoming
      ensures var r := Outcome(remoteConn.aead, remoteConn.conn.isOpen, old(remoteConn.conn.incoming),
                               remoteConn.conn.ending);
              remoteConn.conn.incoming == r.rest && payload == Payload(r)
    {
      var buf := new byte[BLOCK_SIZE];
      ghost var r :=
        Outcome(remoteConn.aead, remoteConn.conn.isOpen, remoteConn.conn.incoming, remoteConn.conn.ending);
      hide Outcome, Parse;
      var n, err := remoteConn.Read(buf);
      if err.Some? {
        return None;
      }
      assert buf[..n] == Fit(r.body, BLOCK_SIZE);
      var parsed := Parse(buf[..n]);
      return if parsed.None? then None else Some(parsed.value.1);
    }

    function Here(): Side
      reads clientAddrMu, udpConn`sent, udpConn`room
    {
      Side(clientAddrMu.held, udpConn.sent, udpConn.room)
    }

    /** Its end: a header for the address seen under the mutex, sent to the address the variable holds by now. */
    method SendBack(currentClientAddr: Addr, payload: bytes) returns (ok: bool)
      requires clientAddr.Some?
      modifies udpConn`sent, udpConn`room
      ensures ok <==> old(udpConn.room) > 0
      ensures ok ==> udpConn.sent == old(udpConn.sent) + [(clientAddr.value, ForClient(currentClientAddr, payload))]
                     && udpConn.room == old(udpConn.room) - 1
      ensures !ok ==> udpConn.sent == old(udpConn.sent) && udpConn.room == old(udpConn.room)
    {
      hide Build, HeaderBytes, AddrString, AddrHeader;
      BuildOfAddr(currentClientAddr);
      var header := Build(AddrString(currentClientAddr), NoMapping);
      var packet := HeaderBytes(header.value) + payload;
      ok := udpConn.WriteToUDP(packet, clientAddr.value);
    }

    /** One turn of the returning goroutine. The branch for an unknown client goes on without unlocking. */
    method ReturnOnce() returns (turn: Turn)
      modifies clientAddrMu, udpConn`sent, udpConn`room, remoteConn.conn`incoming
      ensures var r := Outcome(remoteConn.aead, remoteConn.conn.isOpen, old(remoteConn.conn.incoming),
                               remoteConn.conn.ending);
              && remoteConn.conn.incoming == r.rest
              && Returns(clientAddr, Payload(r), old(Here())) == (Here(), turn)
    {
      var payload := NextPayload();
      hide Payload, Outcome, ForClient;
      if payload.None? {
        return Stops;
      }
      var ok := clientAddrMu.Lock();
      if !ok {
        return Waits;
      }
      if clientAddr == None {
        return GoesOn;
      }
      var currentClientAddr := clientAddr.value;
      clientAddrMu.Unlock();
      var sent := SendBack(currentClientAddr, payload.value);
      return if sent then GoesOn else Stops;
    }

    /** The returning goroutine. With a known client every reply's payload goes to it, in order, as long as the socket
        takes them, and the mutex ends up free. With an unknown one nothing is sent, the first reply costs the mutex,
        and on the second the goroutine waits for itself; with the mutex in other hands it waits on the first. */
    method ReturnReplies() returns (turn: Turn)
      modifies clientAddrMu, udpConn`sent, udpConn`room, remoteConn.conn`incoming
      ensures var replies := Arriving(remoteConn.aead, remoteConn.conn.isOpen, old(remoteConn.conn.incoming),
                                      remoteConn.conn.ending);
              (Here(), turn) == ReturnsAll(clientAddr, replies, old(Here()))
    {
      var conn := remoteConn.conn;
      ghost var all :=
        ReturnsAll(clientAddr, Arriving(remoteConn.aead, conn.isOpen, conn.incoming, conn.ending), Here());
      hide Payload, Returns, ReturnsAll, ReadFrame, Outcome, Arriving;
      while true
        invariant all ==
                  ReturnsAll(clientAddr, Arriving(remoteConn.aead, conn.isOpen, conn.incoming, conn.ending), Here())
        decreases |conn.incoming|
      {
        ArrivingUnrolls(remoteConn.aead, conn.isOpen, conn.incoming, conn.ending);
        ReturnsUnrolls(clientAddr, Arriving(remoteConn.aead, conn.isOpen, conn.incoming, conn.ending), Here());
        NoReplyStops(clientAddr, Here());
        turn := ReturnOnce();
        if turn != GoesOn {
          break;
        }
      }
    }
  }

  lemma NoReplyStops(client: Option<Addr>, s: Side)
    ensures Returns(client, None, s) == (s, Stops)
  {
  }

  // ---------- a whole association in three passes ----------

  /** What the forwarding goroutine writes is what the invariant of UdpAssociation says of its frames. */
  lemma {:induction false} RequestsAre(datagrams: seq<(Addr, bytes)>, nonceAt: nat -> bytes, k: nat)
    requires forall i :: |nonceAt(i)| == NONCE
    ensures var ps := Requests(datagrams, nonceAt, k);
            |ps| == |datagrams| && Forwarded(datagrams, ps) && AllSendable(ps)
  {
    if datagrams != [] {
      assert |Fit(datagrams[0].1, BLOCK_SIZE)| <= BLOCK_SIZE;
      hide Fit;
      RequestsAre(datagrams[1..], nonceAt, k + 1);
    }
  }

  lemma {:induction false} ServeSendable(a: Aead, s: bytes, end: Ending, o: Outside, k: nat)
    requires Drawn(o)
    ensures AllSendable(Serve(a, s, end, o, k))
    decreases |s|
  {
    hide Parse, Dst;
    match ReadFrame(a, s, end)
    case Failed(_, _) =>
    case Got(body, rest) =>
      if !o.done(k) && Exchange(o.targets, k, body).Some? {
        ServeSendable(a, rest, end, o, k + 1);
        ExchangeFits(o.targets, k, body);
        hide Exchange, ReadFrame;
      }
  }

  lemma ExchangeFits(targets: Targets, k: nat, body: bytes)
    requires Exchange(targets, k, body).Some?
    ensures |Exchange(targets, k, body).value| <= 262 + BLOCK_SIZE
  {
    HeaderLength(Parse(Fit(body, BLOCK_SIZE)).value.0);
    hide Parse, HeaderBytes, Dst;
  }

  /** What the returning goroutine makes of a stream of whole reply frames. */
  lemma {:induction false} PayloadsOf(a: Aead, ps: seq<Packet>, end: Ending, parts: seq<bytes>)
    requires Lawful(a) && AllSendable(ps) && |parts| == |ps|
    requires forall i :: 0 <= i < |ps| ==>
               Parse(Fit(ps[i].body, BLOCK_SIZE)).Some? && Parse(Fit(ps[i].body, BLOCK_SIZE)).value.1 == parts[i]
    ensures Payloads(a, Frames.Encode(a, ps), end) == parts
  {
    hide Parse, Fit;
    if ps == [] {
      assert Frames.Encode(a, ps) == [];
    } else {
      var rest := Frames.Encode(a, ps[1..]);
      ReadUndoesWrite(a, ps[0], rest, end);
      assert ReadFrame(a, Frames.Encode(a, ps), end) == Got(ps[0].body, rest);
      hide ReadFrame, Lawful, Frame;
      PayloadsOf(a, ps[1..], end, parts[1..]);
      assert parts == [parts[0]] + parts[1..];
    }
  }

  /** `part` is what survives of the target's response to this datagram, the k-th. */
  predicate Answered(datagram: bytes, targets: Targets, k: nat, part: bytes) {
    && Request(datagram).Some?
    && var (where, payload) := Target(datagram);
       targets(k, where, payload).Some? && part == Survives(datagram, targets(k, where, payload).value)
  }

  predicate Unanswered(datagram: bytes, targets: Targets, k: nat) {
    Request(datagram).None? || targets(k, Target(datagram).0, Target(datagram).1).None?
  }

  lemma AnswerOf(datagram: bytes, targets: Targets, k: nat, body: bytes, reply: bytes)
    requires body == Fit(datagram, BLOCK_SIZE) && Exchange(targets, k, body) == Some(reply)
    ensures var r := Parse(Fit(reply, BLOCK_SIZE)); r.Some? && Answered(datagram, targets, k, r.value.1)
  {
    FitTwice(datagram);
    var (h, payload) := Request(datagram).value;
    var response := targets(k, Dst(h), payload).value;
    ReplySurvives(datagram, response);
  }

  lemma NoAnswerOf(datagram: bytes, targets: Targets, k: nat, body: bytes)
    requires body == Fit(datagram, BLOCK_SIZE) && Exchange(targets, k, body).None?
    ensures Unanswered(datagram, targets, k)
  {
    FitTwice(datagram);
    hide Parse, Dst;
  }

  /** From datagrams to replies: the forwarding goroutine's frames through the relay's loop, its frames through the
      returning goroutine. The i-th payload given back is what survives of the response to the i-th datagram's own
      payload, asked for where that datagram says; they stop only behind a datagram the relay cannot parse or get an
      answer to, or with its context cancelled. */
  lemma ThereAndBack(a: Aead, datagrams: seq<(Addr, bytes)>, nonceAt: nat -> bytes, o: Outside, end: Ending,
                     end': Ending)
    requires Lawful(a) && (forall i :: |nonceAt(i)| == NONCE) && Drawn(o)
    ensures var frames := Frames.Encode(a, Requests(datagrams, nonceAt, 0));
            var payloads := Payloads(a, Frames.Encode(a, Serve(a, frames, end, o, 0)), end');
            && |payloads| <= |datagrams|
            && (forall i :: 0 <= i < |payloads| ==> !o.done(i) && Answered(datagrams[i].1, o.targets, i, payloads[i]))
            && (|payloads| < |datagrams| ==>
                  o.done(|payloads|) || Unanswered(datagrams[|payloads|].1, o.targets, |payloads|))
  {
    var asked := Requests(datagrams, nonceAt, 0);
    var served := Serve(a, Frames.Encode(a, asked), end, o, 0);
    RequestsAre(datagrams, nonceAt, 0);
    ServesPayloads(a, asked, end, o, 0);
    ServeSendable(a, Frames.Encode(a, asked), end, o, 0);
    hide Requests, Serve, Answers, Payloads, Frames.Encode, Lawful, AllSendable, Forwarded, Parse, Fit;
    hide Answered, Unanswered, ReadFrame;
    AnswersEnd(datagrams, o.targets, o.done, asked, served);
    var parts := AnswerParts(datagrams, o.targets, o.done, asked, served);
    PayloadsOf(a, served, end', parts);
  }

  lemma AnswerParts(datagrams: seq<(Addr, bytes)>, targets: Targets, done: Cancelled, asked: seq<Packet>,
                    served: seq<Packet>)
    returns (parts: seq<bytes>)
    requires |asked| == |datagrams| && Forwarded(datagrams, asked)
    requires Bodies(served) == Answers(targets, done, 0, asked) && |served| <= |datagrams|
    ensures |parts| == |served|
    ensures forall i :: 0 <= i < |served| ==>
              && !done(i) && Answered(datagrams[i].1, targets, i, parts[i])
              && Parse(Fit(served[i].body, BLOCK_SIZE)).Some?
              && Parse(Fit(served[i].body, BLOCK_SIZE)).value.1 == parts[i]
  {
    hide Answers, Answered, Parse, Fit, Forwarded;
    forall i | 0 <= i < |served|
      ensures var r := Parse(Fit(served[i].body, BLOCK_SIZE));
              !done(i) && r.Some? && Answered(datagrams[i].1, targets, i, r.value.1)
    {
      AnswerAt(datagrams, targets, done, asked, served, i);
    }
    parts := seq(|served|, i requires 0 <= i < |served| => Parse(Fit(served[i].body, BLOCK_SIZE)).value.1);
  }

  lemma AnswerAt(datagrams: seq<(Addr, bytes)>, targets: Targets, done: Cancelled, asked: seq<Packet>,
                    served: seq<Packet>, i: nat)
    requires |asked| == |datagrams| && Forwarded(datagrams, asked)
    requires Bodies(served) == Answers(targets, done, 0, asked) && i < |served| <= |datagrams|
    ensures var r := Parse(Fit(served[i].body, BLOCK_SIZE));
            !done(i) && r.Some? && Answered(datagrams[i].1, targets, i, r.value.1)
  {
    hide Answers, Answered, Exchange, Parse, Fit;
    AnswersInTurn(targets, done, 0, asked, i);
    AnswerOf(datagrams[i].1, targets, i, asked[i].body, served[i].body);
  }

  lemma AnswersEnd(datagrams: seq<(Addr, bytes)>, targets: Targets, done: Cancelled, asked: seq<Packet>,
                    served: seq<Packet>)
    requires |asked| == |datagrams| && Forwarded(datagrams, asked) && Bodies(served) == Answers(targets, done, 0, asked)
    ensures |served| <= |datagrams|
    ensures |served| < |datagrams| ==> done(|served|) || Unanswered(datagrams[|served|].1, targets, |served|)
  {
    hide Answers, Unanswered, Exchange, Fit;
    AnswersInTurn(targets, done, 0, asked, |served|);
    if |served| < |datagrams| && !done(|served|) {
      NoAnswerOf(datagrams[|served|].1, targets, |served|, asked[|served|].body);
    }
  }
}
