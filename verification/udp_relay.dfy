/** The relay's request loop of relay-server/internal/udp/relay.go, run on its own against any stream of requests. */
module UdpRelay {
  import opened Bytes
  import opened Constants
  import opened Frames
  import opened SecureChannel
  import opened Pump
  import opened UdpHeader
  import opened UdpAssociation

  /** What the k-th exchange brings: the target's response to a payload sent to a destination, or None when dialling,
      writing or reading fails. */
  type Targets = (nat, bytes, bytes) -> Option<bytes>

  function Exchange(targets: Targets, k: nat, body: bytes): Option<bytes> {
    var r := Parse(Fit(body, BLOCK_SIZE));
    if r.None? then None
    else
      var response := targets(k, Dst(r.value.0), r.value.1);
      if response.None? then None else Some(Reply(r.value.0, response.value))
  }

  /** Whether the loop finds the context cancelled in front of its k-th turn. */
  type Cancelled = nat -> bool

  /** What the loop meets outside: the targets, the context, and the nonces drawn for its writes. */
  datatype Outside = Outside(targets: Targets, done: Cancelled, nonceAt: nat -> bytes)

  ghost predicate Drawn(o: Outside) {
    forall i :: |o.nonceAt(i)| == NONCE
  }

  /** All reply frames the loop has to write: one per request, up to the first that cannot be read, parsed or
      answered or that is left to a cancelled context. */
  function Serve(a: Aead, s: bytes, end: Ending, o: Outside, k: nat): seq<Packet>
    decreases |s|
  {
    if o.done(k) then []
    else
      match ReadFrame(a, s, end)
      case Failed(_, _) => []
      case Got(body, rest) =>
        match Exchange(o.targets, k, body)
        case None => []
        case Some(reply) => [Packet(o.nonceAt(k), reply)] + Serve(a, rest, end, o, k + 1)
  }

  /** One turn up to the reply: read into a fresh buffer, parse, dial, send, await the answer. */
  method NextReply(link: SecureConn, targets: Targets, k: nat) returns (reply: Option<bytes>)
    requires link.conn.isOpen
    modifies link.conn`incoming
    ensures var r := ReadFrame(link.aead, old(link.conn.incoming), link.conn.ending);
            && link.conn.incoming == r.rest
            && reply == if r.Failed? then None else Exchange(targets, k, r.body)
  {
    var buf := new byte[BLOCK_SIZE];
    ghost var r := ReadFrame(link.aead, link.conn.incoming, link.conn.ending);
    var n, err := link.Read(buf);
    if err.Some? {
      return None;
    }
    assert buf[..n] == Fit(r.body, BLOCK_SIZE);
    var parsed := Parse(buf[..n]);
    if parsed.None? {
      return None;
    }
    var (header, payload) := parsed.value;
    var response := targets(k, Dst(header), payload);
    if response.None? {
      return None;
    }
    return Some(Reply(header, response.value));
  }

  /** A whole turn; `reply` is what it tried to write, if there was anything to write. */
  method ServeOnce(link: SecureConn, targets: Targets, k: nat, nonce: bytes) returns (reply: Option<bytes>, ok: bool)
    requires link.conn.isOpen && |nonce| == NONCE
    modifies link.conn`incoming, link.conn`outgoing, link.conn`room
    ensures var r := ReadFrame(link.aead, old(link.conn.incoming), link.conn.ending);
            && link.conn.incoming == r.rest
            && reply == if r.Failed? then None else Exchange(targets, k, r.body)
    ensures var sent := if reply.None? then [] else Frame(link.aead, Packet(nonce, reply.value));
            var out := old(link.conn.outgoing);
            && link.conn.outgoing == Fit(out + sent, |out| + old(link.conn.room))
            && (ok <==> reply.Some? && link.conn.outgoing == out + sent)
            && |link.conn.outgoing| + link.conn.room == |out| + old(link.conn.room)
  {
    reply := NextReply(link, targets, k);
    FitAll(link.conn.outgoing, link.conn.room);
    if reply.None? {
      assert link.conn.outgoing + [] == link.conn.outgoing;
      return reply, false;
    }
    WriteSplits(link.conn.outgoing, Frame(link.aead, Packet(nonce, reply.value)), link.conn.room);
    var wErr := link.Write(reply.value, nonce);
    ok := wErr.None?;
  }

  /** What a link that takes `limit` bytes in all has got of these frames behind `out`. */
  function Written(a: Aead, out: bytes, ps: seq<Packet>, limit: nat): bytes {
    Fit(out + Frames.Encode(a, ps), limit)
  }

  lemma WrittenUnrolls(a: Aead, out: bytes, ps: seq<Packet>, limit: nat)
    requires |out| <= limit
    ensures ps == [] ==> Written(a, out, ps, limit) == out == Fit(out + [], limit)
    ensures ps != [] ==>
              var f := Frame(a, ps[0]);
              Written(a, out, ps, limit)
              == if Fit(out + f, limit) == out + f then Written(a, out + f, ps[1..], limit) else Fit(out + f, limit)
  {
    EncodeNone(a);
    FitAll(out, limit - |out|);
    assert out + [] == out;
    if ps != [] {
      Front(a, out, ps);
      var f := Frame(a, ps[0]);
      if Fit(out + f, limit) != out + f {
        FitIgnores(out + f, Frames.Encode(a, ps[1..]), limit);
      }
    }
  }

  lemma WrittenTurn(a: Aead, out: bytes, ps: seq<Packet>, limit: nat, out': bytes, ok: bool)
    requires |out| <= limit
    requires var sent := if ps == [] then [] else Frame(a, ps[0]);
             out' == Fit(out + sent, limit) && (ok <==> ps != [] && out' == out + sent)
    ensures Written(a, out, ps, limit) == if ok then Written(a, out', ps[1..], limit) else out'
  {
    WrittenUnrolls(a, out, ps, limit);
    hide Written, Fit, Frame;
  }

  lemma ServeUnrolls(a: Aead, s: bytes, end: Ending, o: Outside, k: nat)
    ensures var r := ReadFrame(a, s, end);
            var reply := if o.done(k) || r.Failed? then None else Exchange(o.targets, k, r.body);
            && |r.rest| <= |s| && (r.Got? ==> |r.rest| < |s|)
            && var ps := Serve(a, s, end, o, k);
               && (reply.None? <==> ps == [])
               && (reply.Some? ==> ps[0] == Packet(o.nonceAt(k), reply.value)
                                   && ps[1..] == Serve(a, r.rest, end, o, k + 1))
  {
    hide Exchange;
  }

  lemma EncodeNone(a: Aead)
    ensures Frames.Encode(a, []) == []
  {
  }

  lemma Front(a: Aead, out: bytes, ps: seq<Packet>)
    requires ps != []
    ensures out + Frames.Encode(a, ps) == out + Frame(a, ps[0]) + Frames.Encode(a, ps[1..])
  {
  }

  lemma FitIgnores(s: bytes, t: bytes, limit: nat)
    requires Fit(s, limit) != s
    ensures Fit(s + t, limit) == Fit(s, limit) && |Fit(s, limit)| < |s|
  {
  }

  /** What the link will have got in the end, from here on: the reply frames still to be written, in order, as far as it
      takes them. */
  function Finally(link: SecureConn, o: Outside, k: nat): bytes
    reads link.conn
  {
    var ahead := Serve(link.aead, link.conn.incoming, link.conn.ending, o, k);
    Written(link.aead, link.conn.outgoing, ahead, |link.conn.outgoing| + link.conn.room)
  }

  /** One turn of the loop with the look at the context in front of it: it leaves the end as it was, or is at it. */
  method ServeTurn(link: SecureConn, o: Outside, k: nat) returns (ok: bool)
    requires link.conn.isOpen && Drawn(o)
    modifies link.conn`incoming, link.conn`outgoing, link.conn`room
    ensures ok ==> |link.conn.incoming| < |old(link.conn.incoming)|
    ensures old(Finally(link, o, k)) == if ok then Finally(link, o, k + 1) else link.conn.outgoing
  {
    ghost var s, out, limit := link.conn.incoming, link.conn.outgoing, |link.conn.outgoing| + link.conn.room;
    ghost var ahead := Serve(link.aead, s, link.conn.ending, o, k);
    assert |o.nonceAt(k)| == NONCE;
    hide Frame, Frames.Encode, Exchange, Fit, ReadFrame, Serve, Lawful, Written;
    ServeUnrolls(link.aead, s, link.conn.ending, o, k);
    if o.done(k) {
      WrittenUnrolls(link.aead, out, ahead, limit);
      return false;
    }
    var reply;
    reply, ok := ServeOnce(link, o.targets, k, o.nonceAt(k));
    assert reply.Some? ==> ahead[0] == Packet(o.nonceAt(k), reply.value);
    WrittenTurn(link.aead, out, ahead, limit, link.conn.outgoing, ok);
  }

  /** The loop writes exactly the frames of Serve, in order, as long as the link takes them, and closes the link. */
  method HandleUdpRelay(link: SecureConn, o: Outside)
    requires link.conn.isOpen && Drawn(o)
    modifies link.conn`incoming, link.conn`outgoing, link.conn`room, link.conn`isOpen
    ensures link.conn.outgoing == old(Finally(link, o, 0))
    ensures !link.conn.isOpen
  {
    var served := 0;
    hide Finally;
    while true
      invariant link.conn.isOpen && Finally(link, o, served) == old(Finally(link, o, 0))
      decreases |link.conn.incoming|
    {
      var ok := ServeTurn(link, o, served);
      if !ok {
        break;
      }
      served := served + 1;
    }
    link.conn.Close();
  }

  /** The same loop on payloads instead of bytes. */
  function Answers(targets: Targets, done: Cancelled, k: nat, ps: seq<Packet>): seq<bytes>
    decreases |ps|
  {
    if ps == [] || done(k) then []
    else
      match Exchange(targets, k, ps[0].body)
      case None => []
      case Some(reply) => [reply] + Answers(targets, done, k + 1, ps[1..])
  }

  lemma NothingRead(a: Aead, end: Ending)
    ensures ReadFrame(a, [], end).Failed?
  {
  }

  /** The loop over the byte stream of a forwarder's frames gives just the answers to their payloads in turn. */
  lemma {:induction false} ServesPayloads(a: Aead, ps: seq<Packet>, end: Ending, o: Outside, k: nat)
    requires Lawful(a) && AllSendable(ps)
    ensures Bodies(Serve(a, Frames.Encode(a, ps), end, o, k)) == Answers(o.targets, o.done, k, ps)
    decreases |ps|
  {
    hide Exchange, ReadFrame, Frame, Lawful;
    if ps == [] {
      EncodeNone(a);
      NothingRead(a, end);
    } else {
      var rest := Frames.Encode(a, ps[1..]);
      ReadUndoesWrite(a, ps[0], rest, end);
      assert ReadFrame(a, Frames.Encode(a, ps), end) == Got(ps[0].body, rest);
      ServesPayloads(a, ps[1..], end, o, k + 1);
    }
  }

  /** The i-th answer is to the i-th payload, and an answer is missing only behind one that could not be given or with
      the context cancelled. */
  lemma {:induction false} AnswersInTurn(targets: Targets, done: Cancelled, k: nat, ps: seq<Packet>, i: nat)
    ensures |Answers(targets, done, k, ps)| <= |ps|
    ensures i < |Answers(targets, done, k, ps)| ==>
              !done(k + i) && Exchange(targets, k + i, ps[i].body) == Some(Answers(targets, done, k, ps)[i])
    ensures i == |Answers(targets, done, k, ps)| < |ps| ==>
              done(k + i) || Exchange(targets, k + i, ps[i].body) == None
    decreases |ps|
  {
    hide Exchange;
    if ps != [] && !done(k) && Exchange(targets, k, ps[0].body).Some? {
      AnswersInTurn(targets, done, k + 1, ps[1..], if i > 0 then i - 1 else 0);
    }
  }
}
