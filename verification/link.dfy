/**
 One direction of the connection between the two servers, byte by byte: the writer emits a frame in pieces of
 any size, the network carries them or loses everything past some point, the reader collects one frame through
 io.ReadFull in pieces of any size.
 */
module Link {
  import opened Bytes
  import opened Frames

  /** How many bytes of the current frame the running io.ReadFull call wants in total, given those it has. */
  function Need(part: bytes): nat {
    if |part| < NONCE then NONCE
    else if |part| < HEAD then HEAD
    else HEAD + BE16(part[24], part[25])
  }

  predicate Complete(part: bytes) {
    |part| >= HEAD && |part| == Need(part)
  }

  /** Places inside a frame where a clean close is reported as io.EOF (see Frames.EofExactly). */
  predicate EofPlace(part: bytes) {
    |part| == 0 || |part| == NONCE || (|part| == HEAD && !Complete(part))
  }

  datatype Channel = Channel(
    sent: seq<Packet>,  // every Write begun, in order
    got: nat,           // how many of them the reader has decoded
    part: bytes,        // what the reader has of the next frame
    wire: bytes,        // bytes in transit
    tail: bytes,        // bytes of begun writes that are not in transit and not with the reader
    cut: bool)          // the network lost bytes: nothing further gets through
  {
    ghost predicate Inv(a: Aead) {
      && got <= |sent| && AllSendable(sent)
      && part + wire + tail == Encode(a, sent[got..])
      && |part| <= Need(part)
    }

    /** Behind a loss, writes may still be accepted; their bytes just go nowhere. */
    predicate CanBegin(p: Packet) { (tail == [] || cut) && Sendable(p) }

    function Begin(a: Aead, p: Packet): Channel
      requires CanBegin(p)
    { this.(sent := sent + [p], tail := tail + Frame(a, p)) }

    predicate CanEmit(k: nat) { !cut && 1 <= k <= |tail| }

    function Emit(k: nat): Channel
      requires CanEmit(k)
    { this.(wire := wire + tail[..k], tail := tail[k..]) }

    predicate CanCut(k: nat) { k < |wire| }

    function Cut(k: nat): Channel
      requires CanCut(k)
    { this.(wire := wire[..k], tail := wire[k..] + tail, cut := true) }

    predicate CanPull(k: nat) { 1 <= k <= |wire| && |part| + k <= Need(part) }

    function Pull(k: nat): Channel
      requires CanPull(k)
    { this.(part := part + wire[..k], wire := wire[k..]) }

    /** What Open makes of a completely collected frame. */
    function Opened(a: Aead): Option<bytes>
      requires Complete(part)
    { a.open(part[..NONCE], part[HEAD..]) }

    function Decode(): Channel
      requires Complete(part)
    { this.(got := got + 1, part := []) }

    /** The reader sees the writer's clean close: nothing is left in transit and nothing was lost. */
    predicate AtEnd() { wire == [] && !cut && !Complete(part) }
  }

  lemma EncodeLength(a: Aead, ps: seq<Packet>)
    requires Lawful(a) && AllSendable(ps)
    ensures ps == [] ==> |Encode(a, ps)| == 0
    ensures ps != [] ==> |Encode(a, ps)| >= HEAD + TAG
  {
    if ps != [] {
      FrameLength(a, ps[0]);
    }
  }

  /** A complete frame at the front of a stream of frames is the first of them. */
  lemma FrontFrame(a: Aead, p: Packet, rest: bytes, part: bytes)
    requires Lawful(a) && Sendable(p) && Complete(part) && part <= Frame(a, p) + rest
    ensures part == Frame(a, p)
    ensures part[..NONCE] == p.nonce && part[HEAD..] == a.seal(p.nonce, p.body)
  {
    FrameShape(a, p, rest);
    FrameShape(a, p, []);
    hide Frame, Lawful, BE16;
    SameFront(part, Frame(a, p), rest);
  }

  lemma SameFront(part: bytes, f: bytes, rest: bytes)
    requires part <= f + rest && |f| >= HEAD && |part| >= HEAD
    ensures part[24] == (f + rest)[24] && part[25] == (f + rest)[25] && f + [] == f
    ensures |part| == |f| ==> part == f
  {
  }

  /** The frame the reader has collected is the next one written, and it opens to what was written: the reader
      never delivers a payload out of order, twice, or that nobody sent. */
  lemma NextFrame(a: Aead, c: Channel)
    requires Lawful(a) && c.Inv(a) && Complete(c.part)
    ensures c.got < |c.sent| && c.part == Frame(a, c.sent[c.got])
    ensures c.Opened(a) == Some(c.sent[c.got].body)
  {
    var queue := c.sent[c.got..];
    var s := c.part + c.wire + c.tail;
    EncodeLength(a, queue);
    assert |s| > 0 && queue != [];
    var p := queue[0];
    assert p == c.sent[c.got] && Sendable(p);
    assert c.part == s[..|c.part|];
    assert s == Frame(a, p) + Encode(a, queue[1..]);
    FrontFrame(a, p, Encode(a, queue[1..]), c.part);
  }

  /** With nothing in transit and nothing unsent, a frame not yet decoded is completely collected. */
  lemma NothingMissing(a: Aead, c: Channel)
    requires Lawful(a) && c.Inv(a) && c.wire == [] && c.tail == [] && c.got < |c.sent|
    ensures Complete(c.part)
  {
    var queue := c.sent[c.got..];
    var p := queue[0];
    assert p == c.sent[c.got] && Sendable(p);
    assert c.part + c.wire + c.tail == c.part;
    FrameShape(a, p, Encode(a, queue[1..]));
    assert c.part == Frame(a, p) + Encode(a, queue[1..]);
  }

  lemma FreshChannel(a: Aead, front: seq<Packet>)
    requires AllSendable(front)
    ensures Channel(front, 0, [], [], Encode(a, front), false).Inv(a)
  {
    hide Encode;
    var tail := Encode(a, front);
    assert front[0..] == front && [] + [] + tail == tail;
  }

  lemma BeginKeeps(a: Aead, c: Channel, p: Packet)
    requires c.Inv(a) && c.CanBegin(p)
    ensures c.Begin(a, p).Inv(a)
  {
    var queue := c.sent[c.got..];
    EncodeAppend(a, queue, [p]);
    EncodeOne(a, p);
    assert (c.sent + [p])[c.got..] == queue + [p];
    assert c.part + c.wire + (c.tail + Frame(a, p)) == c.part + c.wire + c.tail + Frame(a, p);
  }

  lemma EmitKeeps(a: Aead, c: Channel, k: nat)
    requires c.Inv(a) && c.CanEmit(k)
    ensures c.Emit(k).Inv(a)
  {
    assert c.tail == c.tail[..k] + c.tail[k..];
    assert c.part + (c.wire + c.tail[..k]) + c.tail[k..] == c.part + c.wire + c.tail;
  }

  lemma CutKeeps(a: Aead, c: Channel, k: nat)
    requires c.Inv(a) && c.CanCut(k)
    ensures c.Cut(k).Inv(a)
  {
    assert c.part + c.wire[..k] + (c.wire[k..] + c.tail) == c.part + c.wire + c.tail;
  }

  lemma PullKeeps(a: Aead, c: Channel, k: nat)
    requires c.Inv(a) && c.CanPull(k)
    ensures c.Pull(k).Inv(a)
  {
    assert c.part + c.wire[..k] + c.wire[k..] + c.tail == c.part + c.wire + c.tail;
  }

  lemma DecodeKeeps(a: Aead, c: Channel)
    requires Lawful(a) && c.Inv(a) && Complete(c.part)
    ensures c.Decode().Inv(a)
  {
    NextFrame(a, c);
    var queue := c.sent[c.got..];
    assert queue[1..] == c.sent[c.got + 1..];
    assert c.part + c.wire + c.tail == c.part + (c.wire + c.tail);
    assert Encode(a, queue) == c.part + Encode(a, queue[1..]);
    assert (c.part + (c.wire + c.tail))[|c.part|..] == c.wire + c.tail;
    assert [] + c.wire + c.tail == c.wire + c.tail;
  }

  /** When the writer left nothing unsent, a reader that has drained the link and is told io.EOF has every
      payload: none of the two mid-frame places can then arise. */
  lemma DrainedMeansAll(a: Aead, c: Channel)
    requires Lawful(a) && c.Inv(a) && c.AtEnd() && EofPlace(c.part) && c.tail == []
    ensures c.got == |c.sent|
  {
    EncodeLength(a, c.sent[c.got..]);
  }

  /** Bytes left unsent always belong to a write the reader has not decoded. */
  lemma TailIsUndecoded(a: Aead, c: Channel)
    requires c.Inv(a) && c.tail != []
    ensures c.got < |c.sent|
  {
  }
}
