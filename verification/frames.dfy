/**
 The encrypted frame format of pkg/crypto/secure_conn.go: a 24-byte nonce, the ciphertext's length in two
 bytes, the ciphertext. The cipher is any AEAD obeying the laws of section 2.8 of RFC 8439.
 */
module Frames {
  import opened Bytes

  const NONCE := 24
  const HEAD := 26
  const TAG := 16
  /** The longest plaintext whose sealed length still fits in two bytes. */
  const MAX_BODY := 65535 - TAG

  datatype Aead = Aead(seal: (bytes, bytes) -> bytes, open: (bytes, bytes) -> Option<bytes>)

  /** Open undoes Seal, accepts nothing Seal did not make, and a tag is sixteen bytes. */
  ghost predicate Lawful(a: Aead) {
    && (forall n, p :: |a.seal(n, p)| == |p| + TAG)
    && (forall n, p :: a.open(n, a.seal(n, p)) == Some(p))
    && (forall n, c :: a.open(n, c).Some? ==> a.seal(n, a.open(n, c).value) == c)
  }

  /** A cipher that does not hide anything, enough to show the laws can be met together. */
  function ToyAead(): Aead {
    Aead((n: bytes, p: bytes) => p + Zeros(TAG),
         (n: bytes, c: bytes) =>
           if |c| >= TAG && c[|c| - TAG..] == Zeros(TAG) then Some(c[..|c| - TAG]) else None)
  }

  lemma ToyAeadIsLawful()
    ensures Lawful(ToyAead())
  {
    var a := ToyAead();
    forall n: bytes, p: bytes ensures a.open(n, a.seal(n, p)) == Some(p) {
      assert (p + Zeros(TAG))[..|p|] == p;
      assert (p + Zeros(TAG))[|p|..] == Zeros(TAG);
    }
    forall n: bytes, c: bytes | a.open(n, c).Some? ensures a.seal(n, a.open(n, c).value) == c {
      assert c[..|c| - TAG] + c[|c| - TAG..] == c;
    }
  }

  /** One `Write`: the random nonce drawn for it and the plaintext handed to it. */
  datatype Packet = Packet(nonce: bytes, body: bytes)

  predicate Sendable(p: Packet) {
    |p.nonce| == NONCE && |p.body| <= MAX_BODY
  }

  predicate AllSendable(ps: seq<Packet>) {
    forall i :: 0 <= i < |ps| ==> Sendable(ps[i])
  }

  /** The bytes `Write` puts on the connection; both length bytes are narrowed to eight bits. */
  function Frame(a: Aead, p: Packet): bytes {
    var c := a.seal(p.nonce, p.body);
    p.nonce + [Low8(|c| / 256), Low8(|c|)] + c
  }

  function Encode(a: Aead, ps: seq<Packet>): bytes {
    if ps == [] then [] else Frame(a, ps[0]) + Encode(a, ps[1..])
  }

  function Bodies(ps: seq<Packet>): (r: seq<bytes>)
    ensures |r| == |ps| && forall i :: 0 <= i < |ps| ==> r[i] == ps[i].body
  {
    seq(|ps|, i requires 0 <= i < |ps| => ps[i].body)
  }

  /** How the byte stream ends once everything in transit has been read: orderly close, or timeout or reset. */
  datatype Ending = Closes | Breaks

  datatype Fault = Eof | UnexpectedEof | Broken | Forged

  datatype ReadResult = Got(body: bytes, rest: bytes) | Failed(fault: Fault, rest: bytes)

  /** What io.ReadFull reports when it wanted more than the `have` bytes it could get. */
  function Short(have: nat, end: Ending): Fault {
    if end.Breaks? then Broken else if have == 0 then Eof else UnexpectedEof
  }

  /** One `Read` on a connection that will deliver `s` and then end. */
  function ReadFrame(a: Aead, s: bytes, end: Ending): (r: ReadResult)
    ensures |r.rest| <= |s|
    ensures r.Got? ==> |r.rest| + HEAD <= |s|
  {
    if |s| < NONCE then Failed(Short(|s|, end), [])
    else if |s| < HEAD then Failed(Short(|s| - NONCE, end), [])
    else
      var len := BE16(s[24], s[25]);
      if |s| < HEAD + len then Failed(Short(|s| - HEAD, end), [])
      else
        match a.open(s[..NONCE], s[HEAD..HEAD + len])
        case None => Failed(Forged, s[HEAD + len..])
        case Some(body) => Got(body, s[HEAD + len..])
  }

  datatype Drained = Drained(bodies: seq<bytes>, fault: Fault)

  /** Successive `Read`s until one fails. */
  function ReadAll(a: Aead, s: bytes, end: Ending): Drained
    decreases |s|
  {
    match ReadFrame(a, s, end)
    case Failed(f, _) => Drained([], f)
    case Got(body, rest) =>
      var d := ReadAll(a, rest, end);
      Drained([body] + d.bodies, d.fault)
  }

  // ---------- one frame ----------

  lemma FrameShape(a: Aead, p: Packet, rest: bytes)
    requires Lawful(a) && |p.nonce| == NONCE
    ensures var c := a.seal(p.nonce, p.body);
            var s := Frame(a, p) + rest;
            && |c| == |p.body| + 16
            && |Frame(a, p)| == 26 + |c|
            && s[..24] == p.nonce
            && BE16(s[24], s[25]) == |c| % 65536
            && s[26..26 + |c|] == c
            && s[26 + |c|..] == rest
  {
    var c := a.seal(p.nonce, p.body);
    var hi, lo := Low8(|c| / 256), Low8(|c|);
    Slices(p.nonce, hi, lo, c, rest);
    LengthWraps(|c|);
  }

  lemma FrameLength(a: Aead, p: Packet)
    requires Lawful(a) && |p.nonce| == NONCE
    ensures |Frame(a, p)| == HEAD + TAG + |p.body|
  {
  }

  lemma FrameIsSome(a: Aead, p: Packet)
    ensures Frame(a, p) != []
  {
  }

  lemma LengthWraps(n: nat)
    ensures BE16(Low8(n / 256), Low8(n)) == n % 65536
  {
    var q, r := n / 256, n % 256;
    var k, m := q / 256, 256 * (q % 256) + r;
    assert n == 256 * q + r && q == 256 * k + q % 256;
    Remainder(n, k, m);
  }

  lemma Remainder(n: nat, k: nat, m: nat)
    requires n == 65536 * k + m && m < 65536
    ensures n % 65536 == m
  {
  }

  lemma Slices(nonce: bytes, hi: byte, lo: byte, c: bytes, rest: bytes)
    requires |nonce| == NONCE
    ensures var s := nonce + [hi, lo] + c + rest;
            && s[..NONCE] == nonce && s[24] == hi && s[25] == lo
            && s[HEAD..HEAD + |c|] == c && s[HEAD + |c|..] == rest
  {
    var head := nonce + [hi, lo];
    assert head + c + rest == head + (c + rest);
    assert (head + c + rest)[HEAD..] == c + rest;
  }

  /** A `Read` returns what one `Write` sent, and stops right behind it, exactly when the plaintext is at most
      65519 bytes: past that the two length bytes wrap. */
  lemma ReadUndoesWrite(a: Aead, p: Packet, rest: bytes, end: Ending)
    requires Lawful(a) && |p.nonce| == NONCE
    ensures ReadFrame(a, Frame(a, p) + rest, end) == Got(p.body, rest) <==> |p.body| <= 65519
  {
    FrameShape(a, p, rest);
    var c := a.seal(p.nonce, p.body);
    var s := Frame(a, p) + rest;
    var len := BE16(s[24], s[25]);
    if |p.body| > MAX_BODY && ReadFrame(a, s, end).Got? {
      // Whatever the shortened ciphertext opens to, sealing it gives that many bytes back.
      assert len < |c|;
      assert a.seal(s[..NONCE], ReadFrame(a, s, end).body) == s[HEAD..HEAD + len];
    }
  }

  /** A connection that closes cleanly makes `Read` answer io.EOF in exactly three situations: nothing was left,
      or the stream stopped right behind a nonce, or right behind a nonzero length. Only the first is the end of
      a frame; the callers log all three as a normal end of data. */
  lemma EofExactly(a: Aead, s: bytes)
    ensures ReadFrame(a, s, Closes).Failed? && ReadFrame(a, s, Closes).fault == Eof <==>
            |s| == 0 || |s| == 24 || (|s| == 26 && BE16(s[24], s[25]) > 0)
  {
  }

  /** A concrete cut that is reported as a clean end although a whole payload is lost. */
  lemma CutBehindNonceLooksClean(a: Aead, p: Packet)
    requires Lawful(a) && Sendable(p)
    ensures Frame(a, p)[..24] < Frame(a, p)
    ensures ReadFrame(a, Frame(a, p)[..24], Closes) == Failed(Eof, [])
  {
    FrameShape(a, p, []);
  }

  /** A cut inside a frame never yields a payload. */
  lemma CutFrameFails(a: Aead, p: Packet, s: bytes, end: Ending)
    requires Lawful(a) && Sendable(p) && s < Frame(a, p)
    ensures ReadFrame(a, s, end).Failed? && ReadFrame(a, s, end).fault != Forged
  {
    FrameShape(a, p, []);
    assert Frame(a, p) + [] == Frame(a, p);
    if |s| >= HEAD {
      assert s[24] == Frame(a, p)[24] && s[25] == Frame(a, p)[25];
    }
  }

  // ---------- streams of frames ----------

  lemma {:induction false} EncodeAppend(a: Aead, ps: seq<Packet>, qs: seq<Packet>)
    ensures Encode(a, ps + qs) == Encode(a, ps) + Encode(a, qs)
  {
    if ps == [] {
      assert ps + qs == qs;
    } else {
      assert (ps + qs)[1..] == ps[1..] + qs;
      EncodeAppend(a, ps[1..], qs);
    }
  }

  lemma EncodeOne(a: Aead, p: Packet)
    ensures Encode(a, [p]) == Frame(a, p)
  {
    assert Encode(a, [p]) == Frame(a, p) + Encode(a, []);
  }

  lemma ReadAllOn(a: Aead, s: bytes, end: Ending, body: bytes, rest: bytes)
    requires ReadFrame(a, s, end) == Got(body, rest)
    ensures var d := ReadAll(a, rest, end);
            ReadAll(a, s, end) == Drained([body] + d.bodies, d.fault)
  {
    hide ReadFrame;
  }

  /** Unique decoding: reading a stream of whole frames followed by something that is none, such as a piece of one
      more (CutFrameFails), gives back exactly the payloads of the whole ones, then the fault the rest earns. */
  lemma {:induction false} DecodesToBodies(a: Aead, ps: seq<Packet>, cut: bytes, end: Ending)
    requires Lawful(a) && AllSendable(ps) && ReadFrame(a, cut, end).Failed?
    ensures ReadAll(a, Encode(a, ps) + cut, end) == Drained(Bodies(ps), ReadFrame(a, cut, end).fault)
  {
    hide ReadFrame, Frame, Lawful;
    if ps == [] {
      assert Encode(a, ps) + cut == cut;
    } else {
      var rest := Encode(a, ps[1..]) + cut;
      var s := Encode(a, ps) + cut;
      assert s == Frame(a, ps[0]) + rest;
      ReadUndoesWrite(a, ps[0], rest, end);
      ReadAllOn(a, s, end, ps[0].body, rest);
      hide ReadAll, Encode;
      DecodesToBodies(a, ps[1..], cut, end);
      assert Bodies(ps) == [ps[0].body] + Bodies(ps[1..]);
    }
  }

  /** Two lists of writes that put the same bytes on the wire carry the same payloads. */
  lemma EncodingIsInjective(a: Aead, ps: seq<Packet>, qs: seq<Packet>)
    requires Lawful(a) && AllSendable(ps) && AllSendable(qs) && Encode(a, ps) == Encode(a, qs)
    ensures Bodies(ps) == Bodies(qs)
  {
    DecodesToBodies(a, ps, [], Closes);
    DecodesToBodies(a, qs, [], Closes);
    assert Encode(a, ps) + [] == Encode(a, ps) && Encode(a, qs) + [] == Encode(a, qs);
  }
}
