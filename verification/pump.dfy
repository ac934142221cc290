/** The pump loops of socks5-server/internal/tcp/handler.go and relay-server/internal/tcp/relay.go. The two loops
    that fill the link are the same code, and so are the two that drain it. */
module Pump {
  import opened Bytes
  import opened Frames
  import opened SecureChannel

  const CHUNK := 1024

  datatype Stop = SawEof | ReadFailed | WriteFailed

  function StopFor(f: Fault): Stop {
    if f == Eof then SawEof else ReadFailed
  }

  predicate Chunked(ps: seq<Packet>) {
    forall i :: 0 <= i < |ps| ==> |ps[i].nonce| == NONCE && 1 <= |ps[i].body| <= CHUNK
  }

  function Content(ps: seq<Packet>): bytes {
    Flatten(Bodies(ps))
  }

  lemma ContentAppend(ps: seq<Packet>, qs: seq<Packet>)
    ensures Content(ps + qs) == Content(ps) + Content(qs)
  {
    assert Bodies(ps + qs) == Bodies(ps) + Bodies(qs);
    FlattenAppend(Bodies(ps), Bodies(qs));
  }

  lemma ContentOne(p: Packet)
    ensures Content([p]) == p.body
  {
    assert Bodies([p]) == [p.body];
    FlattenOne(p.body);
  }

  datatype Output = Output(data: bytes, fault: Fault)

  /** What a buffer of CHUNK bytes lets through of successive reads, and how the last one fails. */
  function Delivers(a: Aead, s: bytes, end: Ending): Output
    decreases |s|
  {
    match ReadFrame(a, s, end)
    case Failed(f, _) => Output([], f)
    case Got(body, rest) =>
      var more := Delivers(a, rest, end);
      Output(Fit(body, CHUNK) + more.data, more.fault)
  }

  /** Chunks come through whole and in order; a piece of a further frame adds nothing but its fault. */
  lemma {:induction false} DeliversContent(a: Aead, ps: seq<Packet>, cut: bytes, end: Ending)
    requires Lawful(a) && Chunked(ps) && ReadFrame(a, cut, end).Failed?
    ensures Delivers(a, Encode(a, ps) + cut, end) == Output(Content(ps), ReadFrame(a, cut, end).fault)
  {
    if ps == [] {
      assert Encode(a, ps) + cut == cut && Content(ps) == [];
    } else {
      var rest := Encode(a, ps[1..]) + cut;
      var s := Encode(a, ps) + cut;
      assert s == Frame(a, ps[0]) + rest;
      ReadUndoesWrite(a, ps[0], rest, end);
      DeliversContent(a, ps[1..], cut, end);
      ContentFirst(ps);
      assert ReadFrame(a, s, end) == Got(ps[0].body, rest) && Fit(ps[0].body, CHUNK) == ps[0].body;
    }
  }

  lemma ContentFirst(ps: seq<Packet>)
    requires ps != []
    ensures Content(ps) == ps[0].body + Content(ps[1..])
  {
    assert Bodies(ps) == [ps[0].body] + Bodies(ps[1..]);
  }

  /** What one more chunk adds to the content and to the encoding. */
  lemma OneMore(a: Aead, ps: seq<Packet>, p: Packet)
    ensures Content(ps + [p]) == Content(ps) + p.body
    ensures Encode(a, ps + [p]) == Encode(a, ps) + Frame(a, p)
  {
    ContentAppend(ps, [p]);
    ContentOne(p);
    EncodeAppend(a, ps, [p]);
    EncodeOne(a, p);
  }

  /** A write that takes only part of `f` behind `out` leaves a prefix of out + f. */
  lemma WriteSplits(out: bytes, f: bytes, room: nat)
    ensures out + Fit(f, room) == Fit(out + f, |out| + room)
    ensures |f| <= room <==> out + Fit(f, room) == out + f
    ensures |f| <= room ==> |Fit(f, room)| == |f|
  {
    if out + Fit(f, room) == out + f {
      assert |out + Fit(f, room)| == |out| + |f|;
    }
  }

  lemma ChunkedMore(ps: seq<Packet>, p: Packet)
    requires Chunked(ps) && |p.nonce| == NONCE && 1 <= |p.body| <= CHUNK
    ensures Chunked(ps + [p])
  {
  }

  lemma FitAll(s: bytes, room: nat)
    ensures Fit(s, |s| + room) == s
  {
  }

  /** What a turn that read `p` makes of the frames written so far. */
  lemma OneMoreWritten(a: Aead, out0: bytes, out: bytes, before: seq<Packet>, p: Packet, room: nat)
    requires Chunked(before) && out == out0 + Encode(a, before) && |p.nonce| == NONCE && 1 <= |p.body| <= CHUNK
    ensures var packets := before + [p];
            var all := out0 + Encode(a, packets);
            && Chunked(packets) && Content(packets) == Content(before) + p.body
            && all == out + Frame(a, p)
            && out + Fit(Frame(a, p), room) == Fit(all, |out| + room)
            && (|Frame(a, p)| <= room <==> out + Fit(Frame(a, p), room) == all)
  {
    hide Content, Encode, Frame, Fit, Chunked;
    OneMore(a, before, p);
    ChunkedMore(before, p);
    WriteSplits(out, Frame(a, p), room);
  }

  /** One turn of the filling loop; `p` is the frame it tried to write, if it read anything. Either end may have been
      closed by the sibling pump. */
  method FillOnce(src: NetConn, link: SecureConn, nonce: bytes, buf: array<byte>)
    returns (n: nat, stop: Option<Stop>, ghost p: Packet)
    requires src != link.conn && buf.Length == 1024 && |nonce| == NONCE
    modifies src`incoming, link.conn`outgoing, link.conn`room, buf
    ensures n <= 1024 && old(src.incoming) == p.body + src.incoming && |p.body| == n && p.nonce == nonce
    ensures n == 0 <==> old(src.Supply()) == []
    ensures n == 0 ==> stop == Some(if src.isOpen && src.ending.Closes? then SawEof else ReadFailed)
                       && link.conn.outgoing == old(link.conn.outgoing) && link.conn.room == old(link.conn.room)
    ensures n > 0 ==> var f := Frame(link.aead, p);
                      && link.conn.outgoing == old(link.conn.outgoing) + Fit(f, old(link.conn.Takes()))
                      && stop == if |f| > old(link.conn.Takes()) then Some(WriteFailed) else None
    ensures |link.conn.outgoing| + link.conn.Takes() == |old(link.conn.outgoing)| + old(link.conn.Takes())
  {
    var err;
    n, err := src.Read(buf);
    p := Packet(nonce, buf[..n]);
    if n > 0 {
      FrameIsSome(link.aead, p);
      hide Frame;
      var wErr := link.Write(buf[..n], nonce);
      if wErr.Some? {
        return n, Some(WriteFailed), p;
      }
    }
    stop := if err.Some? then Some(StopFor(err.value)) else None;
  }

  /** What the filling loop has done: the chunks it tried to write are, one after the other, what it read; and of their
      encoding the link got all it took. */
  ghost predicate Filled(a: Aead, packets: seq<Packet>, in0: bytes, rest: bytes, out0: bytes, out: bytes, takes0: nat,
                         failed: bool) {
    var all := out0 + Encode(a, packets);
    && Chunked(packets) && in0 == Content(packets) + rest
    && out == Fit(all, |out0| + takes0) && (failed <==> out != all)
  }

  lemma FilledNothing(a: Aead, in0: bytes, out0: bytes, takes0: nat)
    ensures Filled(a, [], in0, in0, out0, out0, takes0, false) && Content([]) == []
  {
    FitAll(out0, takes0);
    assert out0 + Encode(a, []) == out0 && in0 == Content([]) + in0;
  }

  lemma FilledMore(a: Aead, packets: seq<Packet>, in0: bytes, rest: bytes, out0: bytes, out: bytes, takes0: nat,
                   takes: nat, p: Packet, rest': bytes, out': bytes)
    requires Filled(a, packets, in0, rest, out0, out, takes0, false) && |out| + takes == |out0| + takes0
    requires rest == p.body + rest' && |p.nonce| == NONCE && 1 <= |p.body| <= CHUNK
    requires out' == out + Fit(Frame(a, p), takes)
    ensures Filled(a, packets + [p], in0, rest', out0, out', takes0, |Frame(a, p)| > takes)
    ensures Content(packets + [p]) == Content(packets) + p.body
  {
    hide Content, Encode, Frame, Fit, Chunked;
    OneMoreWritten(a, out0, out, packets, p, takes);
    assert Content(packets) + (p.body + rest') == Content(packets) + p.body + rest';
  }

  /** Client to link, target to link: read a chunk, write it as one frame, until a read or a write fails; then
      close the link. */
  method PumpToLink(src: NetConn, link: SecureConn, nonceAt: nat -> bytes)
    returns (totalWritten: nat, stop: Stop, ghost packets: seq<Packet>)
    requires src != link.conn && forall i :: |nonceAt(i)| == NONCE
    modifies src`incoming, link.conn`outgoing, link.conn`room, link.conn`isOpen
    ensures Filled(link.aead, packets, old(src.incoming), src.incoming, old(link.conn.outgoing), link.conn.outgoing,
                   old(link.conn.Takes()), stop == WriteFailed)
    ensures totalWritten == |Content(packets)|
    ensures stop != WriteFailed ==>
              src.Supply() == [] && stop == if src.isOpen && src.ending.Closes? then SawEof else ReadFailed
    ensures !link.conn.isOpen
  {
    var buf := new byte[CHUNK];
    totalWritten, packets := 0, [];
    ghost var in0, out0, takes0 := src.incoming, link.conn.outgoing, link.conn.Takes();
    FilledNothing(link.aead, in0, out0, takes0);
    hide Filled, Content, Encode, Frame, Fit, StopFor, Chunked, Delivers, ReadFrame, Lawful;
    while true
      invariant Filled(link.aead, packets, in0, src.incoming, out0, link.conn.outgoing, takes0, false)
      invariant |link.conn.outgoing| + link.conn.Takes() == |out0| + takes0
      invariant totalWritten == |Content(packets)|
      decreases |src.incoming|
    {
      ghost var rest, before, out, takes := src.incoming, packets, link.conn.outgoing, link.conn.Takes();
      var n, end;
      ghost var p;
      n, end, p := FillOnce(src, link, nonceAt(totalWritten), buf);
      totalWritten := totalWritten + n;
      if n > 0 {
        packets := before + [p];
        FilledMore(link.aead, before, in0, rest, out0, out, takes0, takes, p, src.incoming, link.conn.outgoing);
      }
      if end.Some? {
        stop := end.value;
        assert Filled(link.aead, packets, in0, src.incoming, out0, link.conn.outgoing, takes0, stop == WriteFailed);
        break;
      }
    }
    link.conn.Close();
  }

  /** What one turn of the draining loop has to pass on. */
  function Piece(r: ReadResult): bytes {
    if r.Got? then Fit(r.body, CHUNK) else []
  }

  /** One turn of the draining loop. */
  method DrainOnce(link: SecureConn, dst: NetConn, buf: array<byte>) returns (n: nat, stop: Option<Stop>)
    requires dst != link.conn && buf.Length == 1024
    modifies link.conn`incoming, dst`outgoing, dst`room, buf
    ensures var r := Outcome(link.aead, link.conn.isOpen, old(link.conn.incoming), link.conn.ending);
            var sent := Fit(Piece(r), old(dst.Takes()));
            && link.conn.incoming == r.rest
            && n == |Piece(r)|
            && (r.Got? ==> Piece(r) == r.body[..Min(|r.body|, 1024)])
            && dst.outgoing == old(dst.outgoing) + sent && dst.Takes() == old(dst.Takes()) - |sent|
            && stop == if n > old(dst.Takes()) then Some(WriteFailed)
                       else if r.Got? then None else Some(if r.fault == Eof then SawEof else ReadFailed)
  {
    ghost var r := Outcome(link.aead, link.conn.isOpen, link.conn.incoming, link.conn.ending);
    var err;
    n, err := link.Read(buf);
    if n > 0 {
      assert buf[..n] == Piece(r);
      var wErr := dst.Write(buf[..n]);
      if wErr.Some? {
        return n, Some(WriteFailed);
      }
    }
    stop := if err.Some? then Some(StopFor(err.value)) else None;
  }

  /** The same of a link end that may be closed. */
  function Drains(a: Aead, isOpen: bool, s: bytes, end: Ending): Output {
    if isOpen then Delivers(a, s, end) else Output([], Broken)
  }

  /** Link to target, link to client: decode a frame, write what fitted in the buffer, until a read or a write
      fails; then close the sink. */
  method PumpFromLink(link: SecureConn, dst: NetConn) returns (totalRead: nat, stop: Stop)
    requires dst != link.conn
    modifies link.conn`incoming, dst`outgoing, dst`room, dst`isOpen
    ensures var d := Drains(link.aead, link.conn.isOpen, old(link.conn.incoming), link.conn.ending);
            var all := old(dst.outgoing) + d.data;
            && dst.outgoing == Fit(all, |old(dst.outgoing)| + old(dst.Takes()))
            && (stop == WriteFailed <==> dst.outgoing != all)
            && (stop != WriteFailed ==>
                  stop == (if d.fault == Eof then SawEof else ReadFailed) && totalRead == |d.data|)
    ensures !dst.isOpen
  {
    var buf := new byte[CHUNK];
    totalRead := 0;
    ghost var out0, takes0 := dst.outgoing, dst.Takes();
    ghost var d := Drains(link.aead, link.conn.isOpen, link.conn.incoming, link.conn.ending);
    ghost var ahead := d;
    hide ReadFrame;
    while true
      invariant ahead == Drains(link.aead, link.conn.isOpen, link.conn.incoming, link.conn.ending)
      invariant ahead.fault == d.fault
      invariant dst.outgoing + ahead.data == out0 + d.data
      invariant |dst.outgoing| + dst.Takes() == |out0| + takes0 && |dst.outgoing| == |out0| + totalRead
      decreases |link.conn.incoming|
    {
      ghost var r := Outcome(link.aead, link.conn.isOpen, link.conn.incoming, link.conn.ending);
      ghost var out, was, room := dst.outgoing, ahead.data, dst.Takes();
      var n, end := DrainOnce(link, dst, buf);
      totalRead := totalRead + n;
      if r.Got? {
        ahead := Drains(link.aead, link.conn.isOpen, link.conn.incoming, link.conn.ending);
      }
      ghost var after := if r.Got? then ahead.data else [];
      assert was == Piece(r) + after;
      TurnSplits(out, Piece(r), after, room);
      if end.Some? {
        stop := end.value;
        break;
      }
    }
    dst.Close();
  }

  lemma TurnSplits(out: bytes, piece: bytes, after: bytes, room: nat)
    ensures out + (piece + after) == out + piece + after
    ensures |piece| <= room ==> out + Fit(piece, room) == out + piece
    ensures |piece| > room ==> out + Fit(piece, room) == Fit(out + (piece + after), |out| + room)
  {
  }

  /** Where a stream of frames is when only `room` bytes of it got through: behind `j` whole frames and a piece of
      the next. */
  lemma {:induction false} CutPoint(a: Aead, ps: seq<Packet>, room: nat) returns (j: nat, piece: bytes)
    requires Lawful(a) && Chunked(ps) && room < |Encode(a, ps)|
    ensures j < |ps| && piece < Frame(a, ps[j])
    ensures Fit(Encode(a, ps), room) == Encode(a, ps[..j]) + piece
  {
    hide Frame, Lawful, Low8;
    var first := Frame(a, ps[0]);
    var s := first + Encode(a, ps[1..]);
    if room < |first| {
      j, piece := 0, first[..room];
      assert s[..room] == first[..room];
      assert Encode(a, ps[..0]) + piece == piece;
    } else {
      j, piece := CutPoint(a, ps[1..], room - |first|);
      assert s[..room] == first + Encode(a, ps[1..])[..room - |first|];
      j := j + 1;
      assert ps[..j][1..] == ps[1..][..j - 1];
    }
  }

  /** The two ends of a direction compose. Whatever the link lets through of what the filling pump wrote, the
      draining pump turns it into the content of the first `j` chunks; all of it when no write failed. */
  lemma PumpsCompose(a: Aead, ps: seq<Packet>, room: nat, end: Ending) returns (j: nat)
    requires Lawful(a) && Chunked(ps)
    ensures var d := Delivers(a, Fit(Encode(a, ps), room), end);
            && j <= |ps|
            && d.data == Content(ps[..j]) <= Content(ps)
            && (j == |ps| <==> |Encode(a, ps)| <= room)
            && (j == |ps| ==> d.fault == Short(0, end))
  {
    if room < |Encode(a, ps)| {
      var piece;
      j, piece := CutPoint(a, ps, room);
      CutFrameFails(a, ps[j], piece, end);
      DeliversContent(a, ps[..j], piece, end);
      assert ps[..j] + ps[j..] == ps;
      ContentAppend(ps[..j], ps[j..]);
    } else {
      j := |ps|;
      assert ps[..j] == ps;
      DeliversContent(a, ps, [], end);
      assert Encode(a, ps) + [] == Fit(Encode(a, ps), room);
    }
  }
}
