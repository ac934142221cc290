/** How the SOCKS5 side tells the relay where to connect: one frame with the address length in a single byte, one
    with the address. The relay reads both into the same 1500-byte buffer. */
module Preamble {
  import opened Bytes
  import opened Constants
  import opened Frames
  import opened SecureChannel

  function LengthByte(addr: bytes): byte {
    Low8(|addr|)
  }

  /** The address the relay dials after reading these two payloads; None when it gives up. */
  function RelayTarget(first: bytes, second: bytes): Option<bytes> {
    if first == [] || second == [] then None
    else
      var buf := Overlay(Zeros(BLOCK_SIZE), first);
      Some(Overlay(buf, second)[..buf[0]])
  }

  /** The two writes of socks5-server/internal/tcp/handler.go. */
  method SendTarget(link: SecureConn, addr: bytes, nonce1: bytes, nonce2: bytes) returns (ok: bool)
    requires link.conn.isOpen && |nonce1| == NONCE && |nonce2| == NONCE
    modifies link.conn`outgoing, link.conn`room
    ensures var all := Encode(link.aead, [Packet(nonce1, [LengthByte(addr)]), Packet(nonce2, addr)]);
            && link.conn.outgoing == old(link.conn.outgoing) + Fit(all, old(link.conn.room))
            && (ok <==> |all| <= old(link.conn.room))
  {
    ghost var ps := [Packet(nonce1, [LengthByte(addr)]), Packet(nonce2, addr)];
    ghost var f1, f2 := Frame(link.aead, ps[0]), Frame(link.aead, ps[1]);
    assert Encode(link.aead, ps) == f1 + f2 by {
      assert ps == [ps[0]] + [ps[1]];
      EncodeAppend(link.aead, [ps[0]], [ps[1]]);
      EncodeOne(link.aead, ps[0]);
      EncodeOne(link.aead, ps[1]);
    }
    TwoWrites(f1, f2, link.conn.room);
    var err := link.Write([LengthByte(addr)], nonce1);
    if err.Some? {
      return false;
    }
    err := link.Write(addr, nonce2);
    return err.None?;
  }

  lemma TwoWrites(f1: bytes, f2: bytes, room: nat)
    ensures |f1| > room ==> Fit(f1 + f2, room) == Fit(f1, room)
    ensures |f1| <= room ==> Fit(f1, room) + Fit(f2, room - |f1|) == Fit(f1 + f2, room)
  {
  }

  /** The two reads of relay-server/internal/tcp/relay.go, into one buffer. */
  method ReceiveTarget(link: SecureConn) returns (target: Option<bytes>)
    requires link.conn.isOpen
    modifies link.conn`incoming
    ensures var first := ReadFrame(link.aead, old(link.conn.incoming), link.conn.ending);
            if first.Failed? || first.body == [] then target == None
            else
              var second := ReadFrame(link.aead, first.rest, link.conn.ending);
              if second.Failed? then target == None
              else target == RelayTarget(first.body, second.body)
                   && (target.Some? ==> link.conn.incoming == second.rest)
  {
    var buf := new byte[BLOCK_SIZE](_ => 0);
    assert buf[..] == Zeros(BLOCK_SIZE);
    var n, err := link.Read(buf);
    if err.Some? || n == 0 {
      return None;
    }
    var length := buf[0];
    n, err := link.Read(buf);
    if err.Some? || n == 0 {
      return None;
    }
    assert buf[..][..length] == buf[..length];
    return Some(buf[..length]);
  }

  /** The relay dials the very text it was sent exactly when that text is 1 to 255 bytes long. Whatever its length,
      nothing but the text's own front is ever dialled: the bytes of the earlier frame stay hidden. */
  lemma TargetIntact(addr: bytes)
    ensures RelayTarget([LengthByte(addr)], addr) == Some(addr) <==> 1 <= |addr| <= 255
    ensures addr != [] ==> RelayTarget([LengthByte(addr)], addr) == Some(addr[..|addr| % 256])
  {
    if addr != [] {
      var buf := Overlay(Zeros(BLOCK_SIZE), [LengthByte(addr)]);
      assert buf[0] == LengthByte(addr);
      var n := |addr| % 256;
      assert Overlay(buf, addr)[..n] == addr[..n];
      assert |addr[..n]| == n;
      if |addr| <= 255 {
        assert addr[..n] == addr;
      }
    }
  }

  /** Stale bytes are dialled exactly when the announced length exceeds what the second frame brought, which the
      writer above never does but the relay does not check. */
  lemma StaleBytesExactly(first: bytes, second: bytes)
    requires first != [] && second != []
    ensures RelayTarget(first, second).value <= second <==> first[0] <= |second|
  {
    var buf := Overlay(Zeros(BLOCK_SIZE), first);
    assert buf[0] == first[0];
    if first[0] <= |second| {
      assert Overlay(buf, second)[..buf[0]] == second[..buf[0]];
    }
  }
}
