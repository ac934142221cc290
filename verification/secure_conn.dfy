/** net.Conn as the servers see it, and the SecureConn wrapper of pkg/crypto/secure_conn.go on top of it. */
module SecureChannel {
  import opened Bytes
  import opened Frames

  /** One end of a TCP connection. `incoming` is everything that is still going to arrive and `ending` what Read
      reports after it; a Read may return any non-empty piece. `room` is how much the other side will still take
      before a write times out or is refused. */
  class NetConn {
    var incoming: bytes
    var ending: Ending
    var outgoing: bytes
    var room: nat
    var isOpen: bool

    constructor (incoming: bytes, ending: Ending, room: nat)
      ensures this.incoming == incoming && this.ending == ending && this.room == room
      ensures outgoing == [] && isOpen
    {
      this.incoming, this.ending, this.room := incoming, ending, room;
      outgoing, isOpen := [], true;
    }

    /** What Read can still deliver and what Write can still get rid of: nothing, once this end is closed. */
    function Supply(): bytes
      reads this`incoming, this`isOpen
    {
      if isOpen then incoming else []
    }

    function Takes(): nat
      reads this`room, this`isOpen
    {
      if isOpen then room else 0
    }

    method Read(p: array<byte>) returns (n: nat, err: Option<Fault>)
      requires p.Length > 0
      modifies this`incoming, p
      ensures n <= p.Length && p[n..] == old(p[n..])
      ensures old(incoming) == p[..n] + incoming
      ensures !isOpen ==> n == 0 && err == Some(Broken)
      ensures isOpen && old(incoming) == [] ==> n == 0 && err == Some(Short(0, ending))
      ensures isOpen && old(incoming) != [] ==> n > 0 && err == None
    {
      if !isOpen {
        return 0, Some(Broken);
      }
      if incoming == [] {
        return 0, Some(Short(0, ending));
      }
      var k: nat :| 1 <= k <= p.Length && k <= |incoming|;
      forall i | 0 <= i < k {
        p[i] := incoming[i];
      }
      assert p[..k] == incoming[..k];
      incoming := incoming[k..];
      return k, None;
    }

    method Write(data: bytes) returns (err: Option<Fault>)
      modifies this`outgoing, this`room
      ensures isOpen ==> outgoing == old(outgoing) + Fit(data, old(room))
      ensures isOpen ==> room == old(room) - |Fit(data, old(room))|
      ensures !isOpen ==> outgoing == old(outgoing) && room == old(room)
      ensures err == None <==> isOpen && |data| <= old(room)
    {
      if !isOpen {
        return Some(Broken);
      }
      var k := Min(|data|, room);
      outgoing := outgoing + data[..k];
      room := room - k;
      return if k < |data| then Some(Broken) else None;
    }

    method Close()
      modifies this`isOpen
      ensures !isOpen
    {
      isOpen := false;
    }
  }

  /** io.ReadFull: however the bytes trickle in, it fills `p` or says why it could not. */
  method ReadFull(conn: NetConn, p: array<byte>) returns (err: Option<Fault>)
    modifies conn`incoming, p
    ensures var s := old(conn.incoming);
            if !conn.isOpen && p.Length > 0
            then err == Some(Broken) && conn.incoming == s
            else if |s| >= p.Length
            then err == None && p[..] == s[..p.Length] && conn.incoming == s[p.Length..]
            else err == Some(Short(|s|, conn.ending)) && conn.incoming == []
  {
    var have := 0;
    ghost var s := conn.incoming;
    while have < p.Length
      invariant have <= p.Length && have <= |s|
      invariant p[..have] == s[..have] && conn.incoming == s[have..]
      invariant !conn.isOpen ==> have == 0
    {
      var rest := new byte[p.Length - have];
      var n, e := conn.Read(rest);
      assert rest[..n] == s[have..have + n] by {
        assert s[have..] == rest[..n] + conn.incoming;
        assert s[have..][..n] == rest[..n];
      }
      if e.Some? {
        return if conn.isOpen then Some(Short(have, conn.ending)) else e;
      }
      forall i | 0 <= i < n {
        p[have + i] := rest[i];
      }
      assert forall i :: have <= i < have + n ==> p[i] == rest[..n][i - have] == s[i];
      have := have + n;
    }
    err := None;
  }

  /** What the next Read of a SecureConn yields; once this end is closed, an error and nothing else. */
  function Outcome(a: Aead, isOpen: bool, incoming: bytes, ending: Ending): ReadResult {
    if isOpen then ReadFrame(a, incoming, ending) else Failed(Broken, incoming)
  }

  class SecureConn {
    const conn: NetConn
    const aead: Aead

    constructor (conn: NetConn, aead: Aead)
      ensures this.conn == conn && this.aead == aead
    {
      this.conn, this.aead := conn, aead;
    }

    /** The outcome depends only on the bytes that arrive, never on how they are segmented; whatever part of the
        payload does not fit in `p` is gone. */
    method Read(p: array<byte>) returns (n: nat, err: Option<Fault>)
      modifies conn`incoming, p
      ensures var r := Outcome(aead, conn.isOpen, old(conn.incoming), conn.ending);
              && conn.incoming == r.rest
              && (r.Failed? ==> n == 0 && err == Some(r.fault) && p[..] == old(p[..]))
              && (r.Got? ==> n == |Fit(r.body, p.Length)| && err == None && p[..] == Overlay(old(p[..]), r.body))
    {
      ghost var s := conn.incoming;
      ghost var before := p[..];
      var nonce := new byte[NONCE];
      err := ReadFull(conn, nonce);
      if err.Some? { return 0, err; }

      var lengthBuf := new byte[2];
      err := ReadFull(conn, lengthBuf);
      if err.Some? { return 0, err; }
      assert lengthBuf[..] == s[NONCE..HEAD];
      var length := BE16(lengthBuf[0], lengthBuf[1]);

      var cipherText := new byte[length];
      err := ReadFull(conn, cipherText);
      if err.Some? { return 0, err; }
      assert cipherText[..] == s[HEAD..HEAD + length];

      var plainText := aead.open(nonce[..], cipherText[..]);
      if plainText.None? { return 0, Some(Forged); }

      var body := plainText.value;
      n := Min(p.Length, |body|);
      forall i | 0 <= i < n {
        p[i] := body[i];
      }
      assert p[..] == Overlay(before, body);
      return n, None;
    }

    /** Puts one whole frame on the connection, or the beginning of one and an error. */
    method Write(p: bytes, nonce: bytes) returns (err: Option<Fault>)
      requires |nonce| == NONCE
      modifies conn`outgoing, conn`room
      ensures var f := Frame(aead, Packet(nonce, p));
              var taken := if conn.isOpen then Fit(f, old(conn.room)) else [];
              && conn.outgoing == old(conn.outgoing) + taken
              && conn.room == old(conn.room) - |taken|
              && (err == None <==> conn.isOpen && |f| <= old(conn.room))
    {
      var cipherText := aead.seal(nonce, p);
      var length := |cipherText|;
      var header := [Low8(length / 256), Low8(length)];
      err := conn.Write(nonce + header + cipherText);
    }
  }
}
