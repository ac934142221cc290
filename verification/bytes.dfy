/** Bytes, Go's narrowing conversions, and the few sequence facts every other module leans on. */
module Bytes {

  type byte = b: int | 0 <= b < 256

  type bytes = seq<byte>

  datatype Option<+T> = None | Some(value: T)

  /** Go's `byte(n)` for a non-negative n: the low eight bits. */
  function Low8(n: nat): byte {
    n % 256
  }

  /** The value of two bytes in network order. */
  function BE16(hi: byte, lo: byte): (n: nat)
    ensures n < 65536
    ensures n / 256 == hi && n % 256 == lo
  {
    hi * 256 + lo
  }

  /** binary.BigEndian.PutUint16. */
  function PutBE16(n: nat): (b: bytes)
    requires n < 65536
    ensures |b| == 2 && BE16(b[0], b[1]) == n
  {
    [n / 256, n % 256]
  }

  function Min(a: int, b: int): int {
    if a <= b then a else b
  }

  /** The part of `s` that fits in a buffer of `size` bytes: what Go's `copy` and a datagram read keep. */
  function Fit(s: bytes, size: nat): bytes {
    s[..Min(|s|, size)]
  }

  /** The contents of `buf` after copying `s` over its front. */
  function Overlay(buf: bytes, s: bytes): (r: bytes)
    ensures |r| == |buf|
    ensures forall i :: 0 <= i < |s| && i < |buf| ==> r[i] == s[i]
    ensures forall i :: |s| <= i < |buf| ==> r[i] == buf[i]
  {
    Fit(s, |buf|) + buf[Min(|s|, |buf|)..]
  }

  function Zeros(n: nat): (z: bytes)
    ensures |z| == n && forall i :: 0 <= i < n ==> z[i] == 0
  {
    seq(n, _ => 0)
  }

  /** A separator between two texts, and how the whole comes apart around it. */
  function Joined(a: bytes, c: byte, b: bytes): bytes {
    a + [c] + b
  }

  lemma JoinedParts(a: bytes, c: byte, b: bytes)
    ensures var t := Joined(a, c, b);
            |t| == |a| + 1 + |b| && t[..|a|] == a && t[|a|] == c && t[|a| + 1..] == b
    ensures forall d :: d in Joined(a, c, b) <==> d in a || d == c || d in b
  {
  }

  lemma Assoc(x: bytes, y: bytes, z: bytes)
    ensures x + y + z == x + (y + z)
  {
  }

  function Flatten(parts: seq<bytes>): bytes {
    if parts == [] then [] else parts[0] + Flatten(parts[1..])
  }

  lemma {:induction false} FlattenAppend(a: seq<bytes>, b: seq<bytes>)
    ensures Flatten(a + b) == Flatten(a) + Flatten(b)
  {
    if a == [] {
      assert a + b == b;
    } else {
      assert (a + b)[1..] == a[1..] + b;
      FlattenAppend(a[1..], b);
    }
  }

  lemma FlattenOne(b: bytes)
    ensures Flatten([b]) == b
  {
    assert Flatten([b]) == b + Flatten([]);
  }

  /** Position of the first `c` in `s`, or |s|. */
  function Find(s: bytes, c: byte): (i: nat)
    ensures i <= |s| && c !in s[..i]
    ensures i < |s| ==> s[i] == c
    ensures i == |s| <==> c !in s
  {
    if s == [] then 0
    else if s[0] == c then 0
    else
      var j := Find(s[1..], c);
      assert s == [s[0]] + s[1..];
      assert s[..1 + j] == [s[0]] + s[1..][..j];
      1 + j
  }

  /** Finding is unique: the place whose front is free of `c` is the one Find returns. */
  lemma FindAt(s: bytes, c: byte, i: nat)
    requires i < |s| && s[i] == c && c !in s[..i]
    ensures Find(s, c) == i
  {
  }

  /** Position of the last `c` in `s`, or -1. */
  function FindLast(s: bytes, c: byte): (i: int)
    ensures -1 <= i < |s|
    ensures 0 <= i ==> s[i] == c
    ensures c !in s[i + 1..]
    ensures i == -1 ==> c !in s
  {
    if s == [] then -1
    else if s[|s| - 1] == c then |s| - 1
    else
      var i := FindLast(s[..|s| - 1], c);
      assert s[i + 1..] == s[..|s| - 1][i + 1..] + [s[|s| - 1]];
      i
  }

  lemma FindLastAt(s: bytes, c: byte, i: nat)
    requires i < |s| && s[i] == c && c !in s[i + 1..]
    ensures FindLast(s, c) == i
  {
  }
}
