/**
 Addresses as text: the fragments of Go's strconv and net packages the servers call when they print a target address
 and take one apart again.
 */
module AddressText {
  import opened Bytes

  const ZERO: byte := 48
  const PLUS: byte := 43
  const MINUS: byte := 45
  const DOT: byte := 46
  const COLON: byte := 58
  const LBRACKET: byte := 91
  const RBRACKET: byte := 93

  predicate IsDigit(c: byte) {
    ZERO <= c < ZERO + 10
  }

  predicate Digits(f: bytes) {
    f != [] && forall c :: c in f ==> IsDigit(c)
  }

  /** A numeral without superfluous zeros in front. */
  predicate Canonical(f: bytes) {
    Digits(f) && (|f| > 1 ==> f[0] != ZERO)
  }

  /** %d of a non-negative number. */
  function Dec(n: nat): (f: bytes)
    ensures |f| >= 1
  {
    if n < 10 then [ZERO + n] else Dec(n / 10) + [ZERO + n % 10]
  }

  function Value(f: bytes): nat
    requires forall c :: c in f ==> IsDigit(c)
  {
    if f == [] then 0
    else
      var last := f[|f| - 1];
      assert last in f && IsDigit(last);
      10 * Value(f[..|f| - 1]) + (last - ZERO)
  }

  lemma {:induction false} DecIsCanonical(n: nat)
    ensures Canonical(Dec(n)) && Value(Dec(n)) == n && (n > 0 ==> Dec(n)[0] != ZERO)
    ensures forall c :: c in Dec(n) ==> '0' as int <= c <= '9' as int
  {
    if n >= 10 {
      DecIsCanonical(n / 10);
      var f := Dec(n / 10);
      assert Dec(n)[..|f|] == f;
    } else {
      assert Value([]) == 0;
      assert Dec(n)[..0] == [];
    }
  }

  lemma {:induction false} CanonicalIsDec(f: bytes)
    requires Canonical(f)
    ensures Dec(Value(f)) == f
    ensures f[0] != ZERO ==> Value(f) > 0
  {
    var g, last := f[..|f| - 1], f[|f| - 1];
    assert f == g + [last];
    assert last in f && IsDigit(last) && Value(f) == 10 * Value(g) + (last - ZERO);
    if |f| > 1 {
      assert forall c :: c in g ==> c in f;
      CanonicalIsDec(g);
      assert Value(f) / 10 == Value(g) && ZERO + Value(f) % 10 == last;
    } else {
      assert g == [] && Value(g) == 0;
    }
  }

  lemma DecLength(n: nat)
    ensures n < 65536 ==> |Dec(n)| <= 5
    ensures |Dec(n)| <= 4 <==> n < 10000
  {
    DecSteps(n, 4);
    DecSteps(n, 3);
    assert Tens(1) == 10 && Tens(2) == 100 && Tens(3) == 1000 && Tens(4) == 10000;
  }

  /** n has at most k + 1 digits exactly when it is below 10^(k+1). */
  lemma {:induction false} DecSteps(n: nat, k: nat)
    ensures |Dec(n)| <= k + 1 <==> n < 10 * Tens(k)
    decreases k
  {
    if k > 0 {
      DecSteps(n / 10, k - 1);
    }
  }

  function Tens(k: nat): nat {
    if k == 0 then 1 else 10 * Tens(k - 1)
  }

  /** strconv.Atoi with its error thrown away: 0 for anything that is no number. */
  function Atoi(s: bytes): int {
    var f := if s != [] && (s[0] == PLUS || s[0] == MINUS) then s[1..] else s;
    if !Digits(f) then 0
    else if s[0] == MINUS then -(Value(f) as int) else Value(f)
  }

  lemma AtoiDec(n: nat)
    ensures Atoi(Dec(n)) == n
  {
    DecIsCanonical(n);
    assert Dec(n)[0] in Dec(n);
  }

  // ---------- dotted quads ----------

  /** net.IP.String of four octets. */
  function Quad(ip: bytes): bytes
    requires |ip| == 4
  {
    Joined(Dec(ip[0]), DOT, Joined(Dec(ip[1]), DOT, Joined(Dec(ip[2]), DOT, Dec(ip[3]))))
  }

  function Octet(f: bytes): Option<byte> {
    if Canonical(f) && Value(f) < 256 then Some(Value(f)) else None
  }

  /** The octets written in `t`, separated by dots. */
  function ParseOctets(t: bytes): (r: Option<bytes>)
    ensures r.Some? ==> r.value != []
    decreases |t|
  {
    var i := Find(t, DOT);
    match Octet(t[..i])
    case None => None
    case Some(v) =>
      if i == |t| then Some([v])
      else
        match ParseOctets(t[i + 1..])
        case None => None
        case Some(vs) => Some([v] + vs)
  }

  /** net.ParseIP on a text without colons: four canonical decimal octets or nothing. */
  function ParseQuad(t: bytes): Option<bytes> {
    var r := ParseOctets(t);
    if r.Some? && |r.value| == 4 then r else None
  }

  lemma OctetOfDec(v: byte)
    ensures Octet(Dec(v)) == Some(v) && DOT !in Dec(v)
  {
    DecIsCanonical(v);
  }

  lemma OneOctet(v: byte, t: bytes)
    requires t == Dec(v)
    ensures ParseOctets(t) == Some([v])
  {
    OctetOfDec(v);
    assert Find(t, DOT) == |t| && t[..|t|] == t;
  }

  lemma MoreOctets(v: byte, rest: bytes, vs: bytes)
    requires ParseOctets(rest) == Some(vs)
    ensures ParseOctets(Joined(Dec(v), DOT, rest)) == Some([v] + vs)
  {
    var t := Joined(Dec(v), DOT, rest);
    OctetOfDec(v);
    JoinedParts(Dec(v), DOT, rest);
    FindAt(t, DOT, |Dec(v)|);
  }

  lemma QuadParses(ip: bytes)
    requires |ip| == 4
    ensures ParseQuad(Quad(ip)) == Some(ip)
  {
    hide ParseOctets, Joined, Dec;
    var t3 := Dec(ip[3]);
    var t2 := Joined(Dec(ip[2]), DOT, t3);
    var t1 := Joined(Dec(ip[1]), DOT, t2);
    OneOctet(ip[3], t3);
    MoreOctets(ip[2], t3, [ip[3]]);
    MoreOctets(ip[1], t2, [ip[2]] + [ip[3]]);
    MoreOctets(ip[0], t1, [ip[1]] + ([ip[2]] + [ip[3]]));
    assert [ip[0]] + ([ip[1]] + ([ip[2]] + [ip[3]])) == ip;
  }

  /** What ParseOctets accepts is what printing the octets gives, so ParseQuad inverts Quad both ways. */
  lemma {:induction false} OctetsPrint(t: bytes)
    requires ParseOctets(t).Some?
    ensures var vs := ParseOctets(t).value;
            t == if |vs| == 1 then Dec(vs[0]) else Joined(Dec(vs[0]), DOT, Print(vs[1..]))
    ensures t == Print(ParseOctets(t).value)
  {
    var i := Find(t, DOT);
    CanonicalIsDec(t[..i]);
    if i == |t| {
      assert t[..i] == t;
    } else {
      OctetsPrint(t[i + 1..]);
      var vs := ParseOctets(t).value;
      assert vs[1..] == ParseOctets(t[i + 1..]).value;
      assert t == Joined(t[..i], DOT, t[i + 1..]);
    }
  }

  function Print(vs: bytes): bytes {
    if vs == [] then [] else if |vs| == 1 then Dec(vs[0]) else Joined(Dec(vs[0]), DOT, Print(vs[1..]))
  }

  lemma QuadExactly(t: bytes, ip: bytes)
    requires |ip| == 4
    ensures ParseQuad(t) == Some(ip) <==> t == Quad(ip)
  {
    QuadParses(ip);
    if ParseQuad(t) == Some(ip) {
      OctetsPrint(t);
      hide Dec, Joined, ParseOctets;
      assert Print(ip[3..]) == Dec(ip[3]);
      assert ip[2..][1..] == ip[3..] && Print(ip[2..]) == Joined(Dec(ip[2]), DOT, Dec(ip[3]));
      assert ip[1..][1..] == ip[2..] && Print(ip[1..]) == Joined(Dec(ip[1]), DOT, Print(ip[2..]));
    }
  }

  /** A dotted quad is colon- and bracket-free. */
  lemma QuadIsPlain(ip: bytes)
    requires |ip| == 4
    ensures COLON !in Quad(ip) && BracketFree(Quad(ip))
  {
    hide Dec, Joined;
    DecIsPlain(ip[0]);
    DecIsPlain(ip[1]);
    DecIsPlain(ip[2]);
    DecIsPlain(ip[3]);
    JoinedParts(Dec(ip[2]), DOT, Dec(ip[3]));
    var t2 := Joined(Dec(ip[2]), DOT, Dec(ip[3]));
    JoinedParts(Dec(ip[1]), DOT, t2);
    JoinedParts(Dec(ip[0]), DOT, Joined(Dec(ip[1]), DOT, t2));
  }

  // ---------- host and port ----------

  /** net.JoinHostPort. */
  function JoinHostPort(host: bytes, port: bytes): bytes {
    if COLON in host then Joined([LBRACKET] + host + [RBRACKET], COLON, port) else Joined(host, COLON, port)
  }

  /** net.SplitHostPort; None stands for its error. */
  function SplitHostPort(t: bytes): Option<(bytes, bytes)> {
    var i := FindLast(t, COLON);
    if i < 0 then None
    else if t[0] == LBRACKET then
      var end := Find(t, RBRACKET);
      if end == |t| || end + 1 != i then None
      else if LBRACKET in t[1..] || RBRACKET in t[end + 1..] then None
      else Some((t[1..end], t[i + 1..]))
    else if COLON in t[..i] || LBRACKET in t || RBRACKET in t then None
    else Some((t[..i], t[i + 1..]))
  }

  predicate BracketFree(host: bytes) {
    LBRACKET !in host && RBRACKET !in host
  }

  lemma DecIsPlain(port: nat)
    ensures COLON !in Dec(port) && BracketFree(Dec(port))
  {
    DecIsCanonical(port);
  }

  lemma LastColon(front: bytes, port: nat)
    ensures var t := Joined(front, COLON, Dec(port));
            && FindLast(t, COLON) == |front| && t[..|front|] == front && t[|front| + 1..] == Dec(port)
            && (forall c :: c in t <==> c in front || c == COLON || c in Dec(port))
  {
    DecIsPlain(port);
    JoinedParts(front, COLON, Dec(port));
    FindLastAt(Joined(front, COLON, Dec(port)), COLON, |front|);
  }

  /** host:port comes apart again exactly when the host has neither colons nor brackets. */
  lemma PlainSplits(host: bytes, port: nat)
    ensures SplitHostPort(Joined(host, COLON, Dec(port))) == Some((host, Dec(port)))
            <==> COLON !in host && BracketFree(host)
  {
    hide Dec;
    var t := Joined(host, COLON, Dec(port));
    DecIsPlain(port);
    LastColon(host, port);
    if host != [] && host[0] == LBRACKET {
      var end := Find(t, RBRACKET);
      assert t[0] == LBRACKET;
      if end + 1 == |host| {
        assert |t[1..end]| < |host|;
      }
    } else {
      assert t[0] != LBRACKET;
    }
  }

  /** Joining and splitting are inverse exactly on hosts without brackets. */
  lemma JoinSplits(host: bytes, port: nat)
    ensures SplitHostPort(JoinHostPort(host, Dec(port))) == Some((host, Dec(port))) <==> BracketFree(host)
  {
    hide Dec;
    if COLON !in host {
      PlainSplits(host, port);
    } else {
      BracketedSplits(host, port);
    }
  }

  /** In "[host]:port" the first closing bracket stands right before the last colon just when the host has none. */
  lemma FirstClosing(host: bytes, port: nat)
    ensures var t := Joined([LBRACKET] + host + [RBRACKET], COLON, Dec(port));
            && |t| > |host| + 3 && t[0] == LBRACKET && t[1..|host| + 1] == host
            && Find(t, RBRACKET) <= |host| + 1
            && (Find(t, RBRACKET) == |host| + 1 <==> RBRACKET !in host)
            && t[|host| + 2..] == [COLON] + Dec(port)
            && t[1..] == host + [RBRACKET] + ([COLON] + Dec(port))
  {
    hide Dec;
    var front := [LBRACKET] + host + [RBRACKET];
    var t := Joined(front, COLON, Dec(port));
    var n := |host|;
    assert t == [LBRACKET] + (host + [RBRACKET] + ([COLON] + Dec(port)));
    assert t[1..n + 1] == host && t[n + 1] == RBRACKET;
    if RBRACKET in host {
      var j := Find(host, RBRACKET);
      assert t[j + 1] == t[1..n + 1][j];
    } else {
      assert t[..n + 1] == [LBRACKET] + host;
      FindAt(t, RBRACKET, n + 1);
    }
  }

  lemma BracketedSplits(host: bytes, port: nat)
    ensures SplitHostPort(Joined([LBRACKET] + host + [RBRACKET], COLON, Dec(port))) == Some((host, Dec(port)))
            <==> BracketFree(host)
  {
    hide Dec, Joined;
    var front := [LBRACKET] + host + [RBRACKET];
    DecIsPlain(port);
    LastColon(front, port);
    FirstClosing(host, port);
  }
}
