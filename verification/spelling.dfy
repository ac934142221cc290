/** How numbers and addresses are spelled, character by character, and that the printing functions spell them so. */
module Spelling {
  import opened Bytes
  import opened AddressText

  // ---------- numbers ----------

  /** What a numeral reads as from left to right, behind digits that read as `acc`. */
  function Reads(f: bytes, acc: int): int {
    if f == [] then acc else Reads(f[1..], 10 * acc + (f[0] - '0' as int))
  }

  predicate DigitsOnly(f: bytes) {
    f != [] && forall c :: c in f ==> '0' as int <= c <= '9' as int
  }

  /** `f` is the decimal numeral of n. */
  predicate Numeral(f: bytes, n: nat) {
    DigitsOnly(f) && (f[0] == '0' as int ==> |f| == 1) && Reads(f, 0) == n
  }

  lemma {:induction false} ReadsLast(f: bytes, last: byte, acc: int)
    ensures Reads(f + [last], acc) == 10 * Reads(f, acc) + (last - '0' as int)
  {
    if f == [] {
      assert [last][1..] == [];
    } else {
      assert (f + [last])[1..] == f[1..] + [last];
      ReadsLast(f[1..], last, 10 * acc + (f[0] - '0' as int));
    }
  }

  lemma {:induction false} ReadsValue(f: bytes)
    requires forall c :: c in f ==> IsDigit(c)
    ensures Reads(f, 0) == Value(f)
  {
    if f != [] {
      var front, last := f[..|f| - 1], f[|f| - 1];
      assert f == front + [last];
      ReadsValue(front);
      ReadsLast(front, last, 0);
    }
  }

  /** A number is printed as its numeral, which is the only one. */
  lemma DecSpelled(f: bytes, n: nat)
    ensures Numeral(f, n) <==> f == Dec(n)
  {
    DecIsCanonical(n);
    ReadsValue(Dec(n));
    if Numeral(f, n) {
      ReadsValue(f);
      CanonicalIsDec(f);
    }
  }

  /** Exactly what a port text is read as: digits with at most one sign in front, anything else as 0. */
  lemma AtoiSpelled(s: bytes)
    ensures Atoi(s) ==
            if DigitsOnly(s) then Reads(s, 0)
            else if s != [] && s[0] == '+' as int && DigitsOnly(s[1..]) then Reads(s[1..], 0)
            else if s != [] && s[0] == '-' as int && DigitsOnly(s[1..]) then -Reads(s[1..], 0)
            else 0
  {
    if DigitsOnly(s) {
      assert s[0] in s;
      ReadsValue(s);
    } else if s != [] && DigitsOnly(s[1..]) {
      ReadsValue(s[1..]);
    }
  }

  // ---------- addresses ----------

  predicate Parts(t: bytes, ip: bytes, p: seq<bytes>)
    requires |ip| == 4
  {
    && |p| == 4 && (forall i :: 0 <= i < 4 ==> Numeral(p[i], ip[i]))
    && t == p[0] + ['.' as int] + p[1] + ['.' as int] + p[2] + ['.' as int] + p[3]
  }

  /** `t` is the dotted form of the four octets. */
  ghost predicate Dotted(t: bytes, ip: bytes)
    requires |ip| == 4
  {
    exists p :: Parts(t, ip, p)
  }

  lemma QuadSpelled(t: bytes, ip: bytes)
    requires |ip| == 4
    ensures Dotted(t, ip) <==> t == Quad(ip)
  {
    var dec := seq(4, i requires 0 <= i < 4 => Dec(ip[i]));
    forall i | 0 <= i < 4
      ensures Numeral(dec[i], ip[i])
    {
      DecSpelled(dec[i], ip[i]);
    }
    hide Numeral, Dec;
    DotsJoin(dec[0], dec[1], dec[2], dec[3]);
    if t == Quad(ip) {
      assert Parts(t, ip, dec);
    }
    if Dotted(t, ip) {
      var p :| Parts(t, ip, p);
      forall i | 0 <= i < 4
        ensures p[i] == dec[i]
      {
        DecSpelled(p[i], ip[i]);
      }
    }
  }

  lemma DotsJoin(p: bytes, q: bytes, r: bytes, s: bytes)
    ensures p + ['.' as int] + q + ['.' as int] + r + ['.' as int] + s
            == Joined(p, DOT, Joined(q, DOT, Joined(r, DOT, s)))
  {
    var d: bytes := ['.' as int];
    assert p + d + (q + d + (r + d + s)) == p + d + q + d + r + d + s;
  }

  /** `t` is host, colon and port. */
  ghost predicate HostPort(t: bytes, host: bytes, port: nat) {
    exists p :: Numeral(p, port) && t == host + [':' as int] + p
  }

  lemma HostPortSpelled(t: bytes, host: bytes, port: nat)
    ensures HostPort(t, host, port) <==> t == Joined(host, COLON, Dec(port))
  {
    DecSpelled(Dec(port), port);
    hide Numeral, Dec;
    if HostPort(t, host, port) {
      var p :| Numeral(p, port) && t == host + [':' as int] + p;
      DecSpelled(p, port);
    }
  }

  predicate NoBrackets(s: bytes) {
    '[' as int !in s && ']' as int !in s
  }

  /** Exactly what is taken apart, and into what: host, colon and port, the host in brackets or without colons. */
  lemma SplitSpelled(t: bytes, host: bytes, port: bytes)
    ensures SplitHostPort(t) == Some((host, port)) <==>
            && NoBrackets(host) && NoBrackets(port) && ':' as int !in port
            && (t == ['[' as int] + host + [']' as int, ':' as int] + port
                || (':' as int !in host && t == host + [':' as int] + port))
  {
    if SplitHostPort(t) == Some((host, port)) {
      SplitRejoins(t, host, port);
    }
    if NoBrackets(host) && NoBrackets(port) && ':' as int !in port {
      if t == ['[' as int] + host + [']' as int, ':' as int] + port {
        BracketedForm(t, host, port);
      } else if ':' as int !in host && t == host + [':' as int] + port {
        PlainForm(t, host, port);
      }
    }
  }

  lemma SplitRejoins(t: bytes, host: bytes, port: bytes)
    requires SplitHostPort(t) == Some((host, port))
    ensures NoBrackets(host) && NoBrackets(port) && ':' as int !in port
    ensures t == ['[' as int] + host + [']' as int, ':' as int] + port
            || (':' as int !in host && t == host + [':' as int] + port)
  {
    var i := FindLast(t, COLON);
    if t[0] == LBRACKET {
      var end := Find(t, RBRACKET);
      assert t == [t[0]] + t[1..end] + [t[end], t[i]] + t[i + 1..];
      assert forall c :: c in host ==> c in t[1..] && c in t[..end];
      assert forall c :: c in port ==> c in t[1..] && c in t[end + 1..];
    } else {
      assert t == t[..i] + [t[i]] + t[i + 1..];
    }
  }

  lemma PlainForm(t: bytes, host: bytes, port: bytes)
    requires NoBrackets(host) && NoBrackets(port) && ':' as int !in port && ':' as int !in host
    requires t == host + [':' as int] + port
    ensures SplitHostPort(t) == Some((host, port))
  {
    var i := |host|;
    assert t[..i] == host && t[i + 1..] == port;
    FindLastAt(t, COLON, i);
    assert forall c :: c in t <==> c in host || c == COLON || c in port;
    assert t[0] in t;
  }

  lemma BracketedForm(t: bytes, host: bytes, port: bytes)
    requires NoBrackets(host) && NoBrackets(port) && ':' as int !in port
    requires t == ['[' as int] + host + [']' as int, ':' as int] + port
    ensures SplitHostPort(t) == Some((host, port))
  {
    BracketedParts(t, host, port);
    FindAt(t, RBRACKET, |host| + 1);
    FindLastAt(t, COLON, |host| + 2);
  }

  lemma BracketedParts(t: bytes, host: bytes, port: bytes)
    requires NoBrackets(host) && NoBrackets(port)
    requires t == ['[' as int] + host + [']' as int, ':' as int] + port
    ensures var end := |host| + 1;
            && t[0] == LBRACKET && t[end] == RBRACKET && t[end + 1] == COLON
            && t[1..end] == host && t[end + 2..] == port
            && RBRACKET !in t[..end] && LBRACKET !in t[1..] && RBRACKET !in t[end + 1..]
  {
    var end := |host| + 1;
    assert t[..end] == ['[' as int] + host;
    assert t[end + 1..] == [':' as int] + port;
    assert t[1..] == host + ([']' as int, ':' as int] + port);
  }

  /** A host with colons is put in brackets first. */
  lemma JoinSpelled(t: bytes, host: bytes, port: nat)
    ensures t == JoinHostPort(host, Dec(port)) <==>
            HostPort(t, if ':' as int in host then ['[' as int] + host + [']' as int] else host, port)
  {
    HostPortSpelled(t, if ':' as int in host then ['[' as int] + host + [']' as int] else host, port);
  }
}
