/**
 The key exchange of pkg/crypto/x25519.go: the initiator (the SOCKS5 side) writes its public key and then reads,
 the responder (the relay) reads and then writes. The curve and the key derivation are any functions obeying the laws
 of section 6.1 of RFC 7748 and section 2 of RFC 5869. Each side makes one plain Read call for the peer's 32 bytes.
 */
module KeyExchange {
  import opened Bytes
  import opened Frames
  import opened SecureChannel

  const KEY := 32

  /** `mix` is None where X25519 reports a low-order point. */
  datatype Dh = Dh(pub: bytes -> bytes, mix: (bytes, bytes) -> Option<bytes>, kdf: bytes -> bytes)

  ghost predicate LawfulDh(d: Dh) {
    && (forall x :: |d.pub(x)| == KEY)
    && (forall x, y :: d.mix(x, d.pub(y)) == d.mix(y, d.pub(x)))
    && (forall z :: |d.kdf(z)| == KEY)
  }

  /** The fixed array remotePub after `got` arrived in it. */
  function Padded(got: bytes): (r: bytes)
    ensures |r| == KEY
  {
    Overlay(Zeros(KEY), got)
  }

  function KeyFrom(d: Dh, priv: bytes, got: bytes): Option<bytes> {
    match d.mix(priv, Padded(got))
    case None => None
    case Some(secret) => Some(d.kdf(secret))
  }

  lemma PaddedIs(got: bytes)
    requires |got| <= 32
    ensures Padded(got) == got + Zeros(32 - |got|)
  {
  }

  function Sum(x: bytes, y: bytes): (r: bytes)
    ensures |r| == KEY
  {
    seq(KEY, i requires 0 <= i < KEY => Low8(Padded(x)[i] as nat + Padded(y)[i] as nat))
  }

  /** A group far too small to hide anything: keys add up. */
  function ToyDh(): Dh {
    Dh((x: bytes) => Padded(x), (x: bytes, y: bytes) => Some(Sum(x, y)), (z: bytes) => Padded(z))
  }

  lemma PaddedTwice(x: bytes)
    ensures Padded(Padded(x)) == Padded(x)
  {
  }

  lemma ToyDhIsLawful()
    ensures LawfulDh(ToyDh())
  {
    forall x: bytes, y: bytes ensures Sum(x, Padded(y)) == Sum(y, Padded(x)) {
      PaddedTwice(x);
      PaddedTwice(y);
    }
  }

  /** One side's call; `k` is how many bytes its single Read returned, 0 if it failed or was never made. */
  method GenerateSharedSecret(d: Dh, priv: bytes, conn: NetConn, initiator: bool)
    returns (key: Option<bytes>, ghost k: nat)
    requires LawfulDh(d)
    modifies conn`incoming, conn`outgoing, conn`room
    ensures k <= KEY && k <= |old(conn.incoming)| && conn.incoming == old(conn.incoming)[k..]
    ensures k >= 1 <==> conn.isOpen && old(conn.incoming) != [] && (initiator ==> old(conn.room) >= KEY)
    ensures var speaks := conn.isOpen && (initiator || old(conn.incoming) != []);
            conn.outgoing == old(conn.outgoing) + if speaks then Fit(d.pub(priv), old(conn.room)) else []
    ensures key == if k >= 1 && old(conn.room) >= KEY then KeyFrom(d, priv, old(conn.incoming)[..k]) else None
    ensures k <= 32
    ensures var shared := d.mix(priv, old(conn.incoming)[..k] + Zeros(32 - k));
            && (key.Some? <==> k >= 1 && old(conn.room) >= 32 && shared.Some?)
            && (key.Some? ==> |key.value| == 32 && key.value == d.kdf(shared.value))
  {
    k := 0;
    var localPub := d.pub(priv);
    var remotePub := new byte[KEY](_ => 0);
    assert remotePub[..] == Zeros(KEY);
    ghost var s := conn.incoming;
    var n, err;
    if initiator {
      var wErr := conn.Write(localPub);
      if wErr.Some? { return None, 0; }
      n, err := conn.Read(remotePub);
      k := n;
      if err.Some? { return None, k; }
    } else {
      n, err := conn.Read(remotePub);
      k := n;
      if err.Some? { return None, k; }
      var wErr := conn.Write(localPub);
      if wErr.Some? { return None, k; }
    }
    assert s[..n] == remotePub[..n];
    assert remotePub[..] == Padded(s[..n]);
    PaddedIs(s[..n]);
    var sharedSecret := d.mix(priv, remotePub[..]);
    if sharedSecret.None? { return None, k; }
    key := Some(d.kdf(sharedSecret.value));
  }

  // ---------- the two calls together ----------

  datatype Side = Initiator | Responder

  /** `got` is what its one Read returned; `later` what it wrote once it had its key. */
  datatype Party = Party(priv: bytes, wrote: bool, got: Option<bytes>, later: bytes) {
    predicate Done() { wrote && got.Some? }
  }

  datatype State = State(i: Party, r: Party, toR: bytes, toI: bytes)

  datatype Step = SendKey(who: Side) | ReceiveKey(who: Side, k: nat) | SendMore(who: Side, data: bytes)

  function Who(s: State, who: Side): Party {
    if who == Initiator then s.i else s.r
  }

  function Inbox(s: State, who: Side): bytes {
    if who == Initiator then s.toI else s.toR
  }

  predicate Enabled(s: State, step: Step) {
    var p := Who(s, step.who);
    match step
    case SendKey(who) => !p.wrote && (who == Responder ==> p.got.Some?)
    case ReceiveKey(who, k) =>
      p.got.None? && (who == Initiator ==> p.wrote) && 1 <= k <= KEY && k <= |Inbox(s, who)|
    case SendMore(_, _) => p.Done()
  }

  function Update(s: State, who: Side, p: Party, sent: bytes, read: nat): State
    requires read <= |Inbox(s, who)|
  {
    if who == Initiator then s.(i := p, toR := s.toR + sent, toI := s.toI[read..])
    else s.(r := p, toI := s.toI + sent, toR := s.toR[read..])
  }

  function Apply(d: Dh, s: State, step: Step): State
    requires Enabled(s, step)
  {
    var p := Who(s, step.who);
    match step
    case SendKey(who) => Update(s, who, p.(wrote := true), d.pub(p.priv), 0)
    case ReceiveKey(who, k) => Update(s, who, p.(got := Some(Inbox(s, who)[..k])), [], k)
    case SendMore(who, data) => Update(s, who, p.(later := p.later + data), data, 0)
  }

  predicate Init(s: State) {
    s == State(Party(s.i.priv, false, None, []), Party(s.r.priv, false, None, []), [], [])
  }

  predicate IsRun(d: Dh, states: seq<State>, steps: seq<Step>) {
    && |states| == |steps| + 1 && Init(states[0])
    && forall n :: 0 <= n < |steps| ==>
         Enabled(states[n], steps[n]) && states[n + 1] == Apply(d, states[n], steps[n])
  }

  /** All a party has written so far. */
  function Stream(d: Dh, p: Party): bytes {
    if p.wrote then d.pub(p.priv) + p.later else []
  }

  /** The reader holds the first bytes of the writer's key, and the rest of the writer's stream is in transit. */
  predicate Half(d: Dh, writer: Party, reader: Party, transit: bytes) {
    match reader.got
    case None => transit == Stream(d, writer)
    case Some(got) =>
      && writer.wrote && 1 <= |got| <= KEY && got <= d.pub(writer.priv)
      && transit == Stream(d, writer)[|got|..]
  }

  ghost predicate Inv(d: Dh, s: State) {
    && LawfulDh(d)
    && (!s.i.Done() ==> s.i.later == []) && (!s.r.Done() ==> s.r.later == [])
    && (s.i.got.Some? ==> s.i.wrote) && (s.r.wrote ==> s.r.got.Some?)
    && Half(d, s.i, s.r, s.toR) && Half(d, s.r, s.i, s.toI)
  }

  lemma StepKeeps(d: Dh, s: State, step: Step)
    requires Inv(d, s) && Enabled(s, step)
    ensures Inv(d, Apply(d, s, step))
  {
    var t := Apply(d, s, step);
    assert s.toR[0..] == s.toR && s.toI[0..] == s.toI;
    assert s.toR + [] == s.toR && s.toI + [] == s.toI;
    match step {
      case SendKey(who) =>
        assert d.pub(Who(s, who).priv) + [] == d.pub(Who(s, who).priv);
      case ReceiveKey(who, k) =>
      case SendMore(who, data) =>
        var p := Who(s, who);
        assert Stream(d, p.(later := p.later + data)) == Stream(d, p) + data;
    }
  }

  lemma {:induction false} RunInv(d: Dh, states: seq<State>, steps: seq<Step>, n: nat)
    requires LawfulDh(d) && IsRun(d, states, steps) && n < |states|
    ensures Inv(d, states[n])
  {
    if n > 0 {
      RunInv(d, states, steps, n - 1);
      StepKeeps(d, states[n - 1], steps[n - 1]);
    }
  }

  /** Whoever has finished reads the peer's frames from their first byte on exactly when its single Read returned
      the whole key; otherwise the rest of the key is taken for the head of the first frame. */
  lemma AlignedExactly(d: Dh, states: seq<State>, steps: seq<Step>, n: nat)
    requires LawfulDh(d) && IsRun(d, states, steps) && n < |states|
    ensures var s := states[n];
            && (s.r.got.Some? ==> (s.toR == s.i.later <==> |s.r.got.value| == KEY))
            && (s.i.got.Some? ==> (s.toI == s.r.later <==> |s.i.got.value| == KEY))
  {
    RunInv(d, states, steps, n);
    var s := states[n];
    if s.r.got.Some? {
      HalfAligned(d, s.i, s.r, s.toR);
    }
    if s.i.got.Some? {
      HalfAligned(d, s.r, s.i, s.toI);
    }
  }

  lemma HalfAligned(d: Dh, writer: Party, reader: Party, transit: bytes)
    requires LawfulDh(d) && Half(d, writer, reader, transit) && reader.got.Some?
    ensures transit == writer.later <==> |reader.got.value| == KEY
    ensures |reader.got.value| == KEY ==> reader.got.value == d.pub(writer.priv)
  {
    var whole := d.pub(writer.priv) + writer.later;
    assert whole[KEY..] == writer.later;
  }

  /** Two sides that both read a whole key end with the same one, of 32 bytes, derived from what the curve makes of one
      private key and the other's public one; or both learn that there is none. */
  lemma KeysAgree(d: Dh, states: seq<State>, steps: seq<Step>, n: nat)
    requires LawfulDh(d) && IsRun(d, states, steps) && n < |states|
    requires states[n].i.Done() && states[n].r.Done()
    requires |states[n].i.got.value| == KEY && |states[n].r.got.value| == KEY
    ensures var s := states[n];
            KeyFrom(d, s.i.priv, s.i.got.value) == KeyFrom(d, s.r.priv, s.r.got.value)
    ensures var s := states[n];
            var key, shared := KeyFrom(d, s.i.priv, s.i.got.value), d.mix(s.i.priv, d.pub(s.r.priv));
            && (key.Some? <==> shared.Some?)
            && (key.Some? ==> |key.value| == 32 && key.value == d.kdf(shared.value))
  {
    RunInv(d, states, steps, n);
    var s := states[n];
    HalfAligned(d, s.i, s.r, s.toR);
    HalfAligned(d, s.r, s.i, s.toI);
    assert Padded(s.i.got.value) == d.pub(s.r.priv);
    assert Padded(s.r.got.value) == d.pub(s.i.priv);
  }

  /** The order of the two calls never blocks both sides: until both are done, one of them can write its key or read
      bytes that have arrived. */
  lemma NoDeadlock(d: Dh, states: seq<State>, steps: seq<Step>, n: nat) returns (step: Step)
    requires LawfulDh(d) && IsRun(d, states, steps) && n < |states|
    requires !states[n].i.Done() || !states[n].r.Done()
    ensures Enabled(states[n], step) && !step.SendMore?
  {
    RunInv(d, states, steps, n);
    var s := states[n];
    if !s.i.wrote {
      step := SendKey(Initiator);
    } else if s.r.got.None? {
      step := ReceiveKey(Responder, 1);
    } else if !s.r.wrote {
      step := SendKey(Responder);
    } else {
      step := ReceiveKey(Initiator, 1);
    }
  }

  // ---------- how long the two reads have to be ----------

  /** The run in which the initiator's Read returns its first `m` bytes and the responder's its first `n`. */
  function RunOf(d: Dh, x: bytes, y: bytes, m: nat, n: nat): (seq<State>, seq<Step>)
    requires 1 <= m <= KEY && 1 <= n <= KEY && |d.pub(x)| == KEY && |d.pub(y)| == KEY
  {
    var px, py := d.pub(x), d.pub(y);
    var i0, r0 := Party(x, false, None, []), Party(y, false, None, []);
    var i1, r1 := i0.(wrote := true), r0.(got := Some(px[..n]));
    var r2, i2 := r1.(wrote := true), i1.(got := Some(py[..m]));
    ([State(i0, r0, [], []), State(i1, r0, px, []), State(i1, r1, px[n..], []), State(i1, r2, px[n..], py),
      State(i2, r2, px[n..], py[m..])],
     [SendKey(Initiator), ReceiveKey(Responder, n), SendKey(Responder), ReceiveKey(Initiator, m)])
  }

  lemma RunOfIsRun(d: Dh, x: bytes, y: bytes, m: nat, n: nat)
    requires 1 <= m <= KEY && 1 <= n <= KEY && |d.pub(x)| == KEY && |d.pub(y)| == KEY
    ensures var (states, steps) := RunOf(d, x, y, m, n); IsRun(d, states, steps)
  {
    var (states, steps) := RunOf(d, x, y, m, n);
    var px, py := d.pub(x), d.pub(y);
    assert [] + px == px && [] + py == py && px[0..] == px && py[0..] == py && px[n..] + [] == px[n..];
    assert Enabled(states[0], steps[0]) && Apply(d, states[0], steps[0]) == states[1];
    assert Enabled(states[1], steps[1]) && Apply(d, states[1], steps[1]) == states[2];
    assert Enabled(states[2], steps[2]) && Apply(d, states[2], steps[2]) == states[3];
    assert Enabled(states[3], steps[3]) && Apply(d, states[3], steps[3]) == states[4];
  }

  predicate BothRead(s: State, m: nat, n: nat) {
    s.i.Done() && s.r.Done() && |s.i.got.value| == m && |s.r.got.value| == n
  }

  predicate SameKey(d: Dh, s: State)
    requires s.i.got.Some? && s.r.got.Some?
  {
    KeyFrom(d, s.i.priv, s.i.got.value) == KeyFrom(d, s.r.priv, s.r.got.value)
  }

  /** Every run over every lawful curve in which the reads return this many bytes ends in agreement. */
  ghost predicate AlwaysAgree(m: nat, n: nat) {
    forall d, states, steps ::
      LawfulDh(d) && IsRun(d, states, steps) && BothRead(states[|steps|], m, n) ==> SameKey(d, states[|steps|])
  }

  /** The two reads lead to a shared key, whatever the curve and the private keys, exactly when both return all 32
      bytes. */
  lemma AgreeExactly(m: nat, n: nat)
    requires 1 <= m <= 32 && 1 <= n <= 32
    ensures AlwaysAgree(m, n) <==> m == 32 && n == 32
  {
    if m == KEY && n == KEY {
      forall d, states, steps | LawfulDh(d) && IsRun(d, states, steps) && BothRead(states[|steps|], m, n)
        ensures SameKey(d, states[|steps|])
      {
        KeysAgree(d, states, steps, |steps|);
      }
    } else {
      var states, steps := ShortReadBreaksAgreement(m, n);
    }
  }

  /** For any other two lengths here is a run in which both sides finish without an error and their keys differ. */
  lemma ShortReadBreaksAgreement(m: nat, n: nat) returns (states: seq<State>, steps: seq<Step>)
    requires 1 <= m <= KEY && 1 <= n <= KEY && !(m == KEY && n == KEY)
    ensures LawfulDh(ToyDh()) && IsRun(ToyDh(), states, steps)
    ensures var s := states[|steps|];
            && BothRead(s, m, n) && !SameKey(ToyDh(), s)
            && KeyFrom(ToyDh(), s.i.priv, s.i.got.value).Some? && KeyFrom(ToyDh(), s.r.priv, s.r.got.value).Some?
  {
    ToyDhIsLawful();
    hide LawfulDh;
    var ones: bytes := seq(KEY, _ => 1);
    var twos: bytes := seq(KEY, _ => 2);
    assert Padded(ones) == ones && Padded(twos) == twos;
    states, steps := RunOf(ToyDh(), ones, twos, m, n).0, RunOf(ToyDh(), ones, twos, m, n).1;
    RunOfIsRun(ToyDh(), ones, twos, m, n);
    hide IsRun;
    SumsDiffer(ones, twos, m, n);
  }

  /** The last byte of the derived keys is the sum of the two private ones only where the whole key was read. */
  lemma SumsDiffer(ones: bytes, twos: bytes, m: nat, n: nat)
    requires ones == seq(KEY, _ => 1) && twos == seq(KEY, _ => 2)
    requires 1 <= m <= KEY && 1 <= n <= KEY && !(m == KEY && n == KEY)
    ensures KeyFrom(ToyDh(), ones, twos[..m]).Some? && KeyFrom(ToyDh(), twos, ones[..n]).Some?
    ensures KeyFrom(ToyDh(), ones, twos[..m]) != KeyFrom(ToyDh(), twos, ones[..n])
  {
    LastByte(ones, twos[..m]);
    LastByte(twos, ones[..n]);
    hide KeyFrom;
  }

  lemma LastByte(x: bytes, got: bytes)
    requires |x| == KEY && |got| <= KEY
    ensures var k := KeyFrom(ToyDh(), x, got);
            && k.Some? && |k.value| == KEY
            && k.value[KEY - 1] == Low8(x[KEY - 1] as nat + if |got| == KEY then got[KEY - 1] as nat else 0)
  {
    var k := KeyFrom(ToyDh(), x, got).value;
    var padded := Padded(got);
    assert Padded(x) == x;
    assert Padded(padded) == padded;
    assert k == Padded(Sum(x, padded));
    assert padded[KEY - 1] == if |got| == KEY then got[KEY - 1] else 0;
  }

  // ---------- the call and the steps ----------

  function Other(who: Side): Side {
    if who == Initiator then Responder else Initiator
  }

  /** A call that gets to read is two steps of the exchange, in the order of its role, from where its connection stands
      to where it then stands. */
  method SecretAlong(d: Dh, priv: bytes, conn: NetConn, who: Side, ghost s: State)
    returns (key: Option<bytes>, ghost steps: seq<Step>, ghost t: State)
    requires LawfulDh(d) && conn.isOpen && conn.room >= 32
    requires Who(s, who) == Party(priv, false, None, []) && Inbox(s, who) == conn.incoming != []
    modifies conn`incoming, conn`outgoing, conn`room
    ensures |steps| == 2 && Enabled(s, steps[0]) && Enabled(Apply(d, s, steps[0]), steps[1])
    ensures t == Apply(d, Apply(d, s, steps[0]), steps[1])
    ensures Who(t, who).Done() && Inbox(t, who) == conn.incoming && Who(t, Other(who)) == Who(s, Other(who))
    ensures old(conn.outgoing) <= conn.outgoing
    ensures Inbox(t, Other(who)) == Inbox(s, Other(who)) + conn.outgoing[|old(conn.outgoing)|..]
    ensures key == KeyFrom(d, priv, Who(t, who).got.value)
  {
    ghost var k;
    ghost var out := conn.outgoing;
    key, k := GenerateSharedSecret(d, priv, conn, who == Initiator);
    steps := if who == Initiator then [SendKey(who), ReceiveKey(who, k)] else [ReceiveKey(who, k), SendKey(who)];
    t := Apply(d, Apply(d, s, steps[0]), steps[1]);
    assert Inbox(s, who)[0..] == Inbox(s, who) && Inbox(s, Other(who)) + [] == Inbox(s, Other(who));
    assert Inbox(s, who)[k..][0..] == Inbox(s, who)[k..];
    assert Inbox(s, Other(who)) + d.pub(priv) + [] == Inbox(s, Other(who)) + d.pub(priv);
    assert conn.outgoing[|out|..] == d.pub(priv);
  }

  // ---------- what follows the keys ----------

  /** With two whole reads, what a party then reads of its peer are the peer's frames, payload by payload. */
  lemma FramesFollow(d: Dh, states: seq<State>, steps: seq<Step>, n: nat, a: Aead, ps: seq<Packet>, end: Ending)
    requires LawfulDh(d) && IsRun(d, states, steps) && n < |states| && Lawful(a) && AllSendable(ps)
    requires BothRead(states[n], KEY, KEY)
    ensures states[n].i.later == Frames.Encode(a, ps) ==>
              ReadAll(a, states[n].toR, end) == Drained(Bodies(ps), Short(0, end))
    ensures states[n].r.later == Frames.Encode(a, ps) ==>
              ReadAll(a, states[n].toI, end) == Drained(Bodies(ps), Short(0, end))
  {
    AlignedExactly(d, states, steps, n);
    DecodesToBodies(a, ps, [], end);
    assert Frames.Encode(a, ps) + [] == Frames.Encode(a, ps);
  }

  /** And such runs there are, for all private keys and payloads. */
  lemma FramesCanFollow(d: Dh, x: bytes, y: bytes, a: Aead, ps: seq<Packet>, qs: seq<Packet>)
    returns (states: seq<State>, steps: seq<Step>)
    requires LawfulDh(d)
    ensures IsRun(d, states, steps) && BothRead(states[|steps|], 32, 32)
    ensures var s := states[|steps|];
            && s.i.priv == x && s.r.priv == y
            && s.i.later == Frames.Encode(a, ps) && s.r.later == Frames.Encode(a, qs)
  {
    RunOfIsRun(d, x, y, 32, 32);
    states, steps := RunOf(d, x, y, 32, 32).0, RunOf(d, x, y, 32, 32).1;
    var s := states[|steps|];
    assert s.i.Done() && s.r.Done();
    var up, down := SendMore(Initiator, Frames.Encode(a, ps)), SendMore(Responder, Frames.Encode(a, qs));
    var t := Apply(d, s, up);
    var u := Apply(d, t, down);
    assert [] + Frames.Encode(a, ps) == Frames.Encode(a, ps) && [] + Frames.Encode(a, qs) == Frames.Encode(a, qs);
    hide Init, Frames.Encode;
    states, steps := states + [t] + [u], steps + [up] + [down];
  }
}
