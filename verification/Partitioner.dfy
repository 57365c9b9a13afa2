/** src/partitioner.rs: choosing the partition of a message. */
module Partitioner {
  import opened Arithmetic
  import opened Common

  const MAX_I32 := 0x7FFF_FFFF
  const MIN_I32 := -0x8000_0000
  const TWO_32 := 0x1_0000_0000

  type int32 = x: int | MIN_I32 <= x <= MAX_I32

  /** Two's-complement wrap-around to 32 bits. */
  function Wrap32(x: int): int32 {
    (x - MIN_I32) % TWO_32 + MIN_I32
  }

  /** The remainder that truncates toward zero and so takes the sign of `a`. */
  function TruncRem(a: int, n: int): int
    requires n > 0
  {
    if a >= 0 then a % n else -((-a) % n)
  }

  /** The round-robin expression, with the 32-bit addition wrapping on overflow. */
  function Pick(counter: int32, n: int32): int
    requires n > 0
  {
    TruncRem(Wrap32(TruncRem(counter, n) + n), n)
  }

  /** The addition inside Pick leaves the 32-bit range. */
  predicate PickOverflows(counter: int32, n: int32)
    requires n > 0
  {
    TruncRem(counter, n) + n > MAX_I32
  }

  class RoundRobinPartitioner {
    var counter: int32

    constructor ()
      ensures counter == 0
    {
      counter := 0;
    }

    method Partition(key: Option<Bytes>, n: int32) returns (p: int)
      modifies this
      ensures n <= 0 ==> p == 0 && counter == old(counter)
      ensures n > 0 ==> p == Pick(old(counter), n) && counter == Wrap32(old(counter) + 1)
      ensures 0 < n <= 0x4000_0000 ==> p == old(counter) % n
    {
      if n <= 0 {
        return 0;
      }
      var prev := counter;
      counter := Wrap32(counter + 1);
      if n <= 0x4000_0000 {
        PickIsRemainder(prev, n);
      }
      p := TruncRem(Wrap32(TruncRem(prev, n) + n), n);
    }
  }

  class ConsistentPartitioner {
    const fallback: RoundRobinPartitioner

    constructor ()
      ensures fresh(fallback) && fallback.counter == 0
    {
      fallback := new RoundRobinPartitioner();
    }

    method Partition(key: Option<Bytes>, n: int32) returns (p: int)
      modifies fallback
      ensures n <= 0 ==> p == 0
      ensures key.Some? || n <= 0 ==> fallback.counter == old(fallback.counter)
      ensures key.Some? && n > 0 ==> p == Fnv(OFFSET_BASIS, key.value) % n
      ensures key.None? && n > 0 ==>
                p == Pick(old(fallback.counter), n) && fallback.counter == Wrap32(old(fallback.counter) + 1)
      ensures 0 < n <= 0x4000_0000 ==> 0 <= p < n
    {
      if n <= 0 {
        return 0;
      }
      if key.Some? {
        var hash := Fnv1a32(key.value);
        p := hash % n;
      } else {
        p := fallback.Partition(None, n);
      }
    }
  }

  // ---------------------------------------------------------------------------
  // Round robin
  // ---------------------------------------------------------------------------

  lemma TruncRemRange(a: int, n: int)
    requires n > 0
    ensures -n < TruncRem(a, n) < n
    ensures TruncRem(a, n) + n > 0 && (TruncRem(a, n) + n) % n == a % n
  {
    var t := TruncRem(a, n);
    if a >= 0 {
      ModUnique(t + n, 1, t, n);
    } else {
      var q, m := (-a) / n, (-a) % n;
      assert -a == q * n + m;
      assert a == (-q) * n - m;
      if m == 0 {
        ModUnique(a, -q, 0, n);
        ModUnique(t + n, 1, 0, n);
      } else {
        assert a == (-q - 1) * n + (n - m);
        ModUnique(a, -q - 1, n - m, n);
        ModUnique(t + n, 0, n - m, n);
      }
    }
  }

  lemma PickIsRemainder(counter: int32, n: int32)
    requires 0 < n && !PickOverflows(counter, n)
    ensures Pick(counter, n) == counter % n && 0 <= Pick(counter, n) < n
  {
    TruncRemRange(counter, n);
    assert Wrap32(TruncRem(counter, n) + n) == TruncRem(counter, n) + n;
  }

  /**
    Up to 2^30 partitions no counter value overflows and the pick is the mathematical remainder;
    above that bound the counter n - 1 already overflows and picks no valid partition.
  */
  lemma RoundRobinExactUpTo2To30(n: int32)
    requires n > 0
    ensures n <= 0x4000_0000 <==> (forall c: int32 :: !PickOverflows(c, n))
    ensures n <= 0x4000_0000 <==> (forall c: int32 :: Pick(c, n) == c % n)
  {
    if n <= 0x4000_0000 {
      forall c: int32 ensures !PickOverflows(c, n) && Pick(c, n) == c % n {
        TruncRemRange(c, n);
        PickIsRemainder(c, n);
      }
    } else {
      var c: int32 := n - 1;
      ModUnique(c, 0, c, n);
      assert PickOverflows(c, n);
      var w := 2 * n - 1 - TWO_32;
      assert Wrap32(TruncRem(c, n) + n) == w < 0;
      assert Pick(c, n) <= 0 < c % n;
    }
  }

  /** The next pick is the next partition; across the counter's wrap exactly when n divides 2^32. */
  lemma PicksAdvance(counter: int32, n: int32)
    requires 0 < n <= 0x4000_0000
    ensures var next := Pick(Wrap32(counter + 1), n);
            if counter < MAX_I32 then next == (Pick(counter, n) + 1) % n
            else next == (Pick(counter, n) + 1) % n <==> TWO_32 % n == 0
  {
    hide Pick, TruncRem;
    PickSmall(counter, n);
    PickSmall(Wrap32(counter + 1), n);
    AddOneMod(counter, n);
    if counter == MAX_I32 {
      assert Wrap32(counter + 1) == MIN_I32;
      SameRemainder(MIN_I32, MAX_I32 + 1, n);
    }
  }

  lemma PickSmall(counter: int32, n: int32)
    requires 0 < n <= 0x4000_0000
    ensures Pick(counter, n) == counter % n
  {
    TruncRemRange(counter, n);
    PickIsRemainder(counter, n);
  }

  lemma AddOneMod(x: int, n: int)
    requires n > 0
    ensures (x % n + 1) % n == (x + 1) % n
  {
    var r := x % n;
    ModUnique(r, 0, r, n);
    EuclideanStep(x, n);
    EuclideanStep(r, n);
  }

  ghost function Picks(counter: int32, n: int32, k: nat): seq<int>
    requires n > 0
    decreases k
  {
    if k == 0 then [] else [Pick(counter, n)] + Picks(Wrap32(counter + 1), n, k - 1)
  }

  function Hits(ps: seq<int>, p: int): nat {
    if ps == [] then 0 else (if ps[0] == p then 1 else 0) + Hits(ps[1..], p)
  }

  /** How often the counter wraps between the first and the last of `k` picks. */
  function Wraps(counter: int32, k: nat): nat
    decreases k
  {
    if k <= 1 then 0 else (if counter == MAX_I32 then 1 else 0) + Wraps(Wrap32(counter + 1), k - 1)
  }

  /** One when the residue of `x` lies past `p` but not past `q`. */
  function Lead(x: int, n: int, p: int, q: int): int
    requires n > 0
  {
    (if x % n > p then 1 else 0) - (if x % n > q then 1 else 0)
  }

  lemma LeadIsBit(x: int, n: int, p: int, q: int)
    requires 0 <= p < q < n
    ensures 0 <= Lead(x, n, p, q) <= 1
  {
  }

  lemma LeadStep(x: int32, n: int32, p: int, q: int)
    requires 0 < n <= 0x4000_0000 && 0 <= p < q < n
    ensures Lead(x + 1, n, p, q) - Lead(x, n, p, q) ==
            (if Pick(x, n) == p then 1 else 0) - (if Pick(x, n) == q then 1 else 0)
  {
    TruncRemRange(x, n);
    PickIsRemainder(x, n);
    EuclideanStep(x, n);
  }

  ghost function Drift(counter: int32, n: int32, k: nat, p: int, q: int): int
    requires n > 0
  {
    Hits(Picks(counter, n, k), p) - Hits(Picks(counter, n, k), q) + Lead(counter, n, p, q)
  }

  lemma WrapStep(counter: int32)
    ensures Wrap32(counter + 1) == if counter == MAX_I32 then MIN_I32 else counter + 1
  {
  }

  lemma {:induction false} HitsDrift(counter: int32, n: int32, k: nat, p: int, q: int)
    requires 0 < n <= 0x4000_0000 && 0 <= p < q < n
    ensures 0 <= Drift(counter, n, k, p, q) + Wraps(counter, k)
    ensures Drift(counter, n, k, p, q) <= 1 + Wraps(counter, k)
    decreases k
  {
    hide Pick, Wrap32, Lead, Hits, Picks;
    if k == 0 {
      NoHits(counter, n, p);
      NoHits(counter, n, q);
      LeadIsBit(counter, n, p, q);
    } else {
      var next := Wrap32(counter + 1);
      HitsHead(counter, n, k, p);
      HitsHead(counter, n, k, q);
      LeadStep(counter, n, p, q);
      NoHits(next, n, p);
      NoHits(next, n, q);
      WrapStep(counter);
      HitsDrift(next, n, k - 1, p, q);
      LeadIsBit(counter + 1, n, p, q);
      LeadIsBit(next, n, p, q);
    }
  }

  lemma NoHits(counter: int32, n: int32, p: int)
    requires n > 0
    ensures Hits(Picks(counter, n, 0), p) == 0
  {
  }

  lemma HitsHead(counter: int32, n: int32, k: nat, p: int)
    requires n > 0 && k > 0
    ensures Hits(Picks(counter, n, k), p) ==
            (if Pick(counter, n) == p then 1 else 0) + Hits(Picks(Wrap32(counter + 1), n, k - 1), p)
  {
  }

  /** In any run of picks with `w` wraps the partitions' shares differ by at most w + 1. */
  lemma RoundRobinIsFair(counter: int32, n: int32, k: nat, p: int, q: int)
    requires 0 < n <= 0x4000_0000 && 0 <= p < n && 0 <= q < n
    ensures var ps := Picks(counter, n, k);
            Hits(ps, p) <= Hits(ps, q) + Wraps(counter, k) + 1
  {
    if p < q {
      HitsDrift(counter, n, k, p, q);
    } else if q < p {
      HitsDrift(counter, n, k, q, p);
    }
  }

  // ---------------------------------------------------------------------------
  // FNV-1a
  // ---------------------------------------------------------------------------

  type uint32 = x: int | 0 <= x < TWO_32

  const OFFSET_BASIS: uint32 := 2166136261

  function Pow2(n: nat): nat {
    if n == 0 then 1 else 2 * Pow2(n - 1)
  }

  /** Exclusive or of the low `n` bits. */
  function Xor(n: nat, a: nat, b: nat): (r: nat)
    ensures r < Pow2(n)
  {
    if n == 0 then 0 else (if a % 2 == b % 2 then 0 else 1) + 2 * Xor(n - 1, a / 2, b / 2)
  }

  function Bit(a: nat, i: nat): nat
    decreases i
  {
    if i == 0 then a % 2 else Bit(a / 2, i - 1)
  }

  /** Each of the low bits of the result is set exactly when the operands differ there. */
  lemma {:induction false} XorIsBitwise(n: nat, a: nat, b: nat, i: nat)
    requires i < n
    ensures Bit(Xor(n, a, b), i) == if Bit(a, i) == Bit(b, i) then 0 else 1
    decreases n
  {
    if i > 0 {
      XorIsBitwise(n - 1, a / 2, b / 2, i - 1);
      assert Xor(n, a, b) / 2 == Xor(n - 1, a / 2, b / 2);
    }
  }

  lemma {:induction false} XorCancels(n: nat, a: nat, b: nat)
    requires a < Pow2(n)
    ensures Xor(n, Xor(n, a, b), b) == a
  {
    if n > 0 {
      var x := Xor(n, a, b);
      assert x / 2 == Xor(n - 1, a / 2, b / 2) && x % 2 == (if a % 2 == b % 2 then 0 else 1);
      XorCancels(n - 1, a / 2, b / 2);
      assert Xor(n - 1, x / 2, b / 2) == a / 2;
    }
  }

  lemma WordWidth()
    ensures Pow2(32) == TWO_32
  {
    assert Pow2(8) == 0x100;
    assert Pow2(16) == 0x1_0000;
    assert Pow2(24) == 0x100_0000;
  }

  function Xor32(a: uint32, b: uint32): uint32 {
    WordWidth();
    Xor(32, a, b)
  }

  function FnvStep(hash: uint32, b: byte): uint32 {
    Xor32(hash, b) * 16777619 % TWO_32
  }

  function Fnv(hash: uint32, data: Bytes): uint32
    decreases |data|
  {
    if data == [] then hash else Fnv(FnvStep(hash, data[0]), data[1..])
  }

  method Fnv1a32(data: Bytes) returns (hash: uint32)
    ensures hash == Fnv(OFFSET_BASIS, data)
  {
    hash := OFFSET_BASIS;
    for i := 0 to |data|
      invariant Fnv(hash, data[i..]) == Fnv(OFFSET_BASIS, data)
    {
      assert data[i..][1..] == data[i + 1..];
      hash := Xor32(hash, data[i]);
      hash := hash * 16777619 % TWO_32;
    }
  }

  lemma FnvHead(hash: uint32, b: byte, rest: Bytes)
    ensures Fnv(hash, [b] + rest) == Fnv(FnvStep(hash, b), rest)
  {
    assert ([b] + rest)[1..] == rest;
  }

  lemma FnvOne(hash: uint32, b: byte)
    ensures Fnv(hash, [b]) == FnvStep(hash, b)
  {
    assert [b][1..] == [];
  }

  lemma {:induction false} XorZero(n: nat, a: nat)
    requires a < Pow2(n)
    ensures Xor(n, a, 0) == a
  {
    if n > 0 {
      XorZero(n - 1, a / 2);
    }
  }

  lemma XorUnfold(n: nat, a: nat, b: nat)
    ensures Xor(n + 1, a, b) == Differ(a, b) + 2 * Xor(n, a / 2, b / 2)
  {
  }

  function Differ(a: nat, b: nat): nat {
    if a % 2 == b % 2 then 0 else 1
  }

  lemma XorNibble(n: nat, a: nat, b: nat)
    ensures Xor(n + 4, a, b) ==
            Differ(a, b) + 2 * Differ(a / 2, b / 2) + 4 * Differ(a / 4, b / 4) + 8 * Differ(a / 8, b / 8)
            + 16 * Xor(n, a / 16, b / 16)
  {
    hide Xor, Differ;
    XorUnfold(n + 3, a, b);
    XorUnfold(n + 2, a / 2, b / 2);
    XorUnfold(n + 1, a / 4, b / 4);
    XorUnfold(n, a / 8, b / 8);
  }

  /** The exclusive or with a byte, digit by digit. */
  lemma XorByte(a: uint32, b: byte)
    ensures var (c, d) := (a / 16, b / 16);
            Xor32(a, b) ==
            Differ(a, b) + 2 * Differ(a / 2, b / 2) + 4 * Differ(a / 4, b / 4) + 8 * Differ(a / 8, b / 8)
            + 16 * Differ(c, d) + 32 * Differ(c / 2, d / 2) + 64 * Differ(c / 4, d / 4) + 128 * Differ(c / 8, d / 8)
            + 256 * (a / 256)
  {
    hide Xor, Differ;
    var low: nat, high: nat := 28, 24;
    XorNibble(low, a, b);
    XorNibble(high, a / 16, b / 16);
    assert Pow2(high) == 0x100_0000 by { assert Pow2(8) == 0x100 && Pow2(16) == 0x1_0000; }
    XorZero(high, a / 256);
  }

  lemma StepIs(hash: uint32, b: byte, flipped: uint32, r: uint32)
    requires var (c, d) := (hash / 16, b / 16);
             flipped ==
             Differ(hash, b) + 2 * Differ(hash / 2, b / 2) + 4 * Differ(hash / 4, b / 4) + 8 * Differ(hash / 8, b / 8)
             + 16 * Differ(c, d) + 32 * Differ(c / 2, d / 2) + 64 * Differ(c / 4, d / 4) + 128 * Differ(c / 8, d / 8)
             + 256 * (hash / 256)
    requires flipped * 16777619 % TWO_32 == r
    ensures FnvStep(hash, b) == r
  {
    hide Differ;
    XorByte(hash, b);
  }

  lemma FnvEmpty(hash: uint32)
    ensures Fnv(hash, []) == hash
  {
  }

  /** The hashes published for 32-bit FNV-1a of the empty string, of "a" and of "foobar". */
  lemma PublishedHashes()
    ensures Fnv(OFFSET_BASIS, []) == 0x811c9dc5
    ensures Fnv(OFFSET_BASIS, [0x61]) == 0xe40c292c
    ensures Fnv(OFFSET_BASIS, [0x66, 0x6f, 0x6f, 0x62, 0x61, 0x72]) == 0xbf9cf968
  {
    hide Fnv;
    FnvEmpty(OFFSET_BASIS);
    HashOfA();
    HashOfFoobar();
  }

  lemma HashOfA()
    ensures Fnv(OFFSET_BASIS, [0x61]) == 0xe40c292c
  {
    hide Fnv, FnvStep;
    StepIs(0x811c9dc5, 0x61, 0x811c9da4, 0xe40c292c);
    FnvOne(OFFSET_BASIS, 0x61);
  }

  lemma HashOfFoobar()
    ensures Fnv(OFFSET_BASIS, [0x66, 0x6f, 0x6f, 0x62, 0x61, 0x72]) == 0xbf9cf968
  {
    hide Fnv, FnvStep;
    StepIs(0x811c9dc5, 0x66, 0x811c9da3, 0xe30c2799);
    StepIs(0xe30c2799, 0x6f, 0xe30c27f6, 0x6222e842);
    StepIs(0x6222e842, 0x6f, 0x6222e82d, 0xa9f37ed7);
    StepIs(0xa9f37ed7, 0x62, 0xa9f37eb5, 0x3f5076ef);
    StepIs(0x3f5076ef, 0x61, 0x3f50768e, 0x39aaa18a);
    StepIs(0x39aaa18a, 0x72, 0x39aaa1f8, 0xbf9cf968);
    FnvOne(0x39aaa18a, 0x72);
    FnvHead(0x3f5076ef, 0x61, [0x72]);
    FnvHead(0xa9f37ed7, 0x62, [0x61, 0x72]);
    FnvHead(0x6222e842, 0x6f, [0x62, 0x61, 0x72]);
    FnvHead(0xe30c2799, 0x6f, [0x6f, 0x62, 0x61, 0x72]);
    FnvHead(OFFSET_BASIS, 0x66, [0x6f, 0x6f, 0x62, 0x61, 0x72]);
    assert [0x66] + [0x6f, 0x6f, 0x62, 0x61, 0x72] == [0x66, 0x6f, 0x6f, 0x62, 0x61, 0x72];
    assert [0x6f] + [0x6f, 0x62, 0x61, 0x72] == [0x6f, 0x6f, 0x62, 0x61, 0x72];
    assert [0x6f] + [0x62, 0x61, 0x72] == [0x6f, 0x62, 0x61, 0x72];
    assert [0x62] + [0x61, 0x72] == [0x62, 0x61, 0x72];
    assert [0x61] + [0x72] == [0x61, 0x72];
  }

  /** Undoes one step; 899433627 inverts the FNV prime modulo 2^32. */
  function UnStep(hash: uint32, b: byte): uint32 {
    Xor32(hash * 899433627 % TWO_32, b)
  }

  /** Runs the hash backwards over the bytes it absorbed. */
  function Unhash(hash: uint32, data: Bytes): uint32 {
    if data == [] then hash else UnStep(Unhash(hash, data[1..]), data[0])
  }

  lemma PrimeIsInvertible(x: uint32)
    ensures x * 16777619 % TWO_32 * 899433627 % TWO_32 == x
  {
    var q, r := x * 16777619 / TWO_32, x * 16777619 % TWO_32;
    assert r * 899433627 == x + TWO_32 * (x * 3513497 - q * 899433627);
  }

  lemma UnStepInverts(hash: uint32, b: byte)
    ensures UnStep(FnvStep(hash, b), b) == hash
  {
    PrimeIsInvertible(Xor32(hash, b));
    WordWidth();
    XorCancels(32, hash, b);
  }

  /** Each step, hence the whole hash, is a bijection of the 32-bit state. */
  lemma {:induction false} UnhashInverts(hash: uint32, data: Bytes)
    ensures Unhash(Fnv(hash, data), data) == hash
    decreases |data|
  {
    if data != [] {
      UnStepInverts(hash, data[0]);
      UnhashInverts(FnvStep(hash, data[0]), data[1..]);
    }
  }

  lemma {:induction false} FnvConcat(hash: uint32, a: Bytes, b: Bytes)
    ensures Fnv(hash, a + b) == Fnv(Fnv(hash, a), b)
    decreases |a|
  {
    if a == [] {
      assert a + b == b;
    } else {
      assert (a + b)[1..] == a[1..] + b;
      FnvConcat(FnvStep(hash, a[0]), a[1..], b);
    }
  }

  lemma {:induction false} XorCommutes(n: nat, a: nat, b: nat)
    ensures Xor(n, a, b) == Xor(n, b, a)
  {
    if n > 0 {
      XorCommutes(n - 1, a / 2, b / 2);
    }
  }

  lemma StepSeparatesBytes(hash: uint32, x: byte, y: byte)
    requires FnvStep(hash, x) == FnvStep(hash, y)
    ensures x == y
  {
    PrimeIsInvertible(Xor32(hash, x));
    PrimeIsInvertible(Xor32(hash, y));
    WordWidth();
    XorCommutes(32, hash, x);
    XorCommutes(32, hash, y);
    XorCancels(32, x, hash);
    XorCancels(32, y, hash);
  }

  /** Keys of equal length that differ in exactly one byte never collide. */
  lemma OneByteApartNeverCollide(before: Bytes, x: byte, y: byte, after: Bytes)
    requires x != y
    ensures Fnv(OFFSET_BASIS, before + [x] + after) != Fnv(OFFSET_BASIS, before + [y] + after)
  {
    var h := Fnv(OFFSET_BASIS, before);
    forall b: byte ensures Fnv(OFFSET_BASIS, before + [b] + after) == Fnv(FnvStep(h, b), after) {
      FnvConcat(OFFSET_BASIS, before + [b], after);
      FnvConcat(OFFSET_BASIS, before, [b]);
      assert Fnv(h, [b]) == Fnv(FnvStep(h, b), [b][1..]);
    }
    if Fnv(FnvStep(h, x), after) == Fnv(FnvStep(h, y), after) {
      UnhashInverts(FnvStep(h, x), after);
      UnhashInverts(FnvStep(h, y), after);
      StepSeparatesBytes(h, x, y);
    }
  }
}
