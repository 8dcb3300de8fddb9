/** Sharding by Fibonacci hashing and multiply-shift range reduction
    (src/calinix/cache_registry/fibonacci.rs, src/base/indexer.rs). */
module Fibonacci {
  import opened Integers
  import opened Sets

  const TWO_TO_THE_56: int := 0x100_0000_0000_0000
  const FIBONACCI: int := 0x9E37_79B9_7F4A_7C15
  const DEFAULT_SHARD_COUNT: nat := 256

  /** The multiplicative inverse of FIBONACCI modulo 2^64; it exists because FIBONACCI is odd. */
  const FIBONACCI_INVERSE: int := 0xF1DE_83E1_9937_733D

  /** `hash.wrapping_mul(FIBONACCI)` */
  function Mix(hash: u64): u64 {
    (hash * FIBONACCI) % TWO_TO_THE_64
  }

  /** `shard_for_fibonacci_with_count`, the u128 product shifted down by 64 bits. */
  function ShardFor(hash: u64, shardCount: nat): (shard: nat)
    ensures shard < if shardCount == 0 then 1 else shardCount
  {
    var count := if shardCount == 0 then 1 else shardCount;
    ReducedBelow(Mix(hash), count);
    (Mix(hash) * count) / TWO_TO_THE_64
  }

  lemma ReducedBelow(mixed: u64, count: nat)
    requires count > 0
    ensures 0 <= (mixed * count) / TWO_TO_THE_64 < count
  {
    MulCancels(mixed, TWO_TO_THE_64, count);
    DivBelow(mixed * count, count);
  }

  lemma DivBelow(x: nat, count: nat)
    requires x < TWO_TO_THE_64 * count
    ensures x / TWO_TO_THE_64 < count
  {
  }

  /** The earlier `shard_for_fibonacci`: the top 8 bits of the mixed hash, `>> (64 - 8)`. */
  function ShardForTopBits(hash: u64): nat {
    Mix(hash) / TWO_TO_THE_56
  }

  lemma ShardsAgree(hash: u64)
    ensures ShardFor(hash, DEFAULT_SHARD_COUNT) == ShardForTopBits(hash)
  {
  }

  /** The multiplier is 2^64 over the golden ratio rounded down, the positive root of
      x * x + 2^64 * x = 2^128, and the shard is the whole part of count * mixed / 2^64. */
  lemma ShardIs(hash: u64, shardCount: nat, shard: nat)
    ensures FIBONACCI * (FIBONACCI + TWO_TO_THE_64) <= TWO_TO_THE_64 * TWO_TO_THE_64
      < (FIBONACCI + 1) * (FIBONACCI + 1 + TWO_TO_THE_64)
    ensures ShardFor(hash, shardCount) == shard <==>
      var scaled := ((hash * FIBONACCI) % TWO_TO_THE_64) * if shardCount == 0 then 1 else shardCount;
      shard * TWO_TO_THE_64 <= scaled < (shard + 1) * TWO_TO_THE_64
  {
    var count := if shardCount == 0 then 1 else shardCount;
    FirstMixedIsCeil(Mix(hash), shard, count);
    FirstMixedIsCeil(Mix(hash), shard + 1, count);
  }

  function Unmix(mixed: u64): u64 {
    (mixed * FIBONACCI_INVERSE) % TWO_TO_THE_64
  }

  lemma MulMod(x: int, y: int, c: int)
    requires y == x % TWO_TO_THE_64
    ensures (y * c) % TWO_TO_THE_64 == (x * c) % TWO_TO_THE_64
  {
    var q := x / TWO_TO_THE_64;
    assert x == q * TWO_TO_THE_64 + y;
    assert x * c == (q * c) * TWO_TO_THE_64 + y * c;
    AddMultiple(y * c, q * c);
  }

  lemma AddMultiple(x: int, k: int)
    ensures (x + k * TWO_TO_THE_64) % TWO_TO_THE_64 == x % TWO_TO_THE_64
  {
  }

  /** Mixing loses nothing: it is a bijection on 64-bit hashes. */
  lemma MixBijective(x: u64)
    ensures Unmix(Mix(x)) == x
    ensures Mix(Unmix(x)) == x
  {
    MulMod(x * FIBONACCI, Mix(x), FIBONACCI_INVERSE);
    MulMod(x * FIBONACCI_INVERSE, Unmix(x), FIBONACCI);
    var q := (FIBONACCI * FIBONACCI_INVERSE) / TWO_TO_THE_64;
    assert FIBONACCI * FIBONACCI_INVERSE == q * TWO_TO_THE_64 + 1;
    assert x * FIBONACCI * FIBONACCI_INVERSE == x + (x * q) * TWO_TO_THE_64;
    assert x * FIBONACCI_INVERSE * FIBONACCI == x + (x * q) * TWO_TO_THE_64;
    AddMultiple(x, x * q);
  }

  /** The hashes that fall into one shard. */
  ghost function HashesIn(shard: nat, shardCount: nat): set<int> {
    set h: int | 0 <= h < TWO_TO_THE_64 && ShardFor(h, shardCount) == shard
  }

  /** The least mixed value that reaches `shard`: ceil(shard * 2^64 / count). */
  function FirstMixed(shard: nat, count: nat): nat
    requires count > 0
  {
    (shard * TWO_TO_THE_64 + count - 1) / count
  }

  lemma ShardByInterval(mixed: u64, shard: nat, count: nat)
    requires count > 0
    ensures (mixed * count) / TWO_TO_THE_64 == shard
      <==> FirstMixed(shard, count) <= mixed < FirstMixed(shard + 1, count)
  {
    FirstMixedIsCeil(mixed, shard, count);
    FirstMixedIsCeil(mixed, shard + 1, count);
  }

  lemma FirstMixedIsCeil(mixed: nat, shard: nat, count: nat)
    requires count > 0
    ensures FirstMixed(shard, count) <= mixed <==> shard * TWO_TO_THE_64 <= mixed * count
    ensures shard * TWO_TO_THE_64 <= mixed * count <==> shard <= (mixed * count) / TWO_TO_THE_64
  {
    var c := FirstMixed(shard, count);
    var n := shard * TWO_TO_THE_64 + count - 1;
    assert c * count <= n < c * count + count;
    MulCancels(mixed, c, count);
    MulCancels(c - 1, mixed, count);
    assert (c - 1) * count == c * count - count;
  }

  lemma InShard(hash: u64, shard: nat, count: nat)
    requires count > 0
    ensures ShardFor(hash, count) == shard
      <==> Between(FirstMixed(shard, count), Mix(hash), FirstMixed(shard + 1, count))
  {
    ShardByInterval(Mix(hash), shard, count);
  }

  /** Over the whole hash space every shard receives floor or ceiling of 2^64 / count hashes. */
  lemma ShardsBalanced(shard: nat, count: nat)
    requires shard < count
    ensures |HashesIn(shard, count)| == FirstMixed(shard + 1, count) - FirstMixed(shard, count)
    ensures TWO_TO_THE_64 / count <= |HashesIn(shard, count)| <= (TWO_TO_THE_64 + count - 1) / count
  {
    hide ShardFor, Mix, Unmix, FirstMixed, HashesIn;
    IntervalEnds(shard, count);
    HashesFillInterval(shard, count);
  }

  /** Mixing matches the hashes of a shard with an interval of mixed values. */
  lemma HashesFillInterval(shard: nat, count: nat)
    requires shard < count && FirstMixed(shard, count) <= FirstMixed(shard + 1, count) <= TWO_TO_THE_64
    ensures |HashesIn(shard, count)| == FirstMixed(shard + 1, count) - FirstMixed(shard, count)
  {
    hide ShardFor, Mix, Unmix, FirstMixed;
    var lo, hi := FirstMixed(shard, count), FirstMixed(shard + 1, count);
    var mix := (h: int) => if 0 <= h < TWO_TO_THE_64 then Mix(h) else 0;
    var unmix := (m: int) => if 0 <= m < TWO_TO_THE_64 then Unmix(m) else 0;
    forall h | h in HashesIn(shard, count) ensures mix(h) in Interval(lo, hi) && unmix(mix(h)) == h {
      InShard(h, shard, count);
      MixBijective(h);
    }
    forall m | m in Interval(lo, hi) ensures unmix(m) in HashesIn(shard, count) && mix(unmix(m)) == m {
      MixBijective(m);
      InShard(Unmix(m), shard, count);
    }
    SameSize(HashesIn(shard, count), Interval(lo, hi), mix, unmix);
    IntervalSize(lo, hi);
  }

  lemma IntervalEnds(shard: nat, count: nat)
    requires shard < count
    ensures FirstMixed(shard + 1, count) <= TWO_TO_THE_64
    ensures TWO_TO_THE_64 / count
      <= FirstMixed(shard + 1, count) - FirstMixed(shard, count)
      <= (TWO_TO_THE_64 + count - 1) / count
  {
    var a, b := shard * TWO_TO_THE_64 + count - 1, TWO_TO_THE_64;
    assert (shard + 1) * TWO_TO_THE_64 + count - 1 == a + b;
    DivSum(a, b, count);
    assert (shard + 1) * TWO_TO_THE_64 <= count * TWO_TO_THE_64;
    FirstMixedIsCeil(TWO_TO_THE_64, shard + 1, count);
  }

  /** floor(a / n) + floor(b / n) <= floor((a + b) / n) <= floor(a / n) + ceil(b / n) */
  lemma DivSum(a: nat, b: nat, n: nat)
    requires n > 0
    ensures a / n + b / n <= (a + b) / n <= a / n + (b + n - 1) / n
  {
    var p := Quotient(a, n);
    var q := Quotient(b, n);
    var r := Quotient(a + b, n);
    var t := Quotient(b + n - 1, n);
    QuotientSum(a, b, n, p, q, r, t);
  }

  lemma Quotient(x: nat, n: nat) returns (q: nat)
    requires n > 0
    ensures q == x / n && q * n <= x < q * n + n
  {
    q := x / n;
    DivBounds(x, n);
  }

  lemma QuotientSum(a: nat, b: nat, n: nat, p: nat, q: nat, r: nat, t: nat)
    requires n > 0
    requires p * n <= a < p * n + n && q * n <= b < q * n + n
    requires r * n <= a + b < r * n + n && t * n <= b + n - 1 < t * n + n
    ensures p + q <= r <= p + t
  {
    Expand(p, q, n);
    Expand(r, 1, n);
    MulCancels(p + q, r + 1, n);
    Expand(p, t, n);
    Expand(p + t, 1, n);
    MulCancels(r, p + t + 1, n);
  }

  lemma DivBounds(x: nat, n: nat)
    requires n > 0
    ensures (x / n) * n <= x < (x / n) * n + n
  {
  }

  lemma Expand(x: int, y: int, n: int)
    ensures (x + y) * n == x * n + y * n
  {
  }
}
