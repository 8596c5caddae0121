// How many shards a cache gets, how many bytes each of them gets, and which one a hash selects.
module Sharding {
  import opened Types

  const MIN_SHARD_SIZE: int := 4096
  const DEFAULT_SHARD_COUNT: int := 64

  function Min(a: int, b: int): int {
    if a < b then a else b
  }

  function Max(a: int, b: int): int {
    if a < b then b else a
  }

  function Pow2(k: nat): (p: nat)
    ensures p >= 1
  {
    if k == 0 then 1 else 2 * Pow2(k - 1)
  }

  ghost predicate IsPowerOfTwo(n: int) {
    exists k: nat :: n == Pow2(k)
  }

  // Doubles p until it reaches n.
  function DoubledTo(n: nat, p: nat): nat
    requires p >= 1
    decreases n - p
  {
    if p >= n then p else DoubledTo(n, 2 * p)
  }

  function NextPowerOfTwo(n: nat): nat {
    DoubledTo(n, 1)
  }

  function ComputeShardCount(capacity: U64, desiredShards: U64): nat {
    var maxShards := Max(capacity / MIN_SHARD_SIZE, 1);
    Max(NextPowerOfTwo(Min(desiredShards, maxShards)), 1)
  }

  // ----- the shard count -----

  lemma {:induction false} Pow2Monotone(j: nat, k: nat)
    requires j <= k
    ensures Pow2(j) <= Pow2(k)
    ensures j < k ==> 2 * Pow2(j) <= Pow2(k)
  {
    if j < k {
      Pow2Monotone(j, k - 1);
    }
  }

  lemma {:induction false} DoubledToIsLeast(n: nat, k: nat)
    requires Pow2(k) < n || k == 0
    ensures var r := DoubledTo(n, Pow2(k));
            && IsPowerOfTwo(r) && n <= r
            && (n >= 1 ==> r < 2 * n)
            && (forall j: nat :: n <= Pow2(j) ==> r <= Pow2(j))
    decreases n - Pow2(k)
  {
    if Pow2(k) < n {
      if Pow2(k + 1) < n {
        DoubledToIsLeast(n, k + 1);
      } else {
        assert DoubledTo(n, Pow2(k)) == Pow2(k + 1);
        forall j: nat | n <= Pow2(j)
          ensures Pow2(k + 1) <= Pow2(j)
        {
          if j <= k {
            Pow2Monotone(j, k);
          } else {
            Pow2Monotone(k + 1, j);
          }
        }
      }
    } else {
      assert DoubledTo(n, Pow2(k)) == Pow2(0);
    }
  }

  // The count is the least power of two that is not below what is asked for and affordable.
  // That stays below twice as much, so rounding up cannot leave 64 bits.
  lemma ShardCountIsLeastPowerOfTwo(capacity: U64, desired: U64)
    ensures var n := Min(desired, Max(capacity / MIN_SHARD_SIZE, 1));
            var count := ComputeShardCount(capacity, desired);
            && IsPowerOfTwo(count) && n <= count
            && (forall j: nat :: n <= Pow2(j) ==> count <= Pow2(j))
            && (if n == 0 then count == 1 else count < 2 * n)
            && 2 * count < TWO_64
  {
    var n := Min(desired, Max(capacity / MIN_SHARD_SIZE, 1));
    DoubledToIsLeast(n, 0);
    assert Pow2(0) == 1;
    assert capacity / MIN_SHARD_SIZE <= TWO_64 / MIN_SHARD_SIZE;
  }

  // ----- the bytes of one shard -----

  lemma ProductGrows(a: int, b: int, n: int)
    requires a <= b && n >= 0
    ensures a * n <= b * n
  {
  }

  lemma QuotientAtLeast(a: int, b: int, q: int)
    requires b > 0
    ensures a / b >= q <==> a >= q * b
  {
    var d := a / b;
    assert d * b <= a < (d + 1) * b;
    if d < q {
      ProductGrows(d + 1, q, b);
    } else {
      ProductGrows(q, d, b);
    }
  }

  // What a cache that can afford one shard of 4096 bytes really guarantees per shard.
  lemma ShardBytes(capacity: U64, desired: U64)
    requires capacity >= MIN_SHARD_SIZE
    ensures capacity / ComputeShardCount(capacity, desired) >= 2048
  {
    ShardCountIsLeastPowerOfTwo(capacity, desired);
    var count := ComputeShardCount(capacity, desired);
    assert 2048 * count <= capacity;
    QuotientAtLeast(capacity, count, 2048);
  }

  // The documented 4096 bytes per shard hold exactly if the capacity affords one such shard
  // and there is a power of two from the number asked for, if affordable, to the number affordable.
  lemma DocumentedShardBytes(capacity: U64, desired: U64)
    ensures capacity / ComputeShardCount(capacity, desired) >= MIN_SHARD_SIZE <==>
            && capacity >= MIN_SHARD_SIZE
            && exists j: nat :: Min(desired, capacity / MIN_SHARD_SIZE) <= Pow2(j) <= capacity / MIN_SHARD_SIZE
  {
    ShardCountIsLeastPowerOfTwo(capacity, desired);
    var count := ComputeShardCount(capacity, desired);
    QuotientAtLeast(capacity, count, MIN_SHARD_SIZE);
    QuotientAtLeast(capacity, MIN_SHARD_SIZE, count);
    if count <= capacity / MIN_SHARD_SIZE {
      var k: nat :| count == Pow2(k);
      assert Min(desired, capacity / MIN_SHARD_SIZE) <= Pow2(k) <= capacity / MIN_SHARD_SIZE;
    }
  }

  // A default cache of 12288 bytes: three shards are affordable, four are made.
  lemma DocumentedShardBytesFail()
    ensures ComputeShardCount(12288, DEFAULT_SHARD_COUNT) == 4
    ensures 12288 / ComputeShardCount(12288, DEFAULT_SHARD_COUNT) == 3072
  {
    assert NextPowerOfTwo(3) == DoubledTo(3, 2) == DoubledTo(3, 4) == 4;
  }

  // The default 64 shards are what a cache gets exactly from 132 KB on: rounding up makes them
  // affordable long before the documented 256 KB.
  lemma DefaultShards(capacity: U64)
    ensures ComputeShardCount(capacity, DEFAULT_SHARD_COUNT) == 64 <==> capacity >= 135168
  {
    ShardCountIsLeastPowerOfTwo(capacity, 64);
    assert Pow2(0) == 1 && Pow2(1) == 2 && Pow2(2) == 4 && Pow2(3) == 8 && Pow2(4) == 16 && Pow2(5) == 32;
    assert Pow2(6) == 64;
    if capacity >= 135168 {
      var k: nat :| ComputeShardCount(capacity, 64) == Pow2(k);
      if k <= 5 {
        Pow2Monotone(k, 5);
      } else {
        Pow2Monotone(6, k);
      }
    }
  }

  // ----- the shard of a hash -----

  function BitAnd(a: nat, b: nat): (r: nat)
    ensures r <= b
    decreases a
  {
    if a == 0 || b == 0 then 0 else (a % 2) * (b % 2) + 2 * BitAnd(a / 2, b / 2)
  }

  function ShardIndex(hash: U64, shardCount: nat): (i: nat)
    requires shardCount >= 1
    ensures i < shardCount
  {
    BitAnd(hash, shardCount - 1)
  }

  lemma RemainderIs(x: int, n: int, q: int, r: int)
    requires n > 0 && x == q * n + r && 0 <= r < n
    ensures x % n == r
  {
    var d := x / n;
    assert d * n <= x < (d + 1) * n && x % n == x - d * n;
    if d < q {
      ProductGrows(d + 1, q, n);
    } else if q < d {
      ProductGrows(q + 1, d, n);
    }
  }

  lemma RemainderOfDouble(h: nat, p: nat, n: nat)
    requires p >= 1 && n == 2 * p
    ensures h % n == h % 2 + 2 * ((h / 2) % p)
  {
    var q, r := (h / 2) / p, (h / 2) % p;
    assert h / 2 == q * p + r;
    assert h == 2 * (h / 2) + h % 2;
    assert q * n == 2 * (q * p);
    RemainderIs(h, n, q, 2 * r + h % 2);
  }

  lemma MaskStep(h: nat, mask: nat, rest: nat)
    requires mask == 2 * rest + 1
    ensures BitAnd(h, mask) == h % 2 + 2 * BitAnd(h / 2, rest)
  {
    assert mask % 2 == 1 && mask / 2 == rest;
  }

  lemma MaskOfDouble(h: nat, p: nat, n: nat, r: nat)
    requires p >= 1 && n == 2 * p && BitAnd(h / 2, p - 1) == r && r == (h / 2) % p
    ensures BitAnd(h, n - 1) == h % n
  {
    MaskStep(h, n - 1, p - 1);
    RemainderOfDouble(h, p, n);
  }

  // Masking with a power of two less one is the remainder.
  lemma {:induction false} MaskIsRemainder(h: nat, k: nat, n: nat)
    requires n == Pow2(k)
    ensures BitAnd(h, n - 1) == h % n
    decreases k
  {
    if k == 0 {
      RemainderIs(h, 1, h, 0);
    } else {
      var p := Pow2(k - 1);
      MaskIsRemainder(h / 2, k - 1, p);
      MaskOfDouble(h, p, n, (h / 2) % p);
    }
  }

  lemma ShardIndexIsRemainder(hash: U64, capacity: U64, desired: U64)
    ensures var count := ComputeShardCount(capacity, desired);
            ShardIndex(hash, count) == hash % count
  {
    ShardCountIsLeastPowerOfTwo(capacity, desired);
    var count := ComputeShardCount(capacity, desired);
    var k: nat :| count == Pow2(k);
    MaskIsRemainder(hash, k, count);
  }
}
