// A policy bucket: the keys of one eviction policy in clock order, and the clock hand.
module Buckets {
  import opened Types

  function KeySet(s: seq<Key>): set<Key> {
    set k | k in s
  }

  // No key occurs twice.
  predicate Distinct(s: seq<Key>) {
    |KeySet(s)| == |s|
  }

  predicate PairwiseDistinct(s: seq<Key>) {
    forall i, j :: 0 <= i < j < |s| ==> s[i] != s[j]
  }

  lemma {:induction false} DistinctIsPairwise(s: seq<Key>)
    ensures |KeySet(s)| <= |s|
    ensures Distinct(s) <==> PairwiseDistinct(s)
  {
    if s != [] {
      var last := |s| - 1;
      var t := s[..last];
      DistinctIsPairwise(t);
      assert KeySet(s) == KeySet(t) + {s[last]};
      assert s[last] in t <==> exists i :: 0 <= i < last && s[i] == s[last];
      assert PairwiseDistinct(s) <==> PairwiseDistinct(t) && s[last] !in t;
    }
  }

  function IndexOf(s: seq<Key>, k: Key): (i: nat)
    requires k in s
    ensures i < |s| && s[i] == k
  {
    if s[0] == k then 0 else 1 + IndexOf(s[1..], k)
  }

  // The last key takes the place of the removed one; no other key moves.
  function SwapRemove(s: seq<Key>, i: nat): (t: seq<Key>)
    requires i < |s|
    ensures |t| == |s| - 1
    ensures forall j :: 0 <= j < |t| ==> t[j] == if j == i then s[|s| - 1] else s[j]
  {
    s[i := s[|s| - 1]][..|s| - 1]
  }

  datatype Bucket = Bucket(list: seq<Key>, hand: nat)
  {
    predicate Valid() {
      Distinct(list) && (if list == [] then hand == 0 else hand < |list|)
    }

    // The index that is d steps ahead of the hand; a full turn leads back to the hand.
    function Pos(d: nat): (i: nat)
      requires hand < |list| && d <= |list|
      ensures i < |list|
    {
      if hand + d < |list| then hand + d else hand + d - |list|
    }

    function At(d: nat): (k: Key)
      requires hand < |list| && d <= |list|
      ensures k in list
    {
      list[Pos(d)]
    }

    // The keys at the first d steps from the hand.
    function Passed(d: nat): set<Key>
      requires hand < |list| && d <= |list|
    {
      if d == 0 then {} else Passed(d - 1) + {At(d - 1)}
    }

    function Inserted(k: Key): Bucket {
      var keys := if k in list then list else list + [k];
      Bucket(keys, if hand >= |keys| && keys != [] then 0 else hand)
    }

    function Removed(k: Key): Bucket {
      if k !in list then this
      else
        var i := IndexOf(list, k);
        var last := |list| - 1;
        Bucket(SwapRemove(list, i),
               if last == 0 then 0
               else if hand == last && i != last then i
               else if hand >= last then 0
               else hand)
    }
  }

  const EMPTY_BUCKET := Bucket([], 0)

  lemma StepsAreDifferent(b: Bucket, i: nat, j: nat)
    requires b.Valid() && i < j < |b.list|
    ensures b.At(i) != b.At(j)
  {
    DistinctIsPairwise(b.list);
  }

  lemma {:induction false} NotYetPassed(b: Bucket, d: nat, j: nat)
    requires b.Valid() && d <= j < |b.list|
    ensures b.At(j) !in b.Passed(d)
  {
    if d > 0 {
      NotYetPassed(b, d - 1, j);
      StepsAreDifferent(b, d - 1, j);
    }
  }

  lemma {:induction false} PassedAt(b: Bucket, d: nat, j: nat)
    requires b.Valid() && b.list != [] && j < d <= |b.list|
    ensures b.At(j) in b.Passed(d)
  {
    if j < d - 1 {
      PassedAt(b, d - 1, j);
    }
  }

  // A key is passed exactly if it is at one of the steps taken.
  lemma {:induction false} PassedOnlyAt(b: Bucket, d: nat, k: Key)
    requires b.Valid() && b.list != [] && d <= |b.list|
    ensures k in b.Passed(d) <==> exists j :: 0 <= j < d && b.At(j) == k
  {
    if d > 0 {
      PassedOnlyAt(b, d - 1, k);
      if k == b.At(d - 1) {
        assert b.At(d - 1) == k;
      }
    }
  }

  // A full turn passes every key.
  lemma FullTurn(b: Bucket, k: Key)
    requires b.Valid() && k in b.list
    ensures k in b.Passed(|b.list|)
  {
    var i := IndexOf(b.list, k);
    PassedAt(b, |b.list|, if b.hand <= i then i - b.hand else i + |b.list| - b.hand);
  }

  lemma InsertedKeeps(b: Bucket, k: Key)
    requires b.Valid()
    ensures b.Inserted(k).Valid()
    ensures forall x :: x in b.Inserted(k).list <==> x in b.list || x == k
    ensures b.list != [] ==> b.Inserted(k).At(0) == b.At(0)
  {
    DistinctIsPairwise(b.list);
    DistinctIsPairwise(b.Inserted(k).list);
  }

  lemma RemovedKeeps(b: Bucket, k: Key)
    requires b.Valid()
    ensures b.Removed(k).Valid()
    ensures forall x :: x in b.Removed(k).list <==> x in b.list && x != k
    ensures |b.Removed(k).list| == |b.list| - if k in b.list then 1 else 0
    ensures b.list != [] && k != b.At(0) ==> b.Removed(k).list != [] && b.Removed(k).At(0) == b.At(0)
  {
    var c := b.Removed(k);
    DistinctIsPairwise(b.list);
    DistinctIsPairwise(c.list);
    if k in b.list {
      var i := IndexOf(b.list, k);
      forall x | x in b.list && x != k
        ensures x in c.list
      {
        var j := IndexOf(b.list, x);
        assert c.list[if j == |b.list| - 1 then i else j] == x;
      }
    }
  }

  // A new key goes to the end, and nothing else changes; a key that is there stays where it is.
  lemma InsertionAppends(b: Bucket, k: Key)
    requires b.Valid()
    ensures k !in b.list ==> b.Inserted(k).list == b.list + [k] && b.Inserted(k).hand == b.hand
    ensures k in b.list ==> b.Inserted(k) == b
  {
  }

  lemma IndexIsUnique(b: Bucket, k: Key, i: nat)
    requires b.Valid() && i < |b.list| && b.list[i] == k
    ensures IndexOf(b.list, k) == i
  {
    DistinctIsPairwise(b.list);
  }

  // What a removal does slot by slot: the last key takes the vacated slot, all others stay; the
  // hand follows the last key if it was on it, wraps if it was on the removed one at the end,
  // and stays on its slot otherwise.
  lemma RemovalSwaps(b: Bucket, k: Key, i: nat)
    requires b.Valid() && i < |b.list| && b.list[i] == k
    ensures var last := |b.list| - 1;
            var c := b.Removed(k);
            && |c.list| == last
            && (forall j :: 0 <= j < last ==> c.list[j] == if j == i then b.list[last] else b.list[j])
            && (last == 0 ==> c.hand == 0)
            && (last > 0 && b.hand == last && i != last ==> c.hand == i)
            && (last > 0 && b.hand == last && i == last ==> c.hand == 0)
            && (b.hand < last ==> c.hand == b.hand)
    ensures Vacated(b, i, b.Removed(k))
  {
    IndexIsUnique(b, k, i);
  }

  // c is b with slot i vacated, as above.
  ghost predicate Vacated(b: Bucket, i: nat, c: Bucket)
    requires i < |b.list|
  {
    var last := |b.list| - 1;
    && |c.list| == last
    && (forall j :: 0 <= j < last ==> c.list[j] == if j == i then b.list[last] else b.list[j])
    && c.hand == if b.hand < last then b.hand else if i < last then i else 0
  }

  // What the cache does to a bucket between two sweeps.
  datatype BucketOp = InsertKey(key: Key) | RemoveKey(key: Key)

  function ApplyOp(b: Bucket, op: BucketOp): Bucket {
    match op
    case InsertKey(k) => b.Inserted(k)
    case RemoveKey(k) => b.Removed(k)
  }

  function RunOps(b: Bucket, ops: seq<BucketOp>): Bucket
    decreases |ops|
  {
    if ops == [] then b else RunOps(ApplyOp(b, ops[0]), ops[1..])
  }

  // Through any inserts and removes the hand stays in range and on the same key,
  // until that key is itself removed.
  lemma {:induction false} HandStaysOnKey(b: Bucket, ops: seq<BucketOp>)
    requires b.Valid()
    ensures RunOps(b, ops).Valid()
    ensures b.list != [] && RemoveKey(b.At(0)) !in ops ==>
              RunOps(b, ops).list != [] && RunOps(b, ops).At(0) == b.At(0)
    decreases |ops|
  {
    if ops != [] {
      InsertedKeeps(b, ops[0].key);
      RemovedKeeps(b, ops[0].key);
      HandStaysOnKey(ApplyOp(b, ops[0]), ops[1..]);
    }
  }

  // Removing the key under the hand puts the hand on the key that was last,
  // or on the first one if the removed key was itself the last.
  lemma HandAfterItsKeyGoes(b: Bucket)
    requires b.Valid() && |b.list| > 1
    ensures var last := |b.list| - 1;
            var c := b.Removed(b.At(0));
            if b.hand == last then c.hand == 0 && c.At(0) == b.list[0]
            else c.hand == b.hand && c.At(0) == b.list[last]
  {
    DistinctIsPairwise(b.list);
    assert IndexOf(b.list, b.At(0)) == b.hand;
  }

  class PolicyBucket {
    // A number of the bucket's own, which tells it from all other buckets of a cache.
    ghost const id: nat
    var list: seq<Key>
    var hand: nat

    function State(): Bucket
      reads this
    {
      Bucket(list, hand)
    }

    constructor (ghost id: nat)
      ensures this.id == id && State() == EMPTY_BUCKET
    {
      this.id := id;
      list := [];
      hand := 0;
    }

    method Insert(key: Key)
      modifies this
      ensures State() == old(State()).Inserted(key)
    {
      if key !in list {
        list := list + [key];
      }
      if hand >= |list| && list != [] {
        hand := 0;
      }
    }

    method Remove(key: Key) returns (found: bool)
      modifies this
      ensures State() == old(State()).Removed(key)
      ensures found == (key in old(list))
    {
      var oldLen := |list|;
      found := key in list;
      if found {
        var removedIdx := IndexOf(list, key);
        list := SwapRemove(list, removedIdx);
        var newLen := |list|;
        if newLen == 0 {
          hand := 0;
        } else if hand == oldLen - 1 && removedIdx != oldLen - 1 {
          hand := removedIdx;
        } else if hand >= newLen {
          hand := 0;
        }
      }
    }

    method Clear()
      modifies this
      ensures State() == EMPTY_BUCKET
    {
      list := [];
      hand := 0;
    }
  }
}
