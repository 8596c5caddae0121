// How far up the priorities an insert reaches. A new entry of any policy, even a volatile one,
// evicts entries of high priority, but only if it has to: exactly if it does not fit beside
// them with everything of lower priority gone.
module Priorities {
  import opened Types
  import opened Sums
  import opened Buckets
  import opened ShardModel
  import opened Sweeps
  import opened Evictions
  import opened ShardLaws

  // The keys of priority q or higher (a lower index is evicted later), those in `out` excepted.
  function Top(s: ShardState, q: nat, out: set<Key>): set<Key> {
    set k | k in s.entries && k !in out && s.entries[k].core.policy.Index() <= q
  }

  ghost function TopBytes(s: ShardState, q: nat, out: set<Key>): int {
    Sum(Top(s, q, out), Sizes(s.entries))
  }

  predicate Touches(ev: seq<Evicted>, q: nat) {
    exists x :: x in ev && x.entry.core.policy.Index() <= q
  }

  ghost predicate MustReach(s: ShardState, needed: int, q: nat, out: set<Key>) {
    Top(s, q, out) != {} && TopBytes(s, q, out) + needed > s.capacity
  }

  lemma TopIsPartOfAll(s: ShardState, q: nat, out: set<Key>)
    requires s.size == Bytes(s.entries, out)
    ensures TopBytes(s, q, out) <= s.size
    ensures Top(s, q, out) == s.entries.Keys - out ==> TopBytes(s, q, out) == s.size
  {
    var rest := s.entries.Keys - out - Top(s, q, out);
    assert Top(s, q, out) + rest == s.entries.Keys - out;
    SumUnion(Top(s, q, out), rest, Sizes(s.entries));
    SumNonNegative(rest, Sizes(s.entries));
  }

  // Evicting something of lower priority leaves the top as it is.
  lemma TopIsSpared(s: ShardState, p: nat, k: Key, t: ShardState, q: nat, out: set<Key>)
    requires Filed(s) && q < p < 3 && TakenOut(s, p, k, t)
    ensures Top(t, q, out) == Top(s, q, out) && TopBytes(t, q, out) == TopBytes(s, q, out)
  {
    assert s.entries[k].core.policy.Index() == p;
    SumSame(Top(s, q, out), Sizes(s.entries), Sizes(t.entries));
  }

  // With the buckets below p empty, what is left has at least the priority of bucket p.
  lemma AllIsTop(s: ShardState, p: nat, out: set<Key>)
    requires Agrees(s, out) && p < 3
    requires forall i :: p < i < 3 ==> s.buckets[i].list == []
    ensures Top(s, p, out) == s.entries.Keys - out
    ensures s.buckets[p].list == [] ==> (p == 0 || Top(s, p - 1, out) == s.entries.Keys - out)
    ensures s.buckets[p].list == [] && p == 0 ==> s.entries.Keys - out == {}
  {
    forall k | k in s.entries && k !in out
      ensures s.entries[k].core.policy.Index() <= p
      ensures s.buckets[p].list == [] ==> s.entries[k].core.policy.Index() < p
    {
      assert InItsBucket(s, k);
    }
  }

  lemma TopGrows(s: ShardState, p: nat, q: nat, out: set<Key>)
    requires p <= q && Top(s, p, out) == s.entries.Keys - out
    ensures Top(s, q, out) == s.entries.Keys - out
  {
    forall k | k in s.entries.Keys - out
      ensures k in Top(s, q, out)
    {
      assert k in Top(s, p, out);
    }
  }

  lemma TouchesOneMore(first: Evicted, rest: seq<Evicted>, q: nat)
    ensures Touches([first] + rest, q) <==> first.entry.core.policy.Index() <= q || Touches(rest, q)
  {
    assert forall x :: x in [first] + rest <==> x == first || x in rest;
  }

  // A run that starts from s has touched priority q exactly if it had to.
  ghost predicate ReachesIfItMust(r: EvictionRun, s: ShardState, needed: int, q: nat, out: set<Key>) {
    Touches(r.evicted, q) <==> MustReach(s, needed, q, out)
  }

  lemma {:induction false} EvictUntilReaches(s: ShardState, needed: int, p: nat, q: nat, out: set<Key>, r: EvictionRun)
    requires Agrees(s, out) && p < 3 && q < 3 && r == EvictUntil(s, needed, p)
    requires forall i :: p < i < 3 ==> s.buckets[i].list == []
    ensures ReachesIfItMust(r, s, needed, q, out)
    decreases p, |s.buckets[p].list|, 1
  {
    if s.size + needed <= s.capacity {
      NothingMustBe(s, needed, q, out);
    } else if s.buckets[p].list != [] {
      SweepThenReaches(s, needed, p, q, out, r);
    } else {
      NextBucketReaches(s, needed, p, q, out, r);
    }
  }

  lemma {:induction false} NextBucketReaches(s: ShardState, needed: int, p: nat, q: nat, out: set<Key>, r: EvictionRun)
    requires Agrees(s, out) && p < 3 && q < 3 && s.buckets[p].list == []
    requires forall i :: p <= i < 3 ==> s.buckets[i].list == []
    requires s.size + needed > s.capacity
    requires r == if p > 0 then EvictUntil(s, needed, p - 1) else EvictionRun([], s, 0)
    ensures ReachesIfItMust(r, s, needed, q, out)
    decreases p, 0, 0
  {
    if p > 0 {
      EvictUntilReaches(s, needed, p - 1, q, out, r);
    } else {
      NothingIsThere(s, needed, q, out);
    }
  }

  lemma NothingMustBe(s: ShardState, needed: int, q: nat, out: set<Key>)
    requires Agrees(s, out) && s.size + needed <= s.capacity
    ensures ReachesIfItMust(EvictionRun([], s, 0), s, needed, q, out)
  {
    TopIsPartOfAll(s, q, out);
  }

  lemma NothingIsThere(s: ShardState, needed: int, q: nat, out: set<Key>)
    requires Agrees(s, out) && q < 3
    requires forall i :: 0 <= i < 3 ==> s.buckets[i].list == []
    ensures ReachesIfItMust(EvictionRun([], s, 0), s, needed, q, out)
  {
    AllIsTop(s, 0, out);
  }

  lemma {:induction false} SweepThenReaches(s: ShardState, needed: int, p: nat, q: nat, out: set<Key>, r: EvictionRun)
    requires Agrees(s, out) && p < 3 && q < 3 && s.buckets[p].list != []
    requires forall i :: p < i < 3 ==> s.buckets[i].list == []
    requires s.size + needed > s.capacity && r == EvictUntil(s, needed, p)
    ensures ReachesIfItMust(r, s, needed, q, out)
    decreases p, |s.buckets[p].list|, 0
  {
    var e := EvictFrom(s, p);
    EvictFromAgrees(s, p, out);
    var rest := EvictUntil(e.after, needed, p);
    TouchesOneMore(e.victim, rest.evicted, q);
    if p <= q {
      AllIsTop(s, p, out);
      TopGrows(s, p, q, out);
      TopIsPartOfAll(s, q, out);
      assert e.victim.key in Top(s, q, out);
    } else {
      TopIsSpared(s, p, e.victim.key, e.after, q, out);
      EvictUntilReaches(e.after, needed, p, q, out, rest);
    }
  }

  lemma ReachesTop(s: ShardState, k: Key, e: EntryData, q: nat)
    requires Agrees(s, {}) && q < 3
    ensures Touches(Insert(s, k, e).evicted, q) <==>
            Top(s, q, {k}) != {} && TopBytes(s, q, {k}) + e.core.size > s.capacity
  {
    DetachedAgrees(s, k);
    EvictUntilReaches(Detached(s, k), e.core.size, 2, q, {k}, MakeRoom(s, k, e));
    assert Top(Detached(s, k), q, {k}) == Top(s, q, {k});
  }

  // An insert evicts a critical entry exactly if there is one and the new entry does not fit beside
  // all of them; the entry that it replaces does not count.
  lemma InsertReachesCritical(s: ShardState, k: Key, e: EntryData)
    requires Agrees(s, {})
    ensures var critical := set x | x in s.entries && x != k && s.entries[x].core.policy.Critical?;
            (exists x :: x in Insert(s, k, e).evicted && x.entry.core.policy.Critical?) <==>
            critical != {} && Sum(critical, Sizes(s.entries)) + e.core.size > s.capacity
  {
    ReachesTop(s, k, e, 0);
    assert Top(s, 0, {k}) == set x | x in s.entries && x != k && s.entries[x].core.policy.Critical?;
  }

  lemma TouchesStandard(ev: seq<Evicted>)
    ensures Touches(ev, 1) <==> exists x :: x in ev && !x.entry.core.policy.Volatile?
  {
  }

  // It evicts one that is not volatile exactly if there is one and the new entry does not fit
  // beside all of those.
  lemma InsertReachesStandard(s: ShardState, k: Key, e: EntryData)
    requires Agrees(s, {})
    ensures var kept := set x | x in s.entries && x != k && !s.entries[x].core.policy.Volatile?;
            (exists x :: x in Insert(s, k, e).evicted && !x.entry.core.policy.Volatile?) <==>
            kept != {} && Sum(kept, Sizes(s.entries)) + e.core.size > s.capacity
  {
    ReachesTop(s, k, e, 1);
    TouchesStandard(Insert(s, k, e).evicted);
    assert Top(s, 1, {k}) == set x | x in s.entries && x != k && !s.entries[x].core.policy.Volatile?;
  }

  // And it evicts anything exactly if there is anything else and the new entry does not fit beside it.
  lemma InsertReachesAnything(s: ShardState, k: Key, e: EntryData)
    requires Agrees(s, {})
    ensures var others := s.entries.Keys - {k};
            Insert(s, k, e).evicted != [] <==> others != {} && Sum(others, Sizes(s.entries)) + e.core.size > s.capacity
  {
    ReachesTop(s, k, e, 2);
    assert Top(s, 2, {k}) == s.entries.Keys - {k};
    var ev := Insert(s, k, e).evicted;
    assert ev != [] ==> ev[0] in ev;
  }

  lemma OnlyEntry(capacity: nat, k: Key, core: Core) returns (s: ShardState)
    requires core.policy.Critical? && core.size <= capacity
    ensures s == Insert(New(capacity), k, Fresh(core)).after && Agrees(s, {})
    ensures s == ShardState(map[k := Fresh(core)], [Bucket([k], 0), EMPTY_BUCKET, EMPTY_BUCKET], core.size, capacity)
  {
    NewAgrees(capacity);
    InsertAgrees(New(capacity), k, Fresh(core));
    s := Insert(New(capacity), k, Fresh(core)).after;
    assert MakeRoom(New(capacity), k, Fresh(core)).after == New(capacity);
    assert EMPTY_BUCKET.Inserted(k) == Bucket([k], 0);
  }

  // So a volatile entry can evict a critical one, whatever its own priority: here the only
  // other entry there is.
  lemma VolatileEvictsCritical(k: Key, critical: Core, j: Key, volatile: Core, capacity: nat)
    requires critical.policy.Critical? && volatile.policy.Volatile? && j != k
    requires critical.size <= capacity < critical.size + volatile.size
    ensures var s := Insert(New(capacity), k, Fresh(critical)).after;
            Agrees(s, {}) && Insert(s, j, Fresh(volatile)).evicted == [Evicted(k, Fresh(critical))]
  {
    var s := OnlyEntry(capacity, k, critical);
    EmptyBucketsAreSkipped(s, volatile.size, 0, 2);
    AgedByNone(s.entries);
    EvictFromTakesOut(s, 0);
    assert EvictFrom(s, 0).victim == Evicted(k, Fresh(critical));
    assert EvictFrom(s, 0).after.size == 0;
  }
}
