// What the clock does not promise. After an eviction the hand stays where it is and the
// bucket's last key moves under it, so a run of fresh entries can evict each other for ever
// while idle entries elsewhere in the bucket stay: eviction is neither first-in-first-out nor
// sure to reach an idle entry.
module IdleEntries {
  import opened Types
  import opened Buckets
  import opened ShardModel
  import opened Sweeps
  import opened Evictions
  import opened ShardLaws

  datatype FreshEntry = FreshEntry(key: Key, core: Core)

  // An insert of a key that is not resident, with an entry of policy p and of the given size.
  ghost predicate FreshInsert(s: ShardState, e: FreshEntry, t: ShardState, p: nat, size: U64) {
    && Filed(s) && e.key !in s.entries && e.core.policy.Index() == p && e.core.size == size
    && t == ShardModel.Insert(s, e.key, Fresh(e.core)).after
  }

  // A run of fresh inserts, with the states that it goes through.
  ghost predicate FreshRun(states: seq<ShardState>, entries: seq<FreshEntry>, p: nat, size: U64) {
    && |states| == |entries| + 1
    && forall j {:trigger entries[j]} :: 0 <= j < |entries| ==>
         FreshInsert(states[j], entries[j], states[j + 1], p, size)
  }

  // The keys that are gone after insert number j of a run.
  ghost function GoneBy(states: seq<ShardState>, j: nat): set<Key>
    requires j + 1 < |states|
  {
    states[j].entries.Keys - states[j + 1].entries.Keys
  }

  // They are the ones that the insert evicts.
  lemma GoneIsEvicted(s: ShardState, e: FreshEntry, t: ShardState, p: nat, size: U64)
    requires Agrees(s, {}) && FreshInsert(s, e, t, p, size)
    ensures s.entries.Keys - t.entries.Keys == KeysOf(ShardModel.Insert(s, e.key, Fresh(e.core)).evicted)
  {
    var r := ShardModel.Insert(s, e.key, Fresh(e.core));
    InsertConserves(s, e.key, Fresh(e.core));
    assert t.entries.Keys == Cores(t.entries).Keys;
    assert s.entries.Keys == Cores(s.entries).Keys;
  }

  predicate IdleAt(s: ShardState, p: nat, i: nat, size: U64)
    requires Filed(s) && p < 3 && i < |s.buckets[p].list|
  {
    EntryAt(s, p, i).Cold() && EntryAt(s, p, i).core.size == size
  }

  // The shard is full, and the next victim is at the hand of bucket p; there and at the end
  // of the bucket are cold entries of the given size.
  ghost predicate Stuck(s: ShardState, p: nat, size: U64) {
    && Agrees(s, {}) && p < 3
    && (forall q :: p < q < 3 ==> s.buckets[q].list == [])
    && s.buckets[p].hand < |s.buckets[p].list| - 1
    && IdleAt(s, p, s.buckets[p].hand, size)
    && IdleAt(s, p, |s.buckets[p].list| - 1, size)
    && s.size <= s.capacity < s.size + size
  }

  // The eviction such an insert asks for: the entry at the hand, and no other.
  lemma HandIsEvicted(s: ShardState, p: nat, size: U64)
    requires Stuck(s, p, size)
    ensures var b := s.buckets[p];
            var key := KeyAt(s, p, b.hand);
            var r := EvictUntil(s, size, 2);
            && r.evicted == [Evicted(key, s.entries[key])]
            && r.after == ShardState(s.entries - {key}, s.buckets[p := b.Removed(key)], s.size - size, s.capacity)
  {
    EmptyBucketsAreSkipped(s, size, p, 2);
    var e := EvictFrom(s, p);
    AgedByNone(s.entries);
    EvictFromTakesOut(s, p);
    assert EvictUntil(e.after, size, p) == EvictionRun([], e.after, 0);
  }

  // The last key takes the slot under the hand, and the new one the last slot.
  lemma LastKeyMovesUnderHand(b: Bucket, k: Key)
    requires b.Valid() && b.hand < |b.list| - 1 && k !in b.list
    ensures var last := |b.list| - 1;
            b.Removed(b.list[b.hand]).Inserted(k) == Bucket(b.list[b.hand := b.list[last]][last := k], b.hand)
  {
    DistinctIsPairwise(b.list);
    var last := |b.list| - 1;
    var c := b.Removed(b.list[b.hand]);
    assert c.list == b.list[b.hand := b.list[last]][..last];
    assert c.list + [k] == b.list[b.hand := b.list[last]][last := k];
  }

  lemma InsertAtHand(s: ShardState, p: nat, k: Key, core: Core)
    requires Stuck(s, p, core.size) && k !in s.entries && core.policy.Index() == p
    ensures var b := s.buckets[p];
            var key := KeyAt(s, p, b.hand);
            var last := |b.list| - 1;
            var r := ShardModel.Insert(s, k, Fresh(core));
            && r.evicted == [Evicted(key, s.entries[key])]
            && r.after == ShardState(
                 (s.entries - {key})[k := Fresh(core)],
                 s.buckets[p := Bucket(b.list[b.hand := b.list[last]][last := k], b.hand)],
                 s.size, s.capacity)
  {
    HandIsEvicted(s, p, core.size);
    LastKeyMovesUnderHand(s.buckets[p], k);
  }

  // One insert evicts the key at the hand and leaves the shard as stuck as before; the other
  // slots of the bucket are not touched.
  lemma InsertStaysStuck(s: ShardState, p: nat, k: Key, core: Core, i: nat)
    requires Stuck(s, p, core.size) && k !in s.entries && core.policy.Index() == p
    requires i < |s.buckets[p].list| - 1 && i != s.buckets[p].hand
    ensures var r := ShardModel.Insert(s, k, Fresh(core));
            var t := r.after;
            && r.evicted == [Evicted(KeyAt(s, p, s.buckets[p].hand), EntryAt(s, p, s.buckets[p].hand))]
            && Stuck(t, p, core.size)
            && t.buckets[p].hand == s.buckets[p].hand
            && |t.buckets[p].list| == |s.buckets[p].list|
            && KeyAt(t, p, i) == KeyAt(s, p, i) && EntryAt(t, p, i) == EntryAt(s, p, i)
  {
    InsertAtHand(s, p, k, core);
    InsertAgrees(s, k, Fresh(core));
    DistinctIsPairwise(s.buckets[p].list);
  }

  // Where the keys of the first two slots to go are after one insert.
  lemma SlotsAfterInsert(s: ShardState, p: nat, k: Key, core: Core)
    requires Stuck(s, p, core.size) && k !in s.entries && core.policy.Index() == p
    ensures var r := ShardModel.Insert(s, k, Fresh(core));
            var last := |s.buckets[p].list| - 1;
            && KeysOf(r.evicted) == {KeyAt(s, p, s.buckets[p].hand)}
            && Stuck(r.after, p, core.size)
            && r.after.buckets[p].hand == s.buckets[p].hand && |r.after.buckets[p].list| == last + 1
            && KeyAt(r.after, p, s.buckets[p].hand) == KeyAt(s, p, last)
            && KeyAt(r.after, p, last) == k
  {
    InsertAtHand(s, p, k, core);
    InsertAgrees(s, k, Fresh(core));
    DistinctIsPairwise(s.buckets[p].list);
  }

  lemma SlotsDiffer(s: ShardState, p: nat, i: nat, j: nat)
    requires Filed(s) && p < 3 && i < |s.buckets[p].list| && j < |s.buckets[p].list| && i != j
    ensures KeyAt(s, p, i) != KeyAt(s, p, j)
  {
    DistinctIsPairwise(s.buckets[p].list);
  }

  // What stays when fresh entries go in, and what is under the hand after the first one.
  ghost predicate StillStuck(s: ShardState, t: ShardState, p: nat, size: U64, n: nat)
    requires Stuck(s, p, size)
  {
    var hand, last := s.buckets[p].hand, |s.buckets[p].list| - 1;
    && Stuck(t, p, size) && t.buckets[p].hand == hand && |t.buckets[p].list| == last + 1
    && (forall i: nat {:trigger KeyAt(t, p, i)} {:trigger KeyAt(s, p, i)} :: i < last && i != hand ==>
          KeyAt(t, p, i) == KeyAt(s, p, i) && EntryAt(t, p, i) == EntryAt(s, p, i))
    && (n == 0 ==> KeyAt(t, p, hand) == KeyAt(s, p, hand) && KeyAt(t, p, last) == KeyAt(s, p, last))
    && (n == 1 ==> KeyAt(t, p, hand) == KeyAt(s, p, last))
  }

  lemma FreshInsertStaysStuck(s: ShardState, e: FreshEntry, t: ShardState, p: nat, size: U64)
    requires Stuck(s, p, size) && FreshInsert(s, e, t, p, size)
    ensures StillStuck(s, t, p, size, 1)
  {
    SlotsAfterInsert(s, p, e.key, e.core);
    forall i: nat | i < |s.buckets[p].list| - 1 && i != s.buckets[p].hand
      ensures KeyAt(t, p, i) == KeyAt(s, p, i) && EntryAt(t, p, i) == EntryAt(s, p, i)
    {
      InsertStaysStuck(s, p, e.key, e.core, i);
    }
  }

  lemma HandGoes(s: ShardState, e: FreshEntry, t: ShardState, p: nat, size: U64)
    requires Stuck(s, p, size) && FreshInsert(s, e, t, p, size)
    ensures s.entries.Keys - t.entries.Keys == {KeyAt(s, p, s.buckets[p].hand)}
  {
    SlotsAfterInsert(s, p, e.key, e.core);
    GoneIsEvicted(s, e, t, p, size);
  }

  lemma OneInsertMore(s: ShardState, t: ShardState, u: ShardState, p: nat, size: U64, n: nat)
    requires Stuck(s, p, size) && StillStuck(s, t, p, size, n) && StillStuck(t, u, p, size, 1)
    ensures StillStuck(s, u, p, size, n + 1)
  {
  }

  lemma StepOfRun(states: seq<ShardState>, entries: seq<FreshEntry>, p: nat, size: U64, n: nat)
    requires FreshRun(states, entries, p, size) && 0 < n <= |entries| && Stuck(states[n - 1], p, size)
    ensures StillStuck(states[n - 1], states[n], p, size, 1)
  {
    assert FreshInsert(states[n - 1], entries[n - 1], states[n - 1 + 1], p, size);
    FreshInsertStaysStuck(states[n - 1], entries[n - 1], states[n], p, size);
  }

  lemma {:induction false} RunStaysStuck(states: seq<ShardState>, entries: seq<FreshEntry>, p: nat, size: U64, n: nat)
    requires FreshRun(states, entries, p, size) && Stuck(states[0], p, size) && n <= |entries|
    ensures StillStuck(states[0], states[n], p, size, n)
    decreases n
  {
    if n > 0 {
      RunStaysStuck(states, entries, p, size, n - 1);
      StepOfRun(states, entries, p, size, n);
      OneInsertMore(states[0], states[n - 1], states[n], p, size, n - 1);
    }
  }

  // However many fresh entries go in: the hand does not move, and every entry that is neither
  // under the hand nor last stays in its slot exactly as it is.
  lemma IdleEntriesSurvive(states: seq<ShardState>, entries: seq<FreshEntry>, p: nat, size: U64, n: nat, i: nat)
    requires FreshRun(states, entries, p, size) && Stuck(states[0], p, size) && n <= |entries|
    requires i < |states[0].buckets[p].list| - 1 && i != states[0].buckets[p].hand
    ensures var s, t := states[0], states[n];
            && Stuck(t, p, size)
            && t.buckets[p].hand == s.buckets[p].hand
            && |t.buckets[p].list| == |s.buckets[p].list|
            && KeyAt(t, p, i) == KeyAt(s, p, i) && EntryAt(t, p, i) == EntryAt(s, p, i)
  {
    RunStaysStuck(states, entries, p, size, n);
  }

  // The key that insert number j evicts: under the hand at first, then the last one, and then
  // none of those that were there.
  lemma VictimOf(states: seq<ShardState>, entries: seq<FreshEntry>, p: nat, size: U64, j: nat)
    requires FreshRun(states, entries, p, size) && Stuck(states[0], p, size) && j < |entries|
    ensures Stuck(states[j], p, size)
    ensures GoneBy(states, j) == {KeyAt(states[j], p, states[j].buckets[p].hand)}
    ensures StillStuck(states[0], states[j], p, size, j)
  {
    RunStaysStuck(states, entries, p, size, j);
    assert FreshInsert(states[j], entries[j], states[j + 1], p, size);
    HandGoes(states[j], entries[j], states[j + 1], p, size);
  }

  ghost predicate EvictedWithin(states: seq<ShardState>, n: nat, k: Key)
    requires n < |states|
  {
    exists j :: 0 <= j < n && k in GoneBy(states, j)
  }

  lemma HandGoesFirst(states: seq<ShardState>, entries: seq<FreshEntry>, p: nat, size: U64, n: nat)
    requires FreshRun(states, entries, p, size) && Stuck(states[0], p, size) && 1 <= n <= |entries|
    ensures EvictedWithin(states, n, KeyAt(states[0], p, states[0].buckets[p].hand))
  {
    VictimOf(states, entries, p, size, 0);
    assert KeyAt(states[0], p, states[0].buckets[p].hand) in GoneBy(states, 0);
  }

  lemma LastGoesNext(states: seq<ShardState>, entries: seq<FreshEntry>, p: nat, size: U64, n: nat)
    requires FreshRun(states, entries, p, size) && Stuck(states[0], p, size) && 2 <= n <= |entries|
    ensures EvictedWithin(states, n, KeyAt(states[0], p, |states[0].buckets[p].list| - 1))
  {
    VictimOf(states, entries, p, size, 1);
    assert KeyAt(states[0], p, |states[0].buckets[p].list| - 1) in GoneBy(states, 1);
  }

  lemma OthersStayFirst(states: seq<ShardState>, entries: seq<FreshEntry>, p: nat, size: U64, n: nat, i: nat)
    requires FreshRun(states, entries, p, size) && Stuck(states[0], p, size) && n <= |entries|
    requires i < |states[0].buckets[p].list| && n < 2 && (i == states[0].buckets[p].hand ==> n < 1)
    ensures !EvictedWithin(states, n, KeyAt(states[0], p, i))
  {
    if n == 1 {
      VictimOf(states, entries, p, size, 0);
      SlotsDiffer(states[0], p, i, states[0].buckets[p].hand);
    }
  }

  lemma OtherStays(states: seq<ShardState>, entries: seq<FreshEntry>, p: nat, size: U64, j: nat, i: nat)
    requires FreshRun(states, entries, p, size) && Stuck(states[0], p, size) && j < |entries|
    requires i < |states[0].buckets[p].list| - 1 && i != states[0].buckets[p].hand
    ensures KeyAt(states[0], p, i) !in GoneBy(states, j)
  {
    VictimOf(states, entries, p, size, j);
    SlotsDiffer(states[j], p, i, states[j].buckets[p].hand);
  }

  lemma OthersStay(states: seq<ShardState>, entries: seq<FreshEntry>, p: nat, size: U64, n: nat, i: nat)
    requires FreshRun(states, entries, p, size) && Stuck(states[0], p, size) && n <= |entries|
    requires i < |states[0].buckets[p].list| - 1 && i != states[0].buckets[p].hand
    ensures !EvictedWithin(states, n, KeyAt(states[0], p, i))
  {
    forall j | 0 <= j < n
      ensures KeyAt(states[0], p, i) !in GoneBy(states, j)
    {
      OtherStays(states, entries, p, size, j, i);
    }
  }

  // Of the entries that are there when a run of fresh inserts begins, the one under the hand goes
  // with the first insert and the last one with the second, and no other ever goes.
  lemma ExactlyWhatGoes(states: seq<ShardState>, entries: seq<FreshEntry>, p: nat, size: U64, n: nat, i: nat)
    requires FreshRun(states, entries, p, size) && Stuck(states[0], p, size) && n <= |entries|
    requires i < |states[0].buckets[p].list|
    ensures EvictedWithin(states, n, KeyAt(states[0], p, i)) <==>
            (i == states[0].buckets[p].hand && n >= 1) || (i == |states[0].buckets[p].list| - 1 && n >= 2)
  {
    if i == states[0].buckets[p].hand && n >= 1 {
      HandGoesFirst(states, entries, p, size, n);
    } else if i == |states[0].buckets[p].list| - 1 && n >= 2 {
      LastGoesNext(states, entries, p, size, n);
    } else if n < 2 {
      OthersStayFirst(states, entries, p, size, n, i);
    } else {
      OthersStay(states, entries, p, size, n, i);
    }
  }

  // ----- it does happen -----

  // The shard with equal entries for these keys, in this order in their bucket.
  function Holding(keys: seq<Key>, core: Core, size: nat, capacity: nat): ShardState {
    ShardState(
      map k | k in keys :: Fresh(core),
      [EMPTY_BUCKET, EMPTY_BUCKET, EMPTY_BUCKET][core.policy.Index() := Bucket(keys, 0)],
      size,
      capacity)
  }

  // An insert that fits adds its key at the end.
  lemma FittingInsert(keys: seq<Key>, core: Core, size: nat, capacity: nat, k: Key, more: seq<Key>, sum: nat)
    requires k !in keys && more == keys + [k] && sum == size + core.size <= capacity
    requires Agrees(Holding(keys, core, size, capacity), {})
    ensures FreshInsert(Holding(keys, core, size, capacity), FreshEntry(k, core), Holding(more, core, sum, capacity),
                        core.policy.Index(), core.size)
    ensures Agrees(Holding(more, core, sum, capacity), {})
  {
    var s := Holding(keys, core, size, capacity);
    assert MakeRoom(s, k, Fresh(core)) == EvictionRun([], s, 0);
    InsertAgrees(s, k, Fresh(core));
    OneKeyMore(keys, core, k, more);
  }

  lemma OneKeyMore(keys: seq<Key>, core: Core, k: Key, more: seq<Key>)
    requires more == keys + [k]
    ensures (map x | x in keys :: Fresh(core))[k := Fresh(core)] == map x | x in more :: Fresh(core)
  {
  }

  // The shard that three equal entries fill.
  function Full(a: Key, b: Key, c: Key, core: Core): ShardState {
    Holding([a, b, c], core, 3 * core.size, 3 * core.size)
  }

  lemma HoldingIsStuck(a: Key, b: Key, c: Key, core: Core)
    requires Agrees(Full(a, b, c, core), {}) && core.size > 0
    ensures Stuck(Full(a, b, c, core), core.policy.Index(), core.size)
  {
  }

  lemma SameRound(a: Key, b: Key, c: Key, d: Key, core: Core)
    requires a != b && a != c && b != c && d != a && d != b && d != c
    ensures [a, b, c][0 := c][2 := d] == [c, b, d]
    ensures ((map x | x in [a, b, c] :: Fresh(core)) - {a})[d := Fresh(core)] == map x | x in [c, b, d] :: Fresh(core)
  {
  }

  lemma NextRound(a: Key, b: Key, c: Key, d: Key, core: Core)
    requires a != b && a != c && b != c && d != a && d != b && d != c && core.size > 0
    requires Agrees(Full(a, b, c, core), {})
    ensures ShardModel.Insert(Full(a, b, c, core), d, Fresh(core)).after ==
            Full(c, b, d, core)
    ensures Agrees(Full(c, b, d, core), {})
  {
    var s := Full(a, b, c, core);
    HoldingIsStuck(a, b, c, core);
    InsertAtHand(s, core.policy.Index(), d, core);
    InsertAgrees(s, d, Fresh(core));
    SameRound(a, b, c, d, core);
  }

  lemma RunsInFront(s: ShardState, e: FreshEntry, states: seq<ShardState>, entries: seq<FreshEntry>,
                    p: nat, size: U64)
    requires FreshRun(states, entries, p, size) && FreshInsert(s, e, states[0], p, size)
    ensures FreshRun([s] + states, [e] + entries, p, size)
  {
    var all, es := [s] + states, [e] + entries;
    forall j | 0 <= j < |es|
      ensures FreshInsert(all[j], es[j], all[j + 1], p, size)
    {
      if j > 0 {
        assert es[j] == entries[j - 1] && all[j] == states[j - 1] && all[j + 1] == states[j - 1 + 1];
      }
    }
  }

  // From a shard that three equal entries fill, a run of any number of fresh inserts goes round
  // with one more key: what is evicted is fresh again.
  lemma {:induction false} FreshRunsGoOn(a: Key, b: Key, c: Key, d: Key, core: Core, n: nat)
    returns (states: seq<ShardState>, entries: seq<FreshEntry>)
    requires a != b && a != c && b != c && d != a && d != b && d != c && core.size > 0
    requires Agrees(Full(a, b, c, core), {})
    ensures |entries| == n && FreshRun(states, entries, core.policy.Index(), core.size)
    ensures states[0] == Full(a, b, c, core)
    decreases n
  {
    if n == 0 {
      states, entries := [Full(a, b, c, core)], [];
    } else {
      NextRound(a, b, c, d, core);
      var later, rest := FreshRunsGoOn(c, b, d, a, core, n - 1);
      RunsInFront(Full(a, b, c, core), FreshEntry(d, core), later, rest, core.policy.Index(), core.size);
      states, entries := [Full(a, b, c, core)] + later, [FreshEntry(d, core)] + rest;
    }
  }

  // From the first state of a run to its last, this key is not evicted, and in the end it is as new.
  ghost predicate StaysIdle(states: seq<ShardState>, k: Key, core: Core) {
    && |states| > 0
    && k in states[|states| - 1].entries && states[|states| - 1].entries[k] == Fresh(core)
    && !EvictedWithin(states, |states| - 1, k)
  }

  lemma StaysIdleInFront(s: ShardState, states: seq<ShardState>, k: Key, core: Core)
    requires StaysIdle(states, k, core) && s.entries.Keys <= states[0].entries.Keys
    ensures StaysIdle([s] + states, k, core)
  {
    var all := [s] + states;
    forall j | 0 <= j < |all| - 1
      ensures k !in GoneBy(all, j)
    {
      if j > 0 {
        assert GoneBy(all, j) == GoneBy(states, j - 1);
      }
    }
  }

  lemma MiddleStays(a: Key, b: Key, c: Key, core: Core, states: seq<ShardState>, entries: seq<FreshEntry>)
    requires a != b && a != c && b != c && core.size > 0 && Agrees(Full(a, b, c, core), {})
    requires FreshRun(states, entries, core.policy.Index(), core.size) && states[0] == Full(a, b, c, core)
    ensures StaysIdle(states, b, core)
  {
    var p, u, n := core.policy.Index(), core.size, |entries|;
    HoldingIsStuck(a, b, c, core);
    assert KeyAt(states[0], p, 1) == b && EntryAt(states[0], p, 1) == Fresh(core);
    ExactlyWhatGoes(states, entries, p, u, n, 1);
    IdleEntriesSurvive(states, entries, p, u, n, 1);
    assert KeyAt(states[n], p, 1) == b;
  }

  // An insert that fits, in front of a run.
  lemma FitsInFront(keys: seq<Key>, core: Core, size: nat, k: Key, more: seq<Key>, sum: nat, b: Key,
                    states: seq<ShardState>, entries: seq<FreshEntry>)
    requires k !in keys && more == keys + [k] && sum == size + core.size <= 3 * core.size
    requires Agrees(Holding(keys, core, size, 3 * core.size), {})
    requires FreshRun(states, entries, core.policy.Index(), core.size) && StaysIdle(states, b, core)
    requires states[0] == Holding(more, core, sum, 3 * core.size)
    ensures var s := Holding(keys, core, size, 3 * core.size);
            && FreshRun([s] + states, [FreshEntry(k, core)] + entries, core.policy.Index(), core.size)
            && StaysIdle([s] + states, b, core)
  {
    var s := Holding(keys, core, size, 3 * core.size);
    FittingInsert(keys, core, size, 3 * core.size, k, more, sum);
    RunsInFront(s, FreshEntry(k, core), states, entries, core.policy.Index(), core.size);
    StaysIdleInFront(s, states, b, core);
  }

  lemma FittingAgrees(keys: seq<Key>, core: Core, size: nat, capacity: nat, k: Key, more: seq<Key>, sum: nat)
    requires k !in keys && more == keys + [k] && sum == size + core.size <= capacity
    requires Agrees(Holding(keys, core, size, capacity), {})
    ensures Agrees(Holding(more, core, sum, capacity), {})
  {
    FittingInsert(keys, core, size, capacity, k, more, sum);
  }

  lemma EmptyAgrees(core: Core, capacity: nat)
    ensures New(capacity) == Holding([], core, 0, capacity)
    ensures Agrees(Holding([], core, 0, capacity), {})
  {
    NewAgrees(capacity);
    assert New(capacity) == Holding([], core, 0, capacity);
  }

  lemma FillsUp(a: Key, b: Key, c: Key, core: Core)
    requires a != b && a != c && b != c
    ensures Agrees(Holding([a], core, core.size, 3 * core.size), {})
    ensures Agrees(Holding([a, b], core, 2 * core.size, 3 * core.size), {})
    ensures Agrees(Full(a, b, c, core), {})
  {
    var u: nat, capacity: nat := core.size, 3 * core.size;
    EmptyAgrees(core, capacity);
    FittingAgrees([], core, 0, capacity, a, [a], u);
    FittingAgrees([a], core, u, capacity, b, [a, b], 2 * u);
    FittingAgrees([a, b], core, 2 * u, capacity, c, [a, b, c], capacity);
  }

  // So for every n there is a run of n + 3 inserts from an empty shard, each of a key that is not
  // resident, in which the second key stays idle and in its slot to the end, while each of the
  // last n inserts evicts a younger one; four keys are enough.
  lemma IdleForAsLongAsOneLikes(a: Key, b: Key, c: Key, d: Key, core: Core, n: nat)
    returns (states: seq<ShardState>, entries: seq<FreshEntry>)
    requires a != b && a != c && b != c && d != a && d != b && d != c && core.size > 0
    ensures |entries| == n + 3 && FreshRun(states, entries, core.policy.Index(), core.size)
    ensures states[0] == New(3 * core.size)
    ensures entries[1].key == b && StaysIdle(states, b, core)
    ensures states[3] == Full(a, b, c, core) && Stuck(states[3], core.policy.Index(), core.size)
  {
    EmptyAgrees(core, 3 * core.size);
    FillsUp(a, b, c, core);
    HoldingIsStuck(a, b, c, core);
    var later, rest := FreshRunsGoOn(a, b, c, d, core, n);
    MiddleStays(a, b, c, core, later, rest);
    var u: nat := core.size;
    var s0, s1, s2 := Holding([], core, 0, 3 * u), Holding([a], core, u, 3 * u), Holding([a, b], core, 2 * u, 3 * u);
    FitsInFront([a, b], core, 2 * u, c, [a, b, c], 3 * u, b, later, rest);
    var states2, entries2 := [s2] + later, [FreshEntry(c, core)] + rest;
    FitsInFront([a], core, u, b, [a, b], 2 * u, b, states2, entries2);
    var states1, entries1 := [s1] + states2, [FreshEntry(b, core)] + entries2;
    FitsInFront([], core, 0, a, [a], u, b, states1, entries1);
    states, entries := [s0] + states1, [FreshEntry(a, core)] + entries1;
  }
}
