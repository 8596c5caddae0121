// One clock sweep of one bucket: which entry it evicts, what it does to the others, what it costs.
module Sweeps {
  import opened Types
  import opened Sums
  import opened Buckets
  import opened ShardModel

  // ----- laws of the fixed parts -----

  lemma CoresUpdate(m: map<Key, EntryData>, k: Key, e: EntryData)
    ensures Cores(m[k := e]) == Cores(m)[k := e.core]
  {
  }

  lemma CoresWithout(m: map<Key, EntryData>, n: map<Key, EntryData>, gone: set<Key>)
    requires n.Keys == m.Keys - gone
    requires forall k :: k in n ==> n[k].core == m[k].core
    ensures Cores(n) == Cores(m) - gone
  {
  }

  // ----- laws of the byte count and of the heat -----

  lemma BytesSplit(m: map<Key, EntryData>, out: set<Key>, k: Key)
    requires k in m && k !in out
    ensures Bytes(m, out) == m[k].core.size + Bytes(m, out + {k})
  {
    SumSplit(m.Keys - out, Sizes(m), k);
    assert m.Keys - out - {k} == m.Keys - (out + {k});
  }

  lemma BytesSame(m: map<Key, EntryData>, n: map<Key, EntryData>, out: set<Key>, off: set<Key>)
    requires m.Keys - out == n.Keys - off
    requires forall k :: k in m && k !in out ==> k in n && m[k].core.size == n[k].core.size
    ensures Bytes(m, out) == Bytes(n, off)
  {
    SumSame(m.Keys - out, Sizes(m), Sizes(n));
  }

  lemma BytesPositive(m: map<Key, EntryData>, out: set<Key>)
    ensures 0 <= Bytes(m, out)
    ensures m.Keys <= out ==> Bytes(m, out) == 0
    ensures forall k :: k in m && k !in out ==> m[k].core.size <= Bytes(m, out)
  {
    SumNonNegative(m.Keys - out, Sizes(m));
    if m.Keys <= out {
      assert m.Keys - out == {};
    }
    forall k | k in m && k !in out
      ensures m[k].core.size <= Bytes(m, out)
    {
      BytesSplit(m, out, k);
      SumNonNegative(m.Keys - (out + {k}), Sizes(m));
    }
  }

  lemma HeatSplit(m: map<Key, EntryData>, k: Key)
    requires k in m
    ensures Heat(m) == m[k].Heat() + Heat(m - {k})
  {
    SumSplit(m.Keys, Heats(m), k);
    assert (m - {k}).Keys == m.Keys - {k};
    SumSame(m.Keys - {k}, Heats(m), Heats(m - {k}));
  }

  lemma HeatUpdate(m: map<Key, EntryData>, k: Key, e: EntryData)
    ensures Heat(m[k := e]) == Heat(m - {k}) + e.Heat()
    ensures k in m ==> Heat(m[k := e]) == Heat(m) - m[k].Heat() + e.Heat()
  {
    var n := m[k := e];
    HeatSplit(n, k);
    assert (n - {k}).Keys == (m - {k}).Keys;
    SumSame((m - {k}).Keys, Heats(n - {k}), Heats(m - {k}));
    if k in m {
      HeatSplit(m, k);
    }
  }

  lemma HeatBounds(m: map<Key, EntryData>)
    ensures 0 <= Heat(m) <= 256 * Count(m.Keys)
  {
    SumNonNegative(m.Keys, Heats(m));
    SumAtMost(m.Keys, Heats(m), 256);
  }

  // ----- the sweep, field by field -----

  // The key and the entry at slot i of bucket p.
  function KeyAt(s: ShardState, p: nat, i: nat): (k: Key)
    requires Filed(s) && p < 3 && i < |s.buckets[p].list|
    ensures k in s.buckets[p].list && k in s.entries && s.entries[k].core.policy.Index() == p
  {
    var k := s.buckets[p].list[i];
    assert k in s.buckets[p].list;
    k
  }

  function EntryAt(s: ShardState, p: nat, i: nat): EntryData
    requires Filed(s) && p < 3 && i < |s.buckets[p].list|
  {
    s.entries[KeyAt(s, p, i)]
  }

  // Slot i is d steps ahead of the hand, counted in the direction of the list.
  lemma AtSlot(b: Bucket, i: nat)
    requires b.hand < |b.list| && i < |b.list|
    ensures var d := if b.hand <= i then i - b.hand else i + |b.list| - b.hand;
            d < |b.list| && b.Pos(d) == i && b.At(d) == b.list[i]
  {
  }

  // The keys passed on the way to slot v are those of the slots from the hand up to v.
  lemma PassedSlots(b: Bucket, v: nat, i: nat, d: nat)
    requires b.Valid() && v < |b.list| && i < |b.list|
    requires d == if b.hand <= v then v - b.hand else v + |b.list| - b.hand
    ensures b.list[i] in b.Passed(d) <==> if b.hand <= v then b.hand <= i < v else b.hand <= i || i < v
  {
    AtSlot(b, i);
    AtSlot(b, v);
    DistinctIsPairwise(b.list);
    PassedOnlyAt(b, d, b.list[i]);
    var at := if b.hand <= i then i - b.hand else i + |b.list| - b.hand;
    if at < d {
      PassedAt(b, d, at);
    }
  }

  lemma FirstColdAt(s: ShardState, p: nat, v: nat)
    requires Filed(s) && p < 3 && v < |s.buckets[p].list|
    requires EntryAt(s, p, v).Cold()
    requires var b := s.buckets[p];
             forall i: nat {:trigger EntryAt(s, p, i)} ::
               i < |b.list| && (if b.hand <= v then b.hand <= i < v else b.hand <= i || i < v)
               ==> !EntryAt(s, p, i).Cold()
    ensures var b := s.buckets[p];
            FirstCold(s.entries, b, 0) == if b.hand <= v then v - b.hand else v + |b.list| - b.hand
  {
    var b := s.buckets[p];
    var d := if b.hand <= v then v - b.hand else v + |b.list| - b.hand;
    FirstColdIsFirst(s.entries, b, 0);
    AtSlot(b, v);
    forall j | 0 <= j < d
      ensures !s.entries[b.At(j)].Cold()
    {
      assert s.entries[b.At(j)] == EntryAt(s, p, b.Pos(j));
    }
  }

  // The victim is the entry at the first slot from the hand on, in the direction of the list and
  // around its end, with a clear bit and no frequency. Each entry passed on the way has lost its
  // clock bit if that was set, and one of its frequency if not; all others are untouched. The hand
  // is put on the vacated slot.
  lemma FirstColdIsEvicted(s: ShardState, p: nat, v: nat)
    requires Filed(s) && p < 3 && v < |s.buckets[p].list|
    requires var e := EntryAt(s, p, v); !e.clockBit && e.frequency == 0
    requires var b := s.buckets[p];
             forall i: nat {:trigger b.list[i]} {:trigger EntryAt(s, p, i)} ::
               i < |b.list| && (if b.hand <= v then b.hand <= i < v else b.hand <= i || i < v)
               ==> EntryAt(s, p, i).clockBit || EntryAt(s, p, i).frequency > 0
    ensures var b := s.buckets[p];
            var e := EvictFrom(s, p);
            && e.victim == Evicted(b.list[v], EntryAt(s, p, v))
            && e.examined == 1 + (if b.hand <= v then v - b.hand else v + |b.list| - b.hand)
            && OutOfSlot(s, p, v, e.after)
    ensures var b := s.buckets[p];
            var after := EvictFrom(s, p).after.entries;
            forall i: nat {:trigger b.list[i]} {:trigger EntryAt(s, p, i)} :: i < |b.list| && i != v ==>
              && b.list[i] in after
              && var was, now := EntryAt(s, p, i), after[b.list[i]];
                 if (if b.hand <= v then b.hand <= i < v else b.hand <= i || i < v)
                 then now.core == was.core && !now.clockBit
                      && now.frequency == if was.clockBit then was.frequency else was.frequency - 1
                 else now == was
  {
    var b := s.buckets[p];
    var d := if b.hand <= v then v - b.hand else v + |b.list| - b.hand;
    FirstColdAt(s, p, v);
    AtSlot(b, v);
    NotYetPassed(b, d, d);
    SlotLeaves(s, p, v, d);
    assert KeyAt(s, p, v) == b.list[v];
    var after := EvictFrom(s, p).after.entries;
    forall i: nat {:trigger b.list[i]} | i < |b.list| && i != v
      ensures b.list[i] in after
      ensures var was, now := EntryAt(s, p, i), after[b.list[i]];
              if (if b.hand <= v then b.hand <= i < v else b.hand <= i || i < v)
              then now.core == was.core && !now.clockBit
                   && now.frequency == if was.clockBit then was.frequency else was.frequency - 1
              else now == was
    {
      SlotStays(s, p, v, d, i);
    }
  }

  lemma SlotStays(s: ShardState, p: nat, v: nat, d: nat, i: nat)
    requires Filed(s) && p < 3 && v < |s.buckets[p].list| && i < |s.buckets[p].list| && i != v
    requires d == FirstCold(s.entries, s.buckets[p], 0) && v == s.buckets[p].Pos(d)
    requires d < |s.buckets[p].list|
    requires var b := s.buckets[p];
             (if b.hand <= v then b.hand <= i < v else b.hand <= i || i < v) ==> !EntryAt(s, p, i).Cold()
    ensures var b := s.buckets[p];
            var was, after := EntryAt(s, p, i), EvictFrom(s, p).after.entries;
            && b.list[i] in after
            && var now := after[b.list[i]];
               if (if b.hand <= v then b.hand <= i < v else b.hand <= i || i < v)
               then now.core == was.core && !now.clockBit
                    && now.frequency == if was.clockBit then was.frequency else was.frequency - 1
               else now == was
  {
    PassedSlots(s.buckets[p], v, i, d);
    DistinctIsPairwise(s.buckets[p].list);
    assert KeyAt(s, p, i) == s.buckets[p].list[i] != s.buckets[p].list[v];
  }

  // The entry at slot v of bucket p has left map, bucket and bytes; the hand is put on its slot.
  // No entry of another bucket is touched.
  ghost predicate OutOfSlot(s: ShardState, p: nat, v: nat, t: ShardState)
    requires |s.buckets| == 3 && p < 3 && v < |s.buckets[p].list| && s.buckets[p].list[v] in s.entries
  {
    var list := s.buckets[p].list;
    && t.entries.Keys == s.entries.Keys - {list[v]}
    && |t.buckets| == 3
    && (forall q :: 0 <= q < 3 && q != p ==> t.buckets[q] == s.buckets[q])
    && Vacated(Bucket(list, v), v, t.buckets[p])
    && t.size == s.size - s.entries[list[v]].core.size
    && t.capacity == s.capacity
    && forall k {:trigger t.entries[k]} :: k in t.entries && k !in list ==> t.entries[k] == s.entries[k]
  }

  lemma SlotLeaves(s: ShardState, p: nat, v: nat, d: nat)
    requires Filed(s) && p < 3 && v < |s.buckets[p].list|
    requires d == FirstCold(s.entries, s.buckets[p], 0) && v == s.buckets[p].Pos(d)
    ensures OutOfSlot(s, p, v, EvictFrom(s, p).after)
  {
    var b := s.buckets[p];
    RemovalSwaps(Bucket(b.list, v), b.list[v], v);
    AgedInKeepsCores(s.entries, b.Passed(d));
    forall k | k !in b.list
      ensures k !in b.Passed(d)
    {
      PassedOnlyAt(b, d, k);
    }
  }

  // If all entries of the bucket have their bit set or some frequency left, all of them lose the
  // one or the other, and the one the hand started on is evicted.
  lemma HotBucketLosesEntryAtHand(s: ShardState, p: nat)
    requires Filed(s) && p < 3 && s.buckets[p].list != []
    requires forall k :: k in s.buckets[p].list ==> s.entries[k].clockBit || s.entries[k].frequency > 0
    ensures var b := s.buckets[p];
            var e := EvictFrom(s, p);
            var was := EntryAt(s, p, b.hand);
            && e.victim.key == b.list[b.hand] && e.victim.entry.core == was.core
            && !e.victim.entry.clockBit
            && e.victim.entry.frequency == (if was.clockBit then was.frequency else was.frequency - 1)
            && e.examined == |b.list|
            && OutOfSlot(s, p, b.hand, e.after)
    ensures var b := s.buckets[p];
            var after := EvictFrom(s, p).after.entries;
            forall i: nat {:trigger b.list[i]} {:trigger EntryAt(s, p, i)} :: i < |b.list| && i != b.hand ==>
              && b.list[i] in after
              && var was, now := EntryAt(s, p, i), after[b.list[i]];
                 && now.core == was.core && !now.clockBit
                 && now.frequency == if was.clockBit then was.frequency else was.frequency - 1
  {
    var b := s.buckets[p];
    FirstColdIsFirst(s.entries, b, 0);
    SlotLeaves(s, p, b.hand, |b.list|);
    forall i: nat {:trigger b.list[i]} | i < |b.list|
      ensures b.list[i] in b.Passed(|b.list|) && (i != b.hand ==> b.list[i] != b.list[b.hand])
    {
      FullTurn(b, b.list[i]);
      DistinctIsPairwise(b.list);
    }
  }

  // One of the two cases it is.
  lemma ColdSlotOrHotBucket(s: ShardState, p: nat) returns (v: nat)
    requires Filed(s) && p < 3 && s.buckets[p].list != []
    ensures var b := s.buckets[p];
            || (forall k :: k in b.list ==> s.entries[k].clockBit || s.entries[k].frequency > 0)
            || (&& v < |b.list| && !EntryAt(s, p, v).clockBit && EntryAt(s, p, v).frequency == 0
                && forall i: nat {:trigger b.list[i]} {:trigger EntryAt(s, p, i)} ::
                     i < |b.list| && (if b.hand <= v then b.hand <= i < v else b.hand <= i || i < v)
                     ==> EntryAt(s, p, i).clockBit || EntryAt(s, p, i).frequency > 0)
  {
    var b := s.buckets[p];
    var d := FirstCold(s.entries, b, 0);
    FirstColdIsFirst(s.entries, b, 0);
    v := b.Pos(d);
    forall i: nat {:trigger b.list[i]} | i < |b.list| && (d == |b.list| || b.list[i] in b.Passed(d))
      ensures !EntryAt(s, p, i).Cold()
    {
      if d == |b.list| {
        FullTurn(b, b.list[i]);
      }
      PassedOnlyAt(b, d, b.list[i]);
    }
    if d < |b.list| {
      forall i: nat {:trigger b.list[i]} | i < |b.list|
        ensures b.list[i] in b.Passed(d) <==> if b.hand <= v then b.hand <= i < v else b.hand <= i || i < v
      {
        PassedSlots(b, v, i, d);
      }
    }
  }

  // So an entry with its bit set or some frequency left is evicted if and only if the whole bucket
  // is of that kind.
  lemma HotEntryIsLostOnlyFromHotBucket(s: ShardState, p: nat)
    requires Filed(s) && p < 3 && s.buckets[p].list != []
    ensures var e := s.entries[EvictFrom(s, p).victim.key];
            e.clockBit || e.frequency > 0 <==>
            (forall k :: k in s.buckets[p].list ==> s.entries[k].clockBit || s.entries[k].frequency > 0)
  {
    var v := ColdSlotOrHotBucket(s, p);
    if forall k :: k in s.buckets[p].list ==> s.entries[k].clockBit || s.entries[k].frequency > 0 {
      HotBucketLosesEntryAtHand(s, p);
      assert s.buckets[p].list[s.buckets[p].hand] in s.buckets[p].list;
    } else {
      FirstColdIsEvicted(s, p, v);
    }
  }

  lemma TakenOutAgrees(s: ShardState, p: nat, k: Key, t: ShardState, out: set<Key>)
    requires Agrees(s, out) && p < 3 && TakenOut(s, p, k, t)
    ensures Agrees(t, out) && k !in out
  {
    TakenOutIsFiled(s, p, k, t);
    assert InItsBucket(s, k);
    BytesSplit(s.entries, out, k);
    BytesSame(s.entries, t.entries, out + {k}, out);
    forall x | x in t.entries
      ensures InItsBucket(t, x) <==> x !in out
    {
      assert InItsBucket(s, x) <==> x !in out;
    }
  }

  lemma EvictFromAgrees(s: ShardState, p: nat, out: set<Key>)
    requires Agrees(s, out) && p < 3 && s.buckets[p].list != []
    ensures var e := EvictFrom(s, p);
            && TakenOut(s, p, e.victim.key, e.after)
            && Agrees(e.after, out)
            && e.victim.key !in out
            && e.victim.entry.core == s.entries[e.victim.key].core
            && e.victim.entry.core.policy.Index() == p
  {
    EvictFromTakesOut(s, p);
    TakenOutAgrees(s, p, EvictFrom(s, p).victim.key, EvictFrom(s, p).after, out);
  }

  lemma AgedByNone(entries: map<Key, EntryData>)
    ensures AgedIn(entries, {}) == entries
  {
  }

  lemma AgedOneMore(entries: map<Key, EntryData>, keys: set<Key>, k: Key)
    requires k in entries && k !in keys
    ensures AgedIn(entries, keys)[k] == entries[k]
    ensures AgedIn(entries, keys + {k}) == AgedIn(entries, keys)[k := entries[k].Aged()]
  {
  }

  // ----- the sweep in the order the program does it -----

  ghost predicate Sweepable(s: ShardState, p: nat) {
    && |s.buckets| == 3 && p < 3 && s.buckets[p].Valid() && s.buckets[p].list != []
    && forall k :: k in s.buckets[p].list ==> k in s.entries
  }

  // A sweep of bucket p of s has passed over d entries, none of them cold, and aged them: the
  // hand and the shard are now as given.
  ghost predicate Passing(s: ShardState, p: nat, d: nat, hand: nat, t: ShardState) {
    && Sweepable(s, p) && d <= |s.buckets[p].list|
    && FirstCold(s.entries, s.buckets[p], 0) == FirstCold(s.entries, s.buckets[p], d)
    && hand == s.buckets[p].Pos(d)
    && t == s.(entries := AgedIn(s.entries, s.buckets[p].Passed(d)))
  }

  lemma PassingStarts(s: ShardState, p: nat)
    requires Sweepable(s, p)
    ensures Passing(s, p, 0, s.buckets[p].hand, s)
  {
    AgedByNone(s.entries);
  }

  // The entry at the hand has not been aged yet.
  lemma EntryAtHand(s: ShardState, p: nat, d: nat, hand: nat, t: ShardState)
    requires Passing(s, p, d, hand, t) && d < |s.buckets[p].list|
    ensures t.buckets == s.buckets
    ensures var key := s.buckets[p].list[hand];
            && key == s.buckets[p].At(d) && key !in s.buckets[p].Passed(d)
            && key in t.entries && t.entries[key] == s.entries[key]
  {
    NotYetPassed(s.buckets[p], d, d);
  }

  // The sweep is over: the entry at the hand is cold, or all have been passed over.
  ghost predicate SweptOut(s: ShardState, p: nat, d: nat, hand: nat, t: ShardState) {
    Passing(s, p, d, hand, t) && d == FirstCold(s.entries, s.buckets[p], 0)
  }

  lemma PassingStops(s: ShardState, p: nat, d: nat, hand: nat, t: ShardState)
    requires Passing(s, p, d, hand, t)
    requires d == |s.buckets[p].list| || s.entries[s.buckets[p].At(d)].Cold()
    ensures SweptOut(s, p, d, hand, t)
  {
  }

  lemma PassingGoesOn(s: ShardState, p: nat, d: nat, hand: nat, t: ShardState)
    requires Passing(s, p, d, hand, t) && d < |s.buckets[p].list|
    requires !s.entries[s.buckets[p].At(d)].Cold()
    ensures var key := s.buckets[p].list[hand];
            && key in t.entries
            && Passing(s, p, d + 1, if hand + 1 >= |s.buckets[p].list| then 0 else hand + 1,
                       t.(entries := t.entries[key := t.entries[key].Aged()]))
  {
    EntryAtHand(s, p, d, hand, t);
    AgedOneMore(s.entries, s.buckets[p].Passed(d), s.buckets[p].At(d));
  }

  // Where a sweep stops, the entry at the hand is the victim, cold or not.
  lemma SweptThenEvicted(s: ShardState, p: nat, d: nat, hand: nat, t: ShardState)
    requires Filed(s) && SweptOut(s, p, d, hand, t)
    ensures SlotHasEntry(t, p, hand) && t.size == s.size
    ensures t.buckets[p].list == s.buckets[p].list && t.buckets[p].list[hand] in s.buckets[p].list
    ensures EvictSlot(t, p, hand).victim.entry.core == s.entries[t.buckets[p].list[hand]].core
    ensures EvictFrom(s, p).victim == EvictSlot(t, p, hand).victim
    ensures EvictFrom(s, p).after == EvictSlot(t, p, hand).after
    ensures EvictFrom(s, p).examined == if d < |s.buckets[p].list| then d + 1 else d
  {
  }

  // Passing over entries that are not cold takes one notch each off the heat of the shard.
  lemma {:induction false} AgingCools(entries: map<Key, EntryData>, b: Bucket, d: nat)
    requires b.Valid() && b.list != [] && d <= |b.list|
    requires forall k :: k in b.list ==> k in entries
    requires forall j :: 0 <= j < d ==> !entries[b.At(j)].Cold()
    ensures Heat(AgedIn(entries, b.Passed(d))) == Heat(entries) - d
  {
    if d == 0 {
      AgedByNone(entries);
    } else {
      var k := b.At(d - 1);
      AgingCools(entries, b, d - 1);
      NotYetPassed(b, d - 1, d - 1);
      AgedOneMore(entries, b.Passed(d - 1), k);
      HeatUpdate(AgedIn(entries, b.Passed(d - 1)), k, entries[k].Aged());
    }
  }

  // Every entry a sweep examines, but one, is paid for by heat that the sweep takes away.
  lemma SweepCost(s: ShardState, p: nat)
    requires Filed(s) && p < 3 && s.buckets[p].list != []
    ensures EvictFrom(s, p).examined + Heat(EvictFrom(s, p).after.entries) <= Heat(s.entries) + 1
  {
    var b := s.buckets[p];
    var d := FirstCold(s.entries, b, 0);
    FirstColdIsFirst(s.entries, b, 0);
    AgingCools(s.entries, b, d);
    HeatSplit(AgedIn(s.entries, b.Passed(d)), b.At(d));
  }
}
