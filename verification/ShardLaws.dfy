// What each shard operation keeps and changes, whatever the shard held before.
module ShardLaws {
  import opened Types
  import opened Sums
  import opened Buckets
  import opened ShardModel
  import opened Sweeps
  import opened Evictions

  // Between operations: the structures agree, and the bytes are within the capacity unless
  // a single entry is all there is.
  ghost predicate ShardInv(s: ShardState) {
    Agrees(s, {}) && 0 <= s.capacity && (s.size <= s.capacity || AtMostOne(s.entries))
  }

  ghost predicate AtMostOne(m: map<Key, EntryData>) {
    Count(m.Keys) <= 1
  }

  lemma OnlyKey(m: map<Key, EntryData>, k: Key)
    requires k in m
    ensures AtMostOne(m) <==> m.Keys == {k}
  {
    CountIsSize(m.Keys);
    CountIsSize({k});
    CountRemove(m.Keys, k);
    if Count(m.Keys - {k}) == 0 {
      assert m.Keys == {k};
    }
  }

  // ----- the two halves of an insert -----

  lemma DetachedAgrees(s: ShardState, k: Key)
    requires Agrees(s, {})
    ensures Agrees(Detached(s, k), {k})
    ensures forall p :: 0 <= p < 3 ==> k !in Detached(s, k).buckets[p].list
  {
    DetachedIsFiled(s, k);
    forall x | x in s.entries
      ensures InItsBucket(Detached(s, k), x) <==> x !in {k}
    {
      assert InItsBucket(s, x);
    }
    if k in s.entries {
      BytesSplit(s.entries, {}, k);
    }
    BytesSame(s.entries, s.entries, {} + {k}, {k});
    if k !in s.entries {
      BytesSame(s.entries, s.entries, {}, {k});
    }
  }

  lemma AttachedIsFiled(s: ShardState, k: Key, e: EntryData)
    requires Filed(s)
    requires forall q :: 0 <= q < 3 ==> k !in s.buckets[q].list
    ensures Filed(Attached(s, k, e))
  {
    var t := Attached(s, k, e);
    InsertedKeeps(s.buckets[e.core.policy.Index()], k);
    forall q, x | 0 <= q < 3 && x in t.buckets[q].list
      ensures x in t.entries && t.entries[x].core.policy.Index() == q
    {
      assert x == k || x in s.buckets[q].list;
    }
  }

  lemma AttachedIsIndexed(s: ShardState, k: Key, e: EntryData)
    requires Filed(s) && Indexed(s, {k})
    ensures Indexed(Attached(s, k, e), {})
  {
    var t := Attached(s, k, e);
    InsertedKeeps(s.buckets[e.core.policy.Index()], k);
    forall x | x in t.entries
      ensures InItsBucket(t, x)
    {
      assert x != k ==> InItsBucket(s, x);
    }
  }

  lemma AttachedAgrees(s: ShardState, k: Key, e: EntryData)
    requires Agrees(s, {k})
    ensures Agrees(Attached(s, k, e), {})
  {
    var t := Attached(s, k, e);
    forall q | 0 <= q < 3
      ensures k !in s.buckets[q].list
    {
      assert k in s.entries ==> !InItsBucket(s, k);
    }
    AttachedIsFiled(s, k, e);
    AttachedIsIndexed(s, k, e);
    BytesSplit(t.entries, {}, k);
    BytesSame(s.entries, t.entries, {k}, {} + {k});
  }

  lemma EvictFromSkips(s: ShardState, p: nat, k: Key)
    requires Filed(s) && p < 3 && s.buckets[p].list != []
    requires k in s.entries && k !in s.buckets[p].list
    ensures k in EvictFrom(s, p).after.entries
    ensures EvictFrom(s, p).after.entries[k] == s.entries[k]
  {
    var b := s.buckets[p];
    PassedOnlyAt(b, FirstCold(s.entries, b, 0), k);
  }

  // A key in no bucket is out of reach of the sweeps: it is neither evicted nor aged.
  lemma {:induction false} EvictUntilSkips(s: ShardState, needed: int, p: nat, k: Key)
    requires Filed(s) && p < 3 && k in s.entries
    requires forall q :: 0 <= q < 3 ==> k !in s.buckets[q].list
    ensures k in EvictUntil(s, needed, p).after.entries
    ensures EvictUntil(s, needed, p).after.entries[k] == s.entries[k]
    decreases p, |s.buckets[p].list|
  {
    if s.size + needed > s.capacity {
      if s.buckets[p].list != [] {
        EvictFromTakesOut(s, p);
        EvictFromSkips(s, p, k);
        EvictUntilSkips(EvictFrom(s, p).after, needed, p, k);
      } else if p > 0 {
        EvictUntilSkips(s, needed, p - 1, k);
      }
    }
  }

  lemma MakeRoomLaws(s: ShardState, k: Key, e: EntryData)
    requires Agrees(s, {})
    ensures var t := MakeRoom(s, k, e).after;
            && Agrees(t, {k})
            && t.capacity == s.capacity
            && (t.size + e.core.size <= t.capacity || t.entries.Keys <= {k})
            && (k in t.entries <==> k in s.entries)
            && (k in s.entries ==> t.entries[k] == s.entries[k])
  {
    var d := Detached(s, k);
    var t := MakeRoom(s, k, e).after;
    DetachedAgrees(s, k);
    EvictUntilAgrees(d, e.core.size, 2, {k});
    EvictUntilIsFiled(d, e.core.size, 2);
    if k in s.entries {
      EvictUntilSkips(d, e.core.size, 2, k);
    }
    if t.size + e.core.size > t.capacity {
      forall x | x in t.entries
        ensures x == k
      {
        assert InItsBucket(t, x) <==> x !in {k};
      }
    }
  }

  lemma MakeRoomConserves(s: ShardState, k: Key, e: EntryData)
    requires Agrees(s, {})
    ensures Conserved(Detached(s, k), MakeRoom(s, k, e).evicted, MakeRoom(s, k, e).after, {k})
  {
    DetachedAgrees(s, k);
    EvictUntilConserves(Detached(s, k), e.core.size, 2, {k});
  }

  lemma EvictsOthers(s: ShardState, k: Key, e: EntryData)
    requires Agrees(s, {})
    ensures forall i {:trigger MakeRoom(s, k, e).evicted[i]} ::
              0 <= i < |MakeRoom(s, k, e).evicted| ==> MakeRoom(s, k, e).evicted[i].key != k
  {
    MakeRoomConserves(s, k, e);
    var ev := MakeRoom(s, k, e).evicted;
    assert forall i {:trigger ev[i]} :: 0 <= i < |ev| ==> ev[i] in ev;
  }

  // ----- insert -----

  // The structures agree again after the update, even under another policy; the resident
  // entry of the key is what comes back, and it was never a candidate for eviction.
  lemma InsertAgrees(s: ShardState, k: Key, e: EntryData)
    requires Agrees(s, {})
    ensures var r := Insert(s, k, e);
            && Agrees(r.after, {})
            && r.after.capacity == s.capacity
            && k in r.after.entries && r.after.entries[k] == e
            && r.replaced == (if k in s.entries then Some(s.entries[k]) else None)
  {
    MakeRoomLaws(s, k, e);
    AttachedAgrees(MakeRoom(s, k, e).after, k, e);
  }

  // Old contents and the new entry are the new contents, the evicted and the replaced entry.
  lemma InsertConserves(s: ShardState, k: Key, e: EntryData)
    requires Agrees(s, {})
    ensures var r := Insert(s, k, e);
            && Cores(r.after.entries) == (Cores(s.entries) - KeysOf(r.evicted))[k := e.core]
            && (forall x :: x in r.evicted ==>
                  x.key in s.entries && x.key != k && x.entry.core == s.entries[x.key].core)
            && |KeysOf(r.evicted)| == |r.evicted|
            && r.after.size ==
               s.size + e.core.size - BytesOf(r.evicted) - (if k in s.entries then s.entries[k].core.size else 0)
  {
    MakeRoomLaws(s, k, e);
    MakeRoomConserves(s, k, e);
    var room := MakeRoom(s, k, e);
    CoresWithout(s.entries, room.after.entries, KeysOf(room.evicted));
    CoresUpdate(room.after.entries, k, e);
  }

  // The same for the bytes alone, in terms of what the insert returns.
  lemma InsertBytes(s: ShardState, k: Key, e: EntryData)
    requires Agrees(s, {})
    ensures var r := Insert(s, k, e);
            var replaced := if r.replaced.Some? then r.replaced.value.core.size else 0;
            r.after.size == s.size + e.core.size - BytesOf(r.evicted) - replaced
  {
    InsertConserves(s, k, e);
    InsertAgrees(s, k, e);
  }

  lemma SoleEntry(m: map<Key, EntryData>, k: Key, e: EntryData)
    requires m.Keys <= {k}
    ensures m[k := e] == map[k := e]
  {
    assert m[k := e].Keys == {k};
  }

  // The bound on the bytes holds after an insert exactly if the new entry fits on its own;
  // an entry that does not fit is left alone in the shard.
  lemma InsertCapacity(s: ShardState, k: Key, e: EntryData)
    requires Agrees(s, {})
    ensures var t := Insert(s, k, e).after;
            && (t.size <= t.capacity <==> e.core.size <= s.capacity)
            && (e.core.size > s.capacity ==> t.entries == map[k := e])
  {
    MakeRoomLaws(s, k, e);
    var room := MakeRoom(s, k, e).after;
    BytesPositive(room.entries, {k});
    assert Insert(s, k, e).after.size == room.size + e.core.size;
    if e.core.size > s.capacity {
      SoleEntry(room.entries, k, e);
    }
  }

  // Entries go in priority order: a critical entry goes after every standard and volatile one, and
  // a standard entry after every volatile one, the inserted key excepted.
  lemma InsertIsStratified(s: ShardState, k: Key, e: EntryData)
    requires Agrees(s, {})
    ensures var ev := Insert(s, k, e).evicted;
            forall i, x {:trigger ev[i], s.entries[x]} :: 0 <= i < |ev| && x in s.entries && x != k ==>
              && (ev[i].entry.core.policy.Critical? && !s.entries[x].core.policy.Critical? ==>
                    exists j :: 0 <= j < i && ev[j].key == x)
              && (ev[i].entry.core.policy.Standard? && s.entries[x].core.policy.Volatile? ==>
                    exists j :: 0 <= j < i && ev[j].key == x)
  {
    DetachedAgrees(s, k);
    EvictUntilIsStratified(Detached(s, k), e.core.size, 2, {k});
    var ev := Insert(s, k, e).evicted;
    forall i, x {:trigger ev[i], s.entries[x]} |
        0 <= i < |ev| && x in s.entries && x != k && Outranks(ev[i].entry.core, s.entries[x].core)
      ensures exists j :: 0 <= j < i && ev[j].key == x
    {
      assert x in KeysOf(ev[..i]);
    }
  }

  lemma InsertIsMinimal(s: ShardState, k: Key, e: EntryData, i: nat)
    requires Agrees(s, {}) && i < |Insert(s, k, e).evicted|
    ensures Detached(s, k).size - BytesOf(Insert(s, k, e).evicted[..i]) + e.core.size > s.capacity
  {
    DetachedIsFiled(s, k);
    EvictUntilIsMinimal(Detached(s, k), e.core.size, 2, i);
  }

  // ----- the other operations -----

  lemma RemoveAgrees(s: ShardState, k: Key)
    requires Agrees(s, {})
    ensures Agrees(Remove(s, k), {})
    ensures k in s.entries ==> TakenOut(s, s.entries[k].core.policy.Index(), k, Remove(s, k))
    ensures k !in s.entries ==> Remove(s, k) == s
  {
    if k in s.entries {
      var p := s.entries[k].core.policy.Index();
      assert InItsBucket(s, k);
      RemovedKeeps(s.buckets[p], k);
      TakenOutAgrees(s, p, k, Remove(s, k), {});
    } else {
      assert s.entries - {k} == s.entries;
    }
  }

  lemma RemoveConserves(s: ShardState, k: Key)
    requires Agrees(s, {})
    ensures Cores(Remove(s, k).entries) == Cores(s.entries) - {k}
    ensures Remove(s, k).size == s.size - if k in s.entries then s.entries[k].core.size else 0
  {
    CoresWithout(s.entries, Remove(s, k).entries, {k});
  }

  // The same entries in the same buckets, with any clock bits and frequencies.
  ghost predicate OnlySignalsDiffer(s: ShardState, t: ShardState) {
    && t == s.(entries := t.entries) && t.entries.Keys == s.entries.Keys
    && forall k {:trigger t.entries[k]} {:trigger s.entries[k]} :: k in s.entries ==>
         t.entries[k].core == s.entries[k].core
  }

  lemma SignalsKeepIndex(s: ShardState, t: ShardState)
    requires Filed(s) && Indexed(s, {}) && OnlySignalsDiffer(s, t)
    ensures Filed(t) && Indexed(t, {})
  {
    forall x | x in t.entries
      ensures InItsBucket(t, x)
    {
      assert InItsBucket(s, x);
    }
  }

  // Neither lookups nor anything else that changes no more than the signals can break the shard.
  lemma SignalsKeepInv(s: ShardState, t: ShardState)
    requires ShardInv(s) && OnlySignalsDiffer(s, t)
    ensures ShardInv(t)
  {
    SignalsKeepIndex(s, t);
    BytesSame(s.entries, t.entries, {}, {});
  }

  lemma TouchAgrees(s: ShardState, k: Key)
    requires Agrees(s, {})
    ensures Agrees(Touch(s, k), {})
  {
    SignalsKeepIndex(s, Touch(s, k));
    BytesSame(s.entries, Touch(s, k).entries, {}, {});
  }

  lemma NewAgrees(capacity: int)
    ensures Agrees(New(capacity), {})
  {
    BytesPositive(map[], {});
  }

  // ----- the invariant -----

  lemma NewInv(capacity: nat)
    ensures ShardInv(New(capacity))
  {
    NewAgrees(capacity);
  }

  lemma InsertKeepsInv(s: ShardState, k: Key, e: EntryData)
    requires ShardInv(s)
    ensures ShardInv(Insert(s, k, e).after)
  {
    InsertAgrees(s, k, e);
    InsertCapacity(s, k, e);
    OnlyKey(Insert(s, k, e).after.entries, k);
  }

  lemma RemoveKeepsInv(s: ShardState, k: Key)
    requires ShardInv(s)
    ensures ShardInv(Remove(s, k))
  {
    RemoveAgrees(s, k);
    if k in s.entries {
      BytesPositive(s.entries, {});
      if s.size > s.capacity {
        OnlyKey(s.entries, k);
        BytesPositive(Remove(s, k).entries, {});
      }
    }
  }

  lemma TouchKeepsInv(s: ShardState, k: Key)
    requires ShardInv(s)
    ensures ShardInv(Touch(s, k))
  {
    SignalsKeepInv(s, Touch(s, k));
  }
}
