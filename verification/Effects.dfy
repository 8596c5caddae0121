// What the operations of a shard do to each of its structures, in terms of the structures alone.
module Effects {
  import opened Types
  import opened Buckets
  import opened ShardModel
  import opened Evictions
  import opened ShardLaws

  // t is s with the key at slot i of bucket p out of the bucket and out of the byte count.
  ghost predicate OutOfBucket(s: ShardState, p: nat, i: nat, size: int, t: ShardState)
    requires |s.buckets| == 3 && p < 3 && i < |s.buckets[p].list|
  {
    && |t.buckets| == 3
    && Vacated(s.buckets[p], i, t.buckets[p])
    && (forall q :: 0 <= q < 3 && q != p ==> t.buckets[q] == s.buckets[q])
    && t.size == s.size - size
    && t.capacity == s.capacity
  }

  lemma SlotOf(s: ShardState, k: Key, p: nat) returns (i: nat)
    requires Agrees(s, {}) && k in s.entries
    requires p == match s.entries[k].core.policy case Critical => 0 case Standard => 1 case Volatile => 2
    ensures i < |s.buckets[p].list| && s.buckets[p].list[i] == k
    ensures Vacated(s.buckets[p], i, s.buckets[p].Removed(k))
  {
    assert InItsBucket(s, k);
    i := IndexOf(s.buckets[p].list, k);
    RemovalSwaps(s.buckets[p], k, i);
  }

  // An update takes its key out of the bucket of the resident entry's policy, where the last key
  // takes its slot; the other two buckets and all entries stay as they are.
  lemma DetachEffect(s: ShardState, k: Key, p: nat) returns (i: nat)
    requires Agrees(s, {}) && k in s.entries
    requires p == match s.entries[k].core.policy case Critical => 0 case Standard => 1 case Volatile => 2
    ensures i < |s.buckets[p].list| && s.buckets[p].list[i] == k
    ensures OutOfBucket(s, p, i, s.entries[k].core.size, Detached(s, k))
    ensures Detached(s, k).entries == s.entries
  {
    i := SlotOf(s, k, p);
  }

  // A removal does the same, and takes the entry out of the map.
  lemma RemoveEffect(s: ShardState, k: Key, p: nat) returns (i: nat)
    requires Agrees(s, {}) && k in s.entries
    requires p == match s.entries[k].core.policy case Critical => 0 case Standard => 1 case Volatile => 2
    ensures i < |s.buckets[p].list| && s.buckets[p].list[i] == k
    ensures OutOfBucket(s, p, i, s.entries[k].core.size, ShardModel.Remove(s, k))
    ensures ShardModel.Remove(s, k).entries == s.entries - {k}
  {
    i := SlotOf(s, k, p);
  }

  // t is s with the entry e of a key that is in no bucket: the key goes to the end of the bucket
  // of the entry's policy.
  ghost predicate PutIn(s: ShardState, k: Key, e: EntryData, t: ShardState)
    requires |s.buckets| == 3
  {
    var p := match e.core.policy case Critical => 0 case Standard => 1 case Volatile => 2;
    && t.entries == s.entries[k := e]
    && |t.buckets| == 3
    && t.buckets[p] == Bucket(s.buckets[p].list + [k], s.buckets[p].hand)
    && (forall q :: 0 <= q < 3 && q != p ==> t.buckets[q] == s.buckets[q])
    && t.size == s.size + e.core.size
    && t.capacity == s.capacity
  }

  lemma AttachEffect(s: ShardState, k: Key, e: EntryData)
    requires Agrees(s, {k})
    ensures PutIn(s, k, e, Attached(s, k, e))
  {
    var p := e.core.policy.Index();
    assert k in s.entries ==> !InItsBucket(s, k);
    assert k !in s.buckets[p].list;
    InsertionAppends(s.buckets[p], k);
  }

  // An insert detaches its key if that is resident, lets one sweep follow the other until there
  // is room or nothing left to evict, and puts the new entry in.
  lemma InsertEffect(s: ShardState, k: Key, e: EntryData) returns (states: seq<ShardState>)
    requires Agrees(s, {})
    ensures |states| >= 1 && states[0] == if k in s.entries then Detached(s, k) else s
    ensures var r := Insert(s, k, e);
            var room := states[|states| - 1];
            && InTurn(states, e.core.size, EvictionRun(r.evicted, room, r.examined))
            && PutIn(room, k, e, r.after)
  {
    MakeRoomLaws(s, k, e);
    DetachedIsFiled(s, k);
    states := EvictUntilGoesInTurn(Detached(s, k), e.core.size, 2);
    AttachEffect(MakeRoom(s, k, e).after, k, e);
  }
}
