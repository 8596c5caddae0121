// The shard as the program keeps it: entries and buckets updated in place.
module Shards {
  import opened Types
  import opened Buckets
  import opened ShardModel
  import opened Sweeps
  import opened Evictions
  import opened ShardLaws

  class Entry {
    // The key the entry was made for; no two keys share an entry.
    ghost const key: Key
    const core: Core
    var frequency: U8
    var clockBit: bool

    function State(): EntryData
      reads this
    {
      EntryData(core, frequency, clockBit)
    }

    constructor (ghost key: Key, core: Core)
      ensures this.key == key && State() == Fresh(core)
      ensures this.core == core && frequency == 0 && !clockBit
    {
      this.key := key;
      this.core := core;
      frequency := 0;
      clockBit := false;
    }
  }

  datatype EvictedEntry = EvictedEntry(key: Key, entry: Entry)
  {
    function State(): Evicted
      reads entry
    {
      Evicted(key, entry.State())
    }
  }

  datatype EvictionStats = EvictionStats(count: nat, size: U64)

  class Shard {
    var entries: map<Key, Entry>
    const buckets: seq<PolicyBucket>
    var sizeCurrent: U64
    const sizeCapacity: U64

    // The number of the shard in its cache.
    ghost const id: nat

    // What the shard holds, as a value; the entry objects it owns; and how many entries all
    // its sweeps together have examined.
    ghost var state: ShardState
    ghost var cells: set<Entry>
    ghost var examined: nat

    // The fields hold what `state` says, in objects that are all different.
    ghost predicate Linked()
      reads this, buckets, cells
    {
      && |buckets| == 3 && |state.buckets| == 3
      && (forall p {:trigger buckets[p]} :: 0 <= p < 3 ==>
            buckets[p].id == 3 * id + p && buckets[p].State() == state.buckets[p])
      && entries.Keys == state.entries.Keys
      && (forall k {:trigger entries[k]} :: k in entries ==>
            entries[k] in cells && entries[k].key == k && entries[k].State() == state.entries[k])
      && sizeCurrent == state.size
      && sizeCapacity == state.capacity
    }

    ghost predicate Valid()
      reads this, buckets, cells
    {
      Linked() && ShardInv(state)
    }

    // Nothing the shard consists of has changed.
    twostate predicate Untouched()
      reads this, buckets, cells
    {
      unchanged(this) && unchanged(buckets) && unchanged(cells)
    }

    twostate lemma UntouchedStaysLinked()
      requires old(Linked()) && Untouched()
      ensures Linked() && state == old(state)
    {
    }

    constructor (ghost id: nat, sizeCapacity: U64)
      ensures fresh(buckets)
      ensures Valid() && cells == {}
      ensures this.id == id && state == New(sizeCapacity)
      ensures this.sizeCapacity == sizeCapacity && sizeCurrent == 0 && entries == map[]
      ensures examined == 0
    {
      this.id := id;
      var critical := new PolicyBucket(3 * id);
      var standard := new PolicyBucket(3 * id + 1);
      var volatile := new PolicyBucket(3 * id + 2);
      entries := map[];
      cells := {};
      buckets := [critical, standard, volatile];
      sizeCurrent := 0;
      this.sizeCapacity := sizeCapacity;
      state := New(sizeCapacity);
      examined := 0;
      NewInv(sizeCapacity);
    }

    // ----- one sweep -----

    // Examines one entry, and ages it unless it is cold.
    method Examine(key: Key) returns (cold: bool)
      requires Linked() && key in entries
      modifies entries[key], this`state, this`examined
      ensures Linked()
      ensures cold == old(state).entries[key].Cold()
      ensures state == if cold then old(state)
                       else old(state).(entries := old(state).entries[key := old(state).entries[key].Aged()])
      ensures examined == old(examined) + 1
      // In fields: a set bit is cleared, or else the frequency counted down.
      ensures cold == (old(!entries[key].clockBit) && old(entries[key].frequency) == 0)
      ensures entries[key].clockBit == false
      ensures entries[key].frequency ==
              if cold || old(entries[key].clockBit) then old(entries[key].frequency)
              else old(entries[key].frequency) - 1
    {
      examined := examined + 1;
      var entry := entries[key];
      if entry.clockBit {
        cold := false;
        entry.clockBit := false;
      } else if entry.frequency == 0 {
        return true;
      } else {
        cold := false;
        entry.frequency := entry.frequency - 1;
      }
      state := state.(entries := state.entries[key := state.entries[key].Aged()]);
    }

    // One turn of a sweep's loop: examines the entry at the hand, d steps into the sweep of s.
    method SweepStep(policyIdx: nat, hand: nat, ghost s: ShardState, ghost d: nat)
      returns (cold: bool, ghost next: nat)
      requires Linked() && Passing(s, policyIdx, d, hand, state) && d < |s.buckets[policyIdx].list|
      modifies cells, this`state, this`examined
      ensures Linked() && examined == old(examined) + 1
      ensures cold ==> SweptOut(s, policyIdx, d, hand, state)
      ensures !cold ==> Passing(s, policyIdx, d + 1, next, state)
      ensures next == if hand + 1 >= |s.buckets[policyIdx].list| then 0 else hand + 1
    {
      next := if hand + 1 >= |s.buckets[policyIdx].list| then 0 else hand + 1;
      EntryAtHand(s, policyIdx, d, hand, state);
      assert buckets[policyIdx].State() == s.buckets[policyIdx];
      var key := buckets[policyIdx].list[hand];
      if s.entries[key].Cold() {
        PassingStops(s, policyIdx, d, hand, state);
      } else {
        PassingGoesOn(s, policyIdx, d, hand, state);
      }
      cold := Examine(key);
    }

    // The loop of a sweep: ages entries from the hand on until it meets a cold one.
    method Sweep(policyIdx: nat) returns (hand: nat, passed: nat)
      requires Linked() && Sweepable(state, policyIdx)
      modifies cells, this`state, this`examined
      ensures Linked()
      ensures SweptOut(old(state), policyIdx, passed, hand, state)
      ensures var bucketLen := |old(state).buckets[policyIdx].list|;
              examined == old(examined) + if passed < bucketLen then passed + 1 else passed
    {
      ghost var s := state;
      PassingStarts(s, policyIdx);
      assert buckets[policyIdx].State() == s.buckets[policyIdx];
      var bucketLen := |buckets[policyIdx].list|;
      hand := buckets[policyIdx].hand;
      passed := 0;
      ghost var next := hand;
      while passed < bucketLen
        invariant passed <= bucketLen && hand == next
        invariant Linked()
        invariant Passing(s, policyIdx, passed, next, state)
        invariant examined == old(examined) + passed
      {
        var cold;
        cold, next := SweepStep(policyIdx, hand, s, passed);
        if cold {
          return;
        }
        hand := hand + 1;
        if hand >= bucketLen {
          hand := 0;
        }
        passed := passed + 1;
      }
      PassingStops(s, policyIdx, passed, hand, state);
    }

    // Takes an entry out of the map, out of a bucket and out of the byte count.
    method TakeOut(policyIdx: nat, key: Key) returns (entry: Entry)
      requires Linked() && policyIdx < 3 && key in entries
      requires entries[key].core.size <= sizeCurrent
      modifies this`entries, this`cells, this`sizeCurrent, this`state, buckets[policyIdx]
      ensures Linked() && examined == old(examined)
      ensures entry == old(entries[key]) && cells == old(cells) - {entry}
      ensures entry.key == key && entry.State() == old(state).entries[key]
      ensures state == ShardState(
                old(state).entries - {key},
                old(state).buckets[policyIdx := old(state).buckets[policyIdx].Removed(key)],
                old(state).size - entry.core.size,
                old(state).capacity)
    {
      entry := entries[key];
      entries := entries - {key};
      cells := cells - {entry};
      var _ := buckets[policyIdx].Remove(key);
      sizeCurrent := sizeCurrent - entry.core.size;
      state := ShardState(state.entries - {key},
                          state.buckets[policyIdx := state.buckets[policyIdx].Removed(key)],
                          state.size - entry.core.size, state.capacity);
    }

    // Puts the hand of a bucket on a slot and evicts the entry there.
    method EvictAt(policyIdx: nat, hand: nat) returns (r: EvictedEntry)
      requires Linked() && SlotHasEntry(state, policyIdx, hand)
      requires EvictSlot(state, policyIdx, hand).victim.entry.core.size <= sizeCurrent
      modifies this`entries, this`cells, this`sizeCurrent, this`state, buckets[policyIdx]
      ensures Linked() && examined == old(examined)
      ensures r.entry.key == r.key && r.entry in old(cells) && cells == old(cells) - {r.entry}
      ensures r.State() == EvictSlot(old(state), policyIdx, hand).victim
      ensures state == EvictSlot(old(state), policyIdx, hand).after
    {
      buckets[policyIdx].hand := hand;
      state := state.(buckets := state.buckets[policyIdx := Bucket(state.buckets[policyIdx].list, hand)]);
      var key := buckets[policyIdx].list[hand];
      var entry := TakeOut(policyIdx, key);
      r := EvictedEntry(key, entry);
    }

    // Evicts one entry of a bucket; fails only on an empty bucket.
    method EvictFromBucket(policyIdx: nat) returns (r: Option<EvictedEntry>)
      requires Linked() && Filed(state) && policyIdx < 3
      requires forall k :: k in state.buckets[policyIdx].list ==> state.entries[k].core.size <= sizeCurrent
      modifies this, buckets, cells
      ensures Linked()
      ensures old(state).buckets[policyIdx].list == [] ==>
                r.None? && state == old(state) && cells == old(cells) && examined == old(examined)
      ensures old(state).buckets[policyIdx].list != [] ==>
                var e := EvictFrom(old(state), policyIdx);
                && r.Some? && r.value.State() == e.victim && r.value.entry.key == r.value.key
                && r.value.entry in old(cells) && cells == old(cells) - {r.value.entry}
                && state == e.after
                && examined == old(examined) + e.examined
    {
      assert buckets[policyIdx].State() == state.buckets[policyIdx];
      if |buckets[policyIdx].list| == 0 {
        return None;
      }
      var hand := SweepToVictim(policyIdx, EvictFrom(state, policyIdx));
      // A cold entry, or a forced eviction: either way the entry at the hand goes.
      var evicted := EvictAt(policyIdx, hand);
      r := Some(evicted);
    }

    // The sweep, in terms of the eviction it is for.
    method SweepToVictim(policyIdx: nat, ghost e: Eviction) returns (hand: nat)
      requires Linked() && Filed(state) && policyIdx < 3 && state.buckets[policyIdx].list != []
      requires forall k :: k in state.buckets[policyIdx].list ==> state.entries[k].core.size <= sizeCurrent
      requires e == EvictFrom(state, policyIdx)
      modifies cells, this`state, this`examined
      ensures Linked() && SlotHasEntry(state, policyIdx, hand)
      ensures EvictSlot(state, policyIdx, hand) == SlotEviction(e.victim, e.after)
      ensures examined == old(examined) + e.examined
      ensures e.victim.entry.core.size <= sizeCurrent
    {
      ghost var s := state;
      var passed;
      hand, passed := Sweep(policyIdx);
      SweptThenEvicted(s, policyIdx, passed, hand, state);
    }

    // ----- eviction until there is room -----

    // The evicted objects hold what `ev` says, and are no longer the shard's.
    ghost predicate Holds(evicted: seq<EvictedEntry>, ev: seq<Evicted>)
      reads this, set e | e in evicted :: e.entry
    {
      && |evicted| == |ev|
      && (forall i {:trigger evicted[i]} {:trigger ev[i]} :: 0 <= i < |ev| ==>
            evicted[i].State() == ev[i] && evicted[i].entry.key == ev[i].key && evicted[i].entry !in cells)
    }

    lemma HoldsOneMore(evicted: seq<EvictedEntry>, ev: seq<Evicted>, r: EvictedEntry)
      requires Holds(evicted, ev) && r.entry.key == r.key && r.entry !in cells
      ensures Holds(evicted + [r], ev + [r.State()])
    {
    }

    // Evicts from a bucket onto the list of what is evicted; `more` is false if it was empty.
    method EvictOnto(p: nat, evicted: seq<EvictedEntry>, ghost ev: seq<Evicted>)
      returns (more: bool, evicted': seq<EvictedEntry>, size: U64)
      requires Linked() && Filed(state) && p < 3
      requires forall k :: k in state.buckets[p].list ==> state.entries[k].core.size <= sizeCurrent
      requires Holds(evicted, ev)
      modifies this, buckets, cells
      ensures Linked() && cells <= old(cells)
      ensures more == (old(state).buckets[p].list != [])
      ensures !more ==> state == old(state) && evicted' == evicted && Holds(evicted, ev) && examined == old(examined)
      ensures more ==>
                var e := EvictFrom(old(state), p);
                && state == e.after
                && Holds(evicted', ev + [e.victim])
                && size == e.victim.entry.core.size
                && examined == old(examined) + e.examined
    {
      var r := EvictFromBucket(p);
      if r.None? {
        return false, evicted, 0;
      }
      assert Holds(evicted, ev);
      HoldsOneMore(evicted, ev, r.value);
      return true, evicted + [r.value], r.value.entry.core.size;
    }

    // Making room is part way through the run `whole`: `ev` is evicted, of `total` bytes at first.
    ghost predicate Evicting(whole: EvictionRun, needed: U64, out: set<Key>, p: nat, before: int, total: int,
                             ev: seq<Evicted>, stats: EvictionStats)
      reads this, buckets, cells
    {
      && Linked()
      && UnderWay(whole, needed, out, p, examined - before, total, ev, stats.size, state)
      && stats.count == |ev|
    }

    // The inner loop: evicts from one bucket until there is room or the bucket is empty.
    method EmptyBucketUntilSpace(
        policyIdx: nat, neededSize: U64, evicted0: seq<EvictedEntry>, stats0: EvictionStats,
        ghost whole: EvictionRun, ghost out: set<Key>, ghost before: int, ghost total: U64, ghost ev0: seq<Evicted>)
      returns (evicted: seq<EvictedEntry>, stats: EvictionStats, ghost ev: seq<Evicted>)
      requires Evicting(whole, neededSize, out, policyIdx, before, total, ev0, stats0) && Holds(evicted0, ev0)
      modifies this, buckets, cells
      ensures Evicting(whole, neededSize, out, policyIdx, before, total, ev, stats) && Holds(evicted, ev)
      ensures cells <= old(cells)
      ensures sizeCurrent + neededSize <= sizeCapacity || state.buckets[policyIdx].list == []
    {
      evicted, stats, ev := evicted0, stats0, ev0;
      while sizeCurrent + neededSize > sizeCapacity
        invariant Evicting(whole, neededSize, out, policyIdx, before, total, ev, stats) && Holds(evicted, ev)
        invariant cells <= old(cells)
        decreases |state.buckets[policyIdx].list|
      {
        var more;
        more, evicted, stats, ev := EvictOneMore(policyIdx, neededSize, evicted, stats, whole, out, before, total, ev);
        if !more {
          break;
        }
      }
    }

    method EvictOneMore(
        policyIdx: nat, neededSize: U64, evicted: seq<EvictedEntry>, stats: EvictionStats,
        ghost whole: EvictionRun, ghost out: set<Key>, ghost before: int, ghost total: U64, ghost ev: seq<Evicted>)
      returns (more: bool, evicted': seq<EvictedEntry>, stats': EvictionStats, ghost ev': seq<Evicted>)
      requires Evicting(whole, neededSize, out, policyIdx, before, total, ev, stats) && Holds(evicted, ev)
      requires sizeCurrent + neededSize > sizeCapacity
      modifies this, buckets, cells
      ensures Evicting(whole, neededSize, out, policyIdx, before, total, ev', stats') && Holds(evicted', ev')
      ensures cells <= old(cells)
      ensures more == (old(state).buckets[policyIdx].list != [])
      ensures if more then |state.buckets[policyIdx].list| < |old(state).buckets[policyIdx].list|
              else state == old(state)
    {
      ghost var s, spent := state, examined - before;
      SweepableAt(s, policyIdx, out);
      var size: U64;
      more, evicted', size := EvictOnto(policyIdx, evicted, ev);
      if !more {
        return false, evicted', stats, ev;
      }
      ghost var e := EvictFrom(s, policyIdx);
      UnderWayOneMore(whole, neededSize, out, policyIdx, spent, total, ev, stats.size, s,
                      e, examined - before, stats.size + size);
      ev' := ev + [e.victim];
      stats' := EvictionStats(stats.count + 1, stats.size + size);
    }

    method EvictUntilSpace(neededSize: U64, ghost out: set<Key>)
      returns (stats: EvictionStats, evicted: seq<EvictedEntry>)
      requires Linked() && Agrees(state, out)
      requires sizeCurrent + neededSize < TWO_64
      modifies this, buckets, cells
      ensures Linked() && cells <= old(cells)
      ensures var r := EvictUntil(old(state), neededSize, 2);
              && state == r.after
              && Holds(evicted, r.evicted)
              && stats.count == |r.evicted| && stats.size == BytesOf(r.evicted)
              && examined == old(examined) + r.examined
    {
      ghost var whole := EvictUntil(state, neededSize, 2);
      ghost var before, total, ev := examined, sizeCurrent, [];
      stats := EvictionStats(0, 0);
      evicted := [];
      var policyIdx: nat := 2;
      while true
        invariant Evicting(whole, neededSize, out, policyIdx, before, total, ev, stats) && Holds(evicted, ev)
        invariant cells <= old(cells)
        decreases policyIdx
      {
        evicted, stats, ev :=
          EmptyBucketUntilSpace(policyIdx, neededSize, evicted, stats, whole, out, before, total, ev);
        if sizeCurrent + neededSize <= sizeCapacity || policyIdx == 0 {
          GotToEnd(whole, neededSize, policyIdx, ev, examined - before, state);
          break;
        }
        GotToNextBucket(whole, neededSize, policyIdx, ev, examined - before, state);
        policyIdx := policyIdx - 1;
      }
    }

    // ----- the operations -----

    // First half of an update; nothing if the key is absent.
    method Detach(key: Key)
      requires Linked() && Agrees(state, {})
      modifies this`sizeCurrent, this`state, buckets
      ensures Linked()
      ensures state == Detached(old(state), key)
    {
      if key in entries {
        var core := entries[key].core;
        BytesPositive(state.entries, {});
        var _ := buckets[core.policy.Index()].Remove(key);
        sizeCurrent := sizeCurrent - core.size;
        state := Detached(state, key);
      }
    }

    // Second half of an insert. The entries evicted in between stay what they are.
    method Attach(key: Key, entry: Entry, ghost evicted: seq<EvictedEntry>, ghost ev: seq<Evicted>)
      returns (replaced: Option<Entry>)
      requires Linked() && entry.key == key && entry !in cells
      requires Holds(evicted, ev) && forall i {:trigger ev[i]} :: 0 <= i < |ev| ==> ev[i].key != key
      requires sizeCurrent + entry.core.size < TWO_64
      modifies this`entries, this`cells, this`sizeCurrent, this`state, buckets
      ensures Linked()
      ensures state == Attached(old(state), key, entry.State())
      ensures key in old(entries) ==> replaced == Some(old(entries)[key])
                                      && replaced.value.State() == old(state).entries[key]
      ensures key !in old(entries) ==> replaced == None
      ensures cells <= old(cells) + {entry}
      ensures Holds(evicted, ev)
      ensures replaced.Some? ==> replaced.value !in cells
    {
      ghost var e := entry.State();
      replaced := if key in entries then Some(entries[key]) else None;
      cells := (if key in entries then cells - {entries[key]} else cells) + {entry};
      entries := entries[key := entry];
      buckets[entry.core.policy.Index()].Insert(key);
      sizeCurrent := sizeCurrent + entry.core.size;
      state := Attached(state, key, e);
    }

    // An insert, step by step as the program does it.
    method InsertInSteps(key: Key, entry: Entry)
      returns (replaced: Option<Entry>, stats: EvictionStats, evicted: seq<EvictedEntry>)
      requires Linked() && Agrees(state, {}) && entry.key == key && entry !in cells
      requires Detached(state, key).size + entry.core.size < TWO_64
      modifies this, buckets, cells
      ensures Linked() && cells <= old(cells) + {entry}
      ensures var room := MakeRoom(old(state), key, entry.State());
              && |room.after.buckets| == 3
              && state == Attached(room.after, key, entry.State())
              && (if key in room.after.entries
                  then replaced.Some? && replaced.value.State() == room.after.entries[key]
                  else replaced.None?)
              && Holds(evicted, room.evicted)
              && stats.count == |room.evicted| && stats.size == BytesOf(room.evicted)
              && examined == old(examined) + room.examined
    {
      ghost var s, e := state, entry.State();
      DetachedAgrees(s, key);
      MakeRoomLaws(s, key, e);
      Detach(key);
      stats, evicted := EvictUntilSpace(entry.core.size, {key});
      BytesPositive(state.entries, {key});
      ghost var ev := MakeRoom(s, key, e).evicted;
      EvictsOthers(s, key, e);
      replaced := Attach(key, entry, evicted, ev);
    }

    method Insert(key: Key, entry: Entry)
      returns (replaced: Option<Entry>, stats: EvictionStats, evicted: seq<EvictedEntry>)
      requires Valid() && entry.key == key && entry !in cells
      // Nothing else bounds the sum that the program computes in 64 bits.
      requires Detached(state, key).size + entry.core.size < TWO_64
      modifies this, buckets, cells
      ensures Linked() && cells <= old(cells) + {entry}
      ensures ShardInv(state)
      ensures var r := ShardModel.Insert(old(state), key, entry.State());
              && state == r.after
              && (if r.replaced.Some? then replaced.Some? && replaced.value.State() == r.replaced.value
                  else replaced.None?)
              && Holds(evicted, r.evicted)
              && stats.count == |r.evicted| && stats.size == BytesOf(r.evicted)
              && examined == old(examined) + r.examined
    {
      InsertKeepsInv(state, key, entry.State());
      replaced, stats, evicted := InsertInSteps(key, entry);
    }

    // Sets the clock bit of an entry and counts up its frequency.
    method Bump(key: Key) returns (entry: Entry)
      requires Linked() && key in entries
      modifies entries[key], this`state
      ensures Linked() && entry == entries[key]
      ensures state == Touch(old(state), key)
      ensures entry.clockBit
      ensures entry.frequency == if old(entries[key].frequency) < 255 then old(entries[key].frequency) + 1 else 255
    {
      entry := entries[key];
      entry.clockBit := true;
      if entry.frequency < 255 {
        entry.frequency := entry.frequency + 1;
      }
      state := Touch(state, key);
    }

    // Looks a key up; only a hit leaves a trace, on the entry it finds.
    method Get(key: Key) returns (found: Option<Entry>)
      requires Valid()
      modifies cells, this`state
      ensures Linked()
      ensures ShardInv(state)
      ensures state == Touch(old(state), key)
      ensures found == if key in entries then Some(entries[key]) else None
    {
      TouchKeepsInv(state, key);
      if key !in entries {
        return None;
      }
      var entry := Bump(key);
      found := Some(entry);
    }

    // Looks a key up without leaving a trace.
    method Contains(key: Key) returns (found: bool)
      requires Valid()
      ensures found == (key in state.entries)
    {
      found := key in entries;
    }

    method Remove(key: Key) returns (removed: Option<Entry>)
      requires Valid()
      modifies this, buckets
      ensures Linked() && cells <= old(cells) && examined == old(examined)
      ensures ShardInv(state)
      ensures state == ShardModel.Remove(old(state), key)
      ensures if key in old(state).entries
              then removed.Some? && removed.value.State() == old(state).entries[key] && removed.value !in cells
              else removed.None?
    {
      RemoveKeepsInv(state, key);
      if key !in entries {
        RemoveAgrees(state, key);
        return None;
      }
      var entry := RemovePresent(key);
      removed := Some(entry);
    }

    method RemovePresent(key: Key) returns (entry: Entry)
      requires Linked() && key in entries && state.size == Bytes(state.entries, {})
      modifies this, buckets
      ensures Linked() && cells == old(cells) - {entry} && examined == old(examined)
      ensures state == ShardModel.Remove(old(state), key)
      ensures entry.State() == old(state).entries[key]
    {
      BytesPositive(state.entries, {});
      entry := TakeOut(entries[key].core.policy.Index(), key);
    }

    method Clear()
      requires Linked()
      modifies this, buckets
      ensures Linked() && cells == {} && examined == old(examined)
      ensures state == Drained(old(state))
    {
      buckets[0].Clear();
      buckets[1].Clear();
      buckets[2].Clear();
      entries := map[];
      cells := {};
      sizeCurrent := 0;
      state := New(state.capacity);
    }

    // Empties the shard and hands over what it held, in no particular order.
    method Drain() returns (drained: seq<EvictedEntry>, drainedSize: U64, drainedCount: nat)
      requires Valid()
      modifies this, buckets
      ensures Linked() && cells == {} && examined == old(examined)
      ensures ShardInv(state)
      ensures state == Drained(old(state))
      ensures drainedSize == old(state).size && drainedCount == |old(state).entries|
      ensures |drained| == drainedCount
      ensures KeysOfDrained(drained) == old(state).entries.Keys
      ensures forall d :: d in drained ==>
                d.key in old(state).entries && d.State() == Evicted(d.key, old(state).entries[d.key])
    {
      drainedSize := sizeCurrent;
      drainedCount := |entries|;
      assert |entries.Keys| == |state.entries.Keys|;
      NewInv(sizeCapacity);
      drained := Listed();
      Clear();
    }

    method Listed() returns (listed: seq<EvictedEntry>)
      requires Linked()
      ensures |listed| == |entries|
      ensures KeysOfDrained(listed) == entries.Keys
      ensures forall d :: d in listed ==> d.key in entries && d.entry == entries[d.key]
    {
      listed := [];
      var rest := entries.Keys;
      while rest != {}
        invariant rest <= entries.Keys && |listed| + |rest| == |entries|
        invariant KeysOfDrained(listed) == entries.Keys - rest
        invariant forall d :: d in listed ==> d.key in entries && d.entry == entries[d.key]
      {
        var key :| key in rest;
        KeysOfDrainedAppend(listed, EvictedEntry(key, entries[key]));
        listed := listed + [EvictedEntry(key, entries[key])];
        rest := rest - {key};
      }
    }
  }

  function KeysOfDrained(drained: seq<EvictedEntry>): set<Key> {
    set d | d in drained :: d.key
  }

  lemma KeysOfDrainedAppend(drained: seq<EvictedEntry>, d: EvictedEntry)
    ensures KeysOfDrained(drained + [d]) == KeysOfDrained(drained) + {d.key}
  {
    forall k | k in KeysOfDrained(drained) + {d.key}
      ensures k in KeysOfDrained(drained + [d])
    {
      if k == d.key {
        assert (drained + [d])[|drained|] == d;
      } else {
        var e :| e in drained && e.key == k;
        assert e in drained + [d];
      }
    }
  }
}
