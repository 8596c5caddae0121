// The cache as the program keeps it: shards, counters and metrics updated in place.
module Caches {
  import opened Types
  import opened Sharding
  import opened ShardModel
  import opened Buckets
  import opened Evictions
  import opened ShardLaws
  import opened Accounting
  import opened CacheModel
  import CacheTheorems
  import opened Shards

  // The evicted objects are of the keys that were evicted.
  ghost predicate Named(evicted: seq<EvictedEntry>, ev: seq<Evicted>) {
    |evicted| == |ev| && forall j {:trigger evicted[j]} :: 0 <= j < |ev| ==> evicted[j].key == ev[j].key
  }

  lemma NamedByState(evicted: seq<EvictedEntry>, ev: seq<Evicted>)
    requires |evicted| == |ev| && forall j {:trigger evicted[j]} :: 0 <= j < |ev| ==> evicted[j].State() == ev[j]
    ensures Named(evicted, ev)
  {
  }

  lemma KeysOfAll(all: seq<EvictedEntry>, more: seq<EvictedEntry>)
    ensures KeysOfDrained(all + more) == KeysOfDrained(all) + KeysOfDrained(more)
  {
    assert forall d :: d in all + more <==> d in all || d in more;
  }

  // A clear of `c` has left `ss` in the shards, collected `all` and brought the counters, as
  // plain numbers, down to `size` and `count`.
  ghost predicate EmptiedSoFar(c: CacheState, ss: seq<ShardState>, all: seq<EvictedEntry>, size: int, count: int) {
    && size - TotalSize(ss) == c.size - TotalSize(c.shards)
    && count - TotalCount(ss) == c.count - TotalCount(c.shards)
    && KeysOfDrained(all) + AllKeys(ss) == AllKeys(c.shards)
    && |all| + TotalCount(ss) == TotalCount(c.shards)
  }

  // The shards from i on are still to be emptied.
  ghost predicate EmptiedUpTo(before: seq<ShardState>, ss: seq<ShardState>, i: nat) {
    && |ss| == |before|
    && (forall j {:trigger ss[j]} :: 0 <= j < |ss| ==> ss[j] == if j < i then Drained(before[j]) else before[j])
  }

  lemma EmptiedUpToNext(before: seq<ShardState>, ss: seq<ShardState>, i: nat)
    requires EmptiedUpTo(before, ss, i) && i < |ss|
    ensures EmptiedUpTo(before, ss[i := Drained(ss[i])], i + 1)
  {
  }

  lemma AllEmptied(before: seq<ShardState>, ss: seq<ShardState>)
    requires EmptiedUpTo(before, ss, |ss|)
    ensures ss == AllDrained(before)
  {
  }

  // What a clear has published when all shards are empty is what they held; every key that
  // was resident is in the list once.
  lemma AllAccountedFor(c: CacheState, home: Key -> nat, all: seq<EvictedEntry>, size: int, count: int)
    requires CacheInv(c, home) && EmptiedSoFar(c, AllDrained(c.shards), all, size, count)
    ensures size == c.size - TotalSize(c.shards) && count == c.count - TotalCount(c.shards)
    ensures multiset(KeyList(all)) == multiset(AllKeys(c.shards))
  {
    CacheTheorems.DrainedInv(c.shards);
    CacheTheorems.NoKeys(AllDrained(c.shards));
    CacheTheorems.KeysAreCounted(c.shards);
    KeysOfList(all);
    CacheTheorems.OnceEach(KeyList(all), AllKeys(c.shards));
  }

  lemma ClearedInSteps(c: CacheState, home: Key -> nat, all: seq<EvictedEntry>, size: int, count: int)
    requires CacheInv(c, home) && EmptiedSoFar(c, AllDrained(c.shards), all, size, count)
    ensures CacheClear(c) == CacheState(AllDrained(c.shards), size, count, NO_METRICS,
                               c.hooks.(onClear := c.hooks.onClear + multiset(KeyList(all))))
  {
    AllAccountedFor(c, home, all, size, count);
  }

  lemma KeysOfList(all: seq<EvictedEntry>)
    ensures KeySet(KeyList(all)) == KeysOfDrained(all)
  {
    forall k | k in KeysOfDrained(all)
      ensures k in KeyList(all)
    {
      var j :| 0 <= j < |all| && all[j].key == k;
      assert KeyList(all)[j] == k;
    }
  }

  lemma EmptiedOneMore(c: CacheState, ss: seq<ShardState>, i: nat, all: seq<EvictedEntry>,
                       drained: seq<EvictedEntry>, size: int, count: int)
    requires EmptiedSoFar(c, ss, all, size, count) && ShardsInv(ss) && i < |ss|
    requires |drained| == |ss[i].entries| && KeysOfDrained(drained) == ss[i].entries.Keys
    ensures ShardsInv(ss[i := Drained(ss[i])])
    ensures EmptiedSoFar(c, ss[i := Drained(ss[i])], all + drained, size - ss[i].size, count - |drained|)
  {
    CacheTheorems.ShardEmptied(ss, i);
    KeysOfAll(all, drained);
  }

  // The counters count an entry of `size` bytes that is new or takes the place of `was`.
  function WithEntry(c: CacheState, size: U64, was: Option<Core>): CacheState {
    match was
    case Some(core) =>
      c.(size := c.size + size - core.size, metrics := c.metrics.(updates := c.metrics.updates + 1))
    case None =>
      c.(size := c.size + size, count := c.count + 1, metrics := c.metrics.(inserts := c.metrics.inserts + 1))
  }

  function WithEvictions(c: CacheState, count: nat, size: int): CacheState {
    c.(size := c.size - size, count := c.count - count,
       metrics := c.metrics.(evictions := c.metrics.evictions + count))
  }

  function WithEvictHooks(c: CacheState, keys: seq<Key>): CacheState {
    c.(hooks := c.hooks.(onEvict := c.hooks.onEvict + multiset(keys)))
  }

  function CoreOf(e: Option<EntryData>): Option<Core> {
    match e case Some(was) => Some(was.core) case None => None
  }

  // An insert publishes the entry, then the evictions, then calls the hooks.
  lemma InsertedInSteps(c: CacheState, i: nat, r: InsertResult, size: U64)
    requires i < |c.shards|
    ensures var d := WithEvictions(WithEntry(c, size, CoreOf(r.replaced)), |r.evicted|, BytesOf(r.evicted));
            WithEvictHooks(d, KeySeq(r.evicted)).(shards := c.shards[i := r.after]) == InsertedInto(c, i, r, size)
  {
  }

  function KeyList(entries: seq<EvictedEntry>): seq<Key> {
    seq(|entries|, j requires 0 <= j < |entries| => entries[j].key)
  }

  lemma {:induction false} NamedKeys(evicted: seq<EvictedEntry>, ev: seq<Evicted>)
    requires Named(evicted, ev)
    ensures KeyList(evicted) == KeySeq(ev)
  {
    if ev != [] {
      NamedKeys(evicted[1..], ev[1..]);
      assert KeyList(evicted) == [evicted[0].key] + KeyList(evicted[1..]);
    }
  }

  lemma RemoveOfAbsent(shards: seq<ShardState>, i: nat, k: Key)
    requires i < |shards| && |shards[i].buckets| == 3 && k !in shards[i].entries
    ensures shards[i := ShardModel.Remove(shards[i], k)] == shards
  {
    assert shards[i].entries - {k} == shards[i].entries;
  }

  class Cache {
    const shards: seq<Shard>
    const hash: Key -> U64
    var currentSize: U64
    var entryCount: U64
    var hits: U64
    var misses: U64
    var inserts: U64
    var updates: U64
    var evictions: U64
    var removals: U64

    // The calls of lifecycle hooks so far. What the hooks do is up to the user.
    ghost var calls: Hooks

    // What the cache holds, with the counters as plain numbers.
    ghost var state: CacheState

    ghost function Home(): Key -> nat
      requires |shards| >= 1
    {
      HomeOf(hash, |shards|)
    }

    // The shards are separate and hold what `ss` says.
    ghost predicate Hold(ss: seq<ShardState>)
      reads *
    {
      && |ss| == |shards|
      && (forall i {:trigger shards[i]} :: 0 <= i < |shards| ==>
            shards[i].id == i && shards[i].Linked() && shards[i].state == ss[i])
      && (forall i, j {:trigger shards[i].cells, shards[j].cells} :: 0 <= i < j < |shards| ==>
            shards[i].cells !! shards[j].cells)
    }

    ghost predicate CountersShow(c: CacheState)
      reads this
    {
      && currentSize == Wrap(c.size)
      && entryCount == Wrap(c.count)
      && hits == Wrap(c.metrics.hits)
      && misses == Wrap(c.metrics.misses)
      && inserts == Wrap(c.metrics.inserts)
      && updates == Wrap(c.metrics.updates)
      && evictions == Wrap(c.metrics.evictions)
      && removals == Wrap(c.metrics.removals)
      && calls == c.hooks
    }

    ghost predicate CountersLinked()
      reads this
    {
      CountersShow(state)
    }

    ghost predicate Linked()
      reads *
    {
      |shards| >= 1 && Hold(state.shards) && CountersLinked()
    }

    ghost predicate Valid()
      reads *
    {
      Linked() && CacheInv(state, Home())
    }

    // No object belongs to two shards.
    lemma Separate(ss: seq<ShardState>, i: nat, j: nat)
      requires Hold(ss) && i < |shards| && j < |shards| && i != j
      ensures shards[i] != shards[j]
      ensures forall b :: b in shards[j].buckets ==> b !in shards[i].buckets
      ensures shards[i].cells !! shards[j].cells
    {
      assert shards[i].Linked() && shards[j].Linked();
      forall b | b in shards[j].buckets
        ensures b !in shards[i].buckets
      {
        var p :| 0 <= p < 3 && shards[j].buckets[p] == b;
        assert forall q :: 0 <= q < 3 ==> shards[i].buckets[q].id == 3 * i + q;
      }
      if i < j {
        assert shards[i].cells !! shards[j].cells;
      } else {
        assert shards[j].cells !! shards[i].cells;
      }
    }

    ghost predicate Apart(i: nat)
      requires i < |shards|
      reads *
    {
      forall j {:trigger shards[j]} :: 0 <= j < |shards| && j != i ==>
        && shards[i] != shards[j] && shards[i].cells !! shards[j].cells
        && forall b :: b in shards[j].buckets ==> b !in shards[i].buckets
    }

    lemma IsApart(ss: seq<ShardState>, i: nat)
      requires Hold(ss) && i < |shards|
      ensures Apart(i)
    {
      forall j {:trigger shards[j]} | 0 <= j < |shards| && j != i
        ensures shards[i] != shards[j] && shards[i].cells !! shards[j].cells
        ensures forall b :: b in shards[j].buckets ==> b !in shards[i].buckets
      {
        Separate(ss, i, j);
      }
    }

    // The other shards are as they were, and still apart from shard i.
    twostate predicate OthersUntouched(i: nat)
      requires i < |shards|
      reads *
    {
      forall j {:trigger shards[j]} :: 0 <= j < |shards| && j != i ==>
        shards[j].Untouched() && shards[i].cells !! shards[j].cells
    }

    // ----- construction -----

    static method NewShards(sizePerShard: U64, shardCount: nat) returns (shards: seq<Shard>)
      ensures |shards| == shardCount
      ensures forall i {:trigger shards[i]} :: 0 <= i < shardCount ==>
                fresh(shards[i]) && fresh(shards[i].buckets) && shards[i].id == i
                && shards[i].Linked() && shards[i].state == New(sizePerShard) && shards[i].cells == {}
                && shards[i].sizeCapacity == sizePerShard && shards[i].entries == map[]
    {
      shards := [];
      for n := 0 to shardCount
        invariant |shards| == n
        invariant forall i {:trigger shards[i]} :: 0 <= i < n ==>
                    fresh(shards[i]) && fresh(shards[i].buckets) && shards[i].id == i
                    && shards[i].Linked() && shards[i].state == New(sizePerShard) && shards[i].cells == {}
                    && shards[i].sizeCapacity == sizePerShard && shards[i].entries == map[]
      {
        var shard := new Shard(n, sizePerShard);
        shards := shards + [shard];
      }
    }

    // An equal part of the capacity for each shard, rounded down.
    constructor (maxSize: U64, shardCount: nat, hash: Key -> U64)
      requires shardCount >= 1
      ensures Valid() && fresh(shards) && fresh(AllBuckets())
      ensures this.hash == hash && |shards| == shardCount
      ensures state == NewCache(maxSize, shardCount)
      ensures forall i {:trigger shards[i]} :: 0 <= i < shardCount ==>
                shards[i].sizeCapacity == maxSize / shardCount && shards[i].entries == map[]
      ensures currentSize == 0 && entryCount == 0
    {
      var empty := NewShards(maxSize / shardCount, shardCount);
      shards := empty;
      this.hash := hash;
      currentSize, entryCount := 0, 0;
      hits, misses, inserts, updates, evictions, removals := 0, 0, 0, 0, 0, 0;
      calls := Hooks(multiset{}, multiset{}, multiset{});
      state := NewCache(maxSize, shardCount);
      CacheTheorems.NewCacheInv(maxSize, shardCount, HomeOf(hash, shardCount));
    }

    // The public way to a cache: as many shards as the capacity allows, a power of two.
    static method WithShards(maxSize: U64, desired: U64, hash: Key -> U64) returns (cache: Cache)
      ensures cache.Valid() && fresh(cache) && fresh(cache.shards) && fresh(cache.AllBuckets())
      ensures var shardCount := ComputeShardCount(maxSize, desired);
              && shardCount >= 1 && |cache.shards| == shardCount
              && cache.state == NewCache(maxSize, shardCount)
              && cache.hash == hash
              && (forall i {:trigger cache.shards[i]} :: 0 <= i < shardCount ==>
                    cache.shards[i].sizeCapacity == maxSize / shardCount && cache.shards[i].entries == map[])
              && forall k {:trigger cache.Home()(k)} :: cache.Home()(k) == hash(k) % shardCount
    {
      ShardCountIsLeastPowerOfTwo(maxSize, desired);
      cache := new Cache(maxSize, ComputeShardCount(maxSize, desired), hash);
      forall k {:trigger cache.Home()(k)}
        ensures cache.Home()(k) == hash(k) % ComputeShardCount(maxSize, desired)
      {
        ShardIndexIsRemainder(hash(k), maxSize, desired);
      }
    }

    // ----- one shard at work -----

    method ShardInsert(i: nat, key: Key, entry: Entry, ghost e: EntryData)
      returns (replaced: Option<Entry>, stats: EvictionStats, evicted: seq<EvictedEntry>)
      requires i < |shards| && shards[i].Valid()
      requires entry.key == key && entry.State() == e && entry !in shards[i].cells
      requires Detached(shards[i].state, key).size + e.core.size < TWO_64
      modifies shards[i], shards[i].buckets, shards[i].cells
      ensures shards[i].Linked() && shards[i].cells <= old(shards[i].cells) + {entry}
      ensures var r := ShardModel.Insert(old(shards[i].state), key, e);
              && shards[i].state == r.after
              && (if r.replaced.Some? then replaced.Some? && replaced.value.core == r.replaced.value.core
                  else replaced.None?)
              && stats.count == |r.evicted| && stats.size == BytesOf(r.evicted)
              && Named(evicted, r.evicted)
    {
      ghost var r := ShardModel.Insert(shards[i].state, key, e);
      replaced, stats, evicted := shards[i].Insert(key, entry);
      NamedByState(evicted, r.evicted);
    }

    method InsertIntoShard(i: nat, key: Key, entry: Entry, ghost e: EntryData)
      returns (replaced: Option<Entry>, stats: EvictionStats, evicted: seq<EvictedEntry>)
      requires i < |shards| && Hold(state.shards) && ShardInv(state.shards[i])
      requires entry.key == key && entry.State() == e
      requires forall j {:trigger shards[j]} :: 0 <= j < |shards| ==> entry !in shards[j].cells
      requires Detached(state.shards[i], key).size + e.core.size < TWO_64
      modifies shards[i], shards[i].buckets, shards[i].cells
      ensures var r := ShardModel.Insert(state.shards[i], key, e);
              && Hold(state.shards[i := r.after])
              && (if r.replaced.Some? then replaced.Some? && replaced.value.core == r.replaced.value.core
                  else replaced.None?)
              && stats.count == |r.evicted| && stats.size == BytesOf(r.evicted)
              && Named(evicted, r.evicted)
    {
      IsApart(state.shards, i);
      replaced, stats, evicted := ShardInsert(i, key, entry, e);
      assert OthersUntouched(i);
      forall j | 0 <= j < |shards| && j != i
        ensures shards[j].id == j && shards[j].Linked() && shards[j].state == state.shards[j]
      {
        shards[j].UntouchedStaysLinked();
      }
      forall j, k | 0 <= j < k < |shards|
        ensures shards[j].cells !! shards[k].cells
      {
        if j != i && k != i {
          assert old(shards[j].cells !! shards[k].cells);
        }
      }
    }

    method ShardRemove(i: nat, key: Key) returns (removed: Option<Entry>)
      requires i < |shards| && Hold(state.shards) && ShardInv(state.shards[i])
      modifies shards[i], shards[i].buckets
      ensures shards[i].Linked() && shards[i].id == i && OthersUntouched(i)
      ensures shards[i].state == ShardModel.Remove(state.shards[i], key)
      ensures if key in state.shards[i].entries
              then removed.Some? && removed.value.State() == state.shards[i].entries[key]
              else removed.None?
    {
      IsApart(state.shards, i);
      assert shards[i].Linked();
      removed := shards[i].Remove(key);
    }

    method RemoveFromShard(i: nat, key: Key) returns (removed: Option<Entry>)
      requires i < |shards| && Hold(state.shards) && ShardInv(state.shards[i])
      modifies shards[i], shards[i].buckets
      ensures Filed(state.shards[i]) && Hold(state.shards[i := ShardModel.Remove(state.shards[i], key)])
      ensures if key in state.shards[i].entries
              then removed.Some? && removed.value.State() == state.shards[i].entries[key]
              else removed.None?
    {
      removed := ShardRemove(i, key);
      forall j | 0 <= j < |shards| && j != i
        ensures shards[j].id == j && shards[j].Linked() && shards[j].state == state.shards[j]
      {
        shards[j].UntouchedStaysLinked();
      }
      forall j, k | 0 <= j < k < |shards|
        ensures shards[j].cells !! shards[k].cells
      {
        if j != i && k != i {
          assert old(shards[j].cells !! shards[k].cells);
        }
      }
    }

    method ShardGet(i: nat, key: Key) returns (found: Option<Entry>)
      requires i < |shards| && Hold(state.shards) && ShardInv(state.shards[i])
      modifies shards[i], shards[i].cells
      ensures shards[i].Linked() && shards[i].id == i && OthersUntouched(i)
      ensures shards[i].state == Touch(state.shards[i], key)
      ensures if key in state.shards[i].entries
              then found.Some? && found.value.core == state.shards[i].entries[key].core
              else found.None?
    {
      IsApart(state.shards, i);
      assert shards[i].Linked();
      found := shards[i].Get(key);
    }

    method GetFromShard(i: nat, key: Key) returns (found: Option<Entry>)
      requires i < |shards| && Hold(state.shards) && ShardInv(state.shards[i])
      modifies shards[i], shards[i].cells
      ensures Hold(state.shards[i := Touch(state.shards[i], key)])
      ensures if key in state.shards[i].entries
              then found.Some? && found.value.core == state.shards[i].entries[key].core
              else found.None?
    {
      found := ShardGet(i, key);
      forall j | 0 <= j < |shards| && j != i
        ensures shards[j].id == j && shards[j].Linked() && shards[j].state == state.shards[j]
      {
        shards[j].UntouchedStaysLinked();
      }
      forall j, k | 0 <= j < k < |shards|
        ensures shards[j].cells !! shards[k].cells
      {
        if j != i && k != i {
          assert old(shards[j].cells !! shards[k].cells);
        }
      }
    }

    method ShardDrain(i: nat, ghost ss: seq<ShardState>)
      returns (drained: seq<EvictedEntry>, size: U64, count: nat)
      requires i < |shards| && Hold(ss) && ShardInv(ss[i])
      modifies shards[i], shards[i].buckets
      ensures shards[i].Linked() && shards[i].id == i && OthersUntouched(i)
      ensures shards[i].state == Drained(ss[i])
      ensures size == ss[i].size && count == |ss[i].entries| == |drained|
      ensures KeysOfDrained(drained) == ss[i].entries.Keys
    {
      IsApart(ss, i);
      assert shards[i].Linked();
      drained, size, count := shards[i].Drain();
    }

    method DrainOfShard(i: nat, ghost ss: seq<ShardState>)
      returns (drained: seq<EvictedEntry>, size: U64, count: nat)
      requires i < |shards| && Hold(ss) && ShardInv(ss[i])
      modifies shards[i], shards[i].buckets
      ensures Hold(ss[i := Drained(ss[i])])
      ensures size == ss[i].size && count == |ss[i].entries| == |drained|
      ensures KeysOfDrained(drained) == ss[i].entries.Keys
    {
      drained, size, count := ShardDrain(i, ss);
      forall j | 0 <= j < |shards| && j != i
        ensures shards[j].id == j && shards[j].Linked() && shards[j].state == ss[j]
      {
        shards[j].UntouchedStaysLinked();
      }
      forall j, k | 0 <= j < k < |shards|
        ensures shards[j].cells !! shards[k].cells
      {
        if j != i && k != i {
          assert old(shards[j].cells !! shards[k].cells);
        }
      }
    }

    // ----- publishing -----

    // The counters for the entry an insert has put in, in place of `was` or of nothing.
    method PublishEntry(size: U64, replaced: Option<Entry>, ghost ss: seq<ShardState>)
      requires CountersLinked() && Hold(ss)
      modifies this
      ensures CountersLinked() && Hold(ss)
      ensures state == WithEntry(old(state), size, match replaced case Some(was) => Some(was.core) case None => None)
    {
      match replaced
      case Some(was) =>
        var update := ReplaceUpdate(size, was.core.size);
        ReplaceUpdateIsExact(size, was.core.size);
        WrapLater(state.size, SizeEffect(update), size - was.core.size);
        currentSize := Wrap(currentSize + SizeEffect(update));
        WrapLater(state.metrics.updates, 1, 1);
        updates := Wrap(updates + 1);
        state := WithEntry(state, size, Some(was.core));
      case None =>
        WrapLater(state.size, size, size);
        currentSize := Wrap(currentSize + size);
        WrapLater(state.count, 1, 1);
        entryCount := Wrap(entryCount + 1);
        WrapLater(state.metrics.inserts, 1, 1);
        inserts := Wrap(inserts + 1);
        state := WithEntry(state, size, None);
    }

    // The counters for what an insert has evicted.
    method PublishEvictions(stats: EvictionStats, ghost ss: seq<ShardState>)
      requires CountersLinked() && Hold(ss)
      requires stats.count == 0 ==> stats.size == 0
      modifies this
      ensures CountersLinked() && Hold(ss)
      ensures state == WithEvictions(old(state), stats.count, stats.size)
    {
      if stats.count > 0 {
        WrapLater(state.count, 0 - stats.count, 0 - stats.count);
        entryCount := Wrap(entryCount - stats.count);
        WrapLater(state.size, 0 - stats.size, 0 - stats.size);
        currentSize := Wrap(currentSize - stats.size);
        WrapLater(state.metrics.evictions, stats.count, stats.count);
        evictions := Wrap(evictions + stats.count);
      }
      state := WithEvictions(state, stats.count, stats.size);
    }

    method OnEvict(evicted: seq<EvictedEntry>, ghost ss: seq<ShardState>)
      requires CountersLinked() && Hold(ss)
      modifies this`calls, this`state
      ensures CountersLinked() && Hold(ss)
      ensures state == WithEvictHooks(old(state), KeyList(evicted))
    {
      ghost var keys := KeyList(evicted);
      for j := 0 to |evicted|
        modifies this`calls
        invariant calls == old(calls).(onEvict := old(calls).onEvict + multiset(keys[..j]))
      {
        assert keys[..j + 1] == keys[..j] + [evicted[j].key];
        calls := calls.(onEvict := calls.onEvict + multiset{evicted[j].key});
      }
      assert keys[..|evicted|] == keys;
      state := state.(hooks := calls);
    }

    // What an insert does after it has let go of the shard's lock.
    method PublishInsert(size: U64, replaced: Option<Entry>, stats: EvictionStats, evicted: seq<EvictedEntry>,
                         ghost i: nat, ghost r: InsertResult)
      requires CountersLinked() && i < |state.shards| && Hold(state.shards[i := r.after])
      requires if r.replaced.Some? then replaced.Some? && replaced.value.core == r.replaced.value.core
               else replaced.None?
      requires stats.count == |r.evicted| && stats.size == BytesOf(r.evicted) && Named(evicted, r.evicted)
      modifies this
      ensures CountersLinked()
      ensures state == InsertedInto(old(state), i, r, size)
      ensures Hold(state.shards)
    {
      InsertedInSteps(state, i, r, size);
      NamedKeys(evicted, r.evicted);
      ghost var ss := state.shards[i := r.after];
      assert stats.count == 0 ==> r.evicted == [];
      PublishEntry(size, replaced, ss);
      PublishEvictions(stats, ss);
      OnEvict(evicted, ss);
      Settle(ss);
    }

    // The counters, while the lock is held, and the hook of a removal.
    method PublishRemoval(key: Key, size: U64, ghost ss: seq<ShardState>)
      requires CountersLinked() && Hold(ss)
      modifies this
      ensures CountersLinked() && Hold(ss)
      ensures state == old(state).(
                size := old(state).size - size,
                count := old(state).count - 1,
                metrics := old(state).metrics.(removals := old(state).metrics.removals + 1),
                hooks := old(state).hooks.(onRemove := old(state).hooks.onRemove + multiset{key}))
    {
      WrapLater(state.size, 0 - size, 0 - size);
      currentSize := Wrap(currentSize - size);
      WrapLater(state.count, -1, -1);
      entryCount := Wrap(entryCount - 1);
      WrapLater(state.metrics.removals, 1, 1);
      removals := Wrap(removals + 1);
      calls := calls.(onRemove := calls.onRemove + multiset{key});
      state := state.(size := state.size - size, count := state.count - 1,
                      metrics := state.metrics.(removals := state.metrics.removals + 1), hooks := calls);
    }

    method CountLookup(hit: bool, ghost ss: seq<ShardState>)
      requires CountersLinked() && Hold(ss)
      modifies this
      ensures CountersLinked() && Hold(ss)
      ensures state == old(state).(metrics :=
                if hit then old(state).metrics.(hits := old(state).metrics.hits + 1)
                else old(state).metrics.(misses := old(state).metrics.misses + 1))
    {
      if hit {
        WrapLater(state.metrics.hits, 1, 1);
        hits := Wrap(hits + 1);
        state := state.(metrics := state.metrics.(hits := state.metrics.hits + 1));
      } else {
        WrapLater(state.metrics.misses, 1, 1);
        misses := Wrap(misses + 1);
        state := state.(metrics := state.metrics.(misses := state.metrics.misses + 1));
      }
    }

    ghost method Become(c: CacheState)
      requires CountersShow(c) && Hold(c.shards)
      modifies this`state
      ensures CountersLinked() && Hold(c.shards) && state == c
    {
      state := c;
    }

    ghost method Settle(ss: seq<ShardState>)
      requires CountersLinked() && Hold(ss)
      modifies this`state
      ensures CountersLinked() && Hold(ss)
      ensures state == old(state).(shards := ss)
    {
      Become(state.(shards := ss));
    }

    // ----- the operations -----

    // The shard a key lives in.
    function HomeShard(key: Key): Shard
      requires |shards| >= 1
    {
      shards[ShardIndex(hash(key), |shards|)]
    }

    method NewEntry(key: Key, core: Core) returns (entry: Entry)
      requires Hold(state.shards)
      ensures Hold(state.shards) && fresh(entry)
      ensures entry.key == key && entry.State() == Fresh(core)
      ensures forall j {:trigger shards[j]} :: 0 <= j < |shards| ==> entry !in shards[j].cells
    {
      entry := new Entry(key, core);
    }

    method InsertInSteps(i: nat, key: Key, core: Core) returns (replaced: Option<Entry>)
      requires Linked() && i < |shards| && ShardInv(state.shards[i])
      requires Detached(state.shards[i], key).size + core.size < TWO_64
      modifies this, shards[i], shards[i].buckets, shards[i].cells
      ensures Linked()
      ensures var r := ShardModel.Insert(old(state).shards[i], key, Fresh(core));
              && state == InsertedInto(old(state), i, r, core.size)
              && (if r.replaced.Some? then replaced.Some? && replaced.value.core == r.replaced.value.core
                  else replaced.None?)
    {
      ghost var r := ShardModel.Insert(state.shards[i], key, Fresh(core));
      var entry := NewEntry(key, core);
      var stats, evicted;
      replaced, stats, evicted := InsertIntoShard(i, key, entry, Fresh(core));
      PublishInsert(core.size, replaced, stats, evicted, i, r);
    }

    method Insert(key: Key, core: Core) returns (previous: Option<Value>)
      requires Valid()
      // Nothing else bounds the sum that the program computes in 64 bits.
      requires Detached(state.shards[Home()(key)], key).size + core.size < TWO_64
      modifies this, HomeShard(key), HomeShard(key).buckets, HomeShard(key).cells
      ensures Valid()
      ensures state == CacheInsert(old(state), Home(), key, core)
      ensures previous == match Resident(old(state), Home(), key)
                          case Some(was) => Some(was.value)
                          case None => None
    {
      CacheTheorems.InsertKeepsCacheInv(state, Home(), key, core);
      CacheTheorems.InsertContents(state, Home(), key, core, key);
      var replaced := InsertInSteps(ShardIndex(hash(key), |shards|), key, core);
      previous := match replaced case Some(was) => Some(was.core.value) case None => None;
    }

    method RemoveInSteps(i: nat, key: Key) returns (removed: Option<Entry>)
      requires Linked() && i < |shards| && ShardInv(state.shards[i])
      modifies this, shards[i], shards[i].buckets
      ensures Linked()
      ensures state == RemovedFrom(old(state), i, key)
      ensures if key in old(state).shards[i].entries
              then removed.Some? && removed.value.core == old(state).shards[i].entries[key].core
              else removed.None?
    {
      ghost var ss := state.shards[i := ShardModel.Remove(state.shards[i], key)];
      removed := RemoveFromShard(i, key);
      if removed.None? {
        RemoveOfAbsent(state.shards, i, key);
        return;
      }
      PublishRemoval(key, removed.value.core.size, ss);
      Settle(ss);
    }

    method Remove(key: Key) returns (removed: Option<Value>)
      requires Valid()
      modifies this, HomeShard(key), HomeShard(key).buckets
      ensures Valid()
      ensures state == CacheRemove(old(state), Home(), key)
      ensures removed == match Resident(old(state), Home(), key)
                         case Some(was) => Some(was.value)
                         case None => None
    {
      CacheTheorems.RemoveKeepsCacheInv(state, Home(), key);
      var entry := RemoveInSteps(ShardIndex(hash(key), |shards|), key);
      removed := match entry case Some(e) => Some(e.core.value) case None => None;
    }

    method GetInSteps(i: nat, key: Key) returns (found: Option<Entry>)
      requires Linked() && i < |shards| && ShardInv(state.shards[i])
      modifies this, shards[i], shards[i].cells
      ensures Linked()
      ensures if key in old(state).shards[i].entries
              then found.Some? && found.value.core == old(state).shards[i].entries[key].core
              else found.None?
      ensures state == old(state).(
                shards := old(state).shards[i := Touch(old(state).shards[i], key)],
                metrics := if key in old(state).shards[i].entries
                           then old(state).metrics.(hits := old(state).metrics.hits + 1)
                           else old(state).metrics.(misses := old(state).metrics.misses + 1))
    {
      ghost var ss := state.shards[i := Touch(state.shards[i], key)];
      found := GetFromShard(i, key);
      CountLookup(found.Some?, ss);
      Settle(ss);
    }

    method GetClone(key: Key) returns (found: Option<Value>)
      requires Valid()
      modifies this, HomeShard(key), HomeShard(key).cells
      ensures Valid()
      ensures state == CacheLookup(old(state), Home(), key)
      ensures found == match Resident(old(state), Home(), key)
                       case Some(was) => Some(was.value)
                       case None => None
    {
      CacheTheorems.LookupKeepsCacheInv(state, Home(), key);
      var entry := GetInSteps(ShardIndex(hash(key), |shards|), key);
      found := match entry case Some(e) => Some(e.core.value) case None => None;
    }

    // Leaves no trace, neither on the entry nor in the metrics.
    method Contains(key: Key) returns (found: bool)
      requires Valid()
      ensures found == Resident(state, Home(), key).Some?
    {
      found := HomeShard(key).Contains(key);
    }

    // While a clear is at work: the shards hold `ss`, and the counters, as plain numbers, are
    // `size` and `count`.
    ghost predicate Emptying(ss: seq<ShardState>, size: int, count: int)
      reads *
    {
      Hold(ss) && currentSize == Wrap(size) && entryCount == Wrap(count)
    }

    ghost function AllBuckets(): set<PolicyBucket> {
      set s, b | s in shards && b in s.buckets :: b
    }

    lemma BucketsOfShard(i: nat)
      requires i < |shards|
      ensures shards[i] in shards && forall b :: b in shards[i].buckets ==> b in AllBuckets()
    {
    }

    method PublishDrained(size: U64, count: nat, ghost a: int, ghost b: int, ghost ss: seq<ShardState>)
      returns (ghost a': int, ghost b': int)
      requires currentSize == Wrap(a) && entryCount == Wrap(b) && Hold(ss)
      modifies this`currentSize, this`entryCount
      ensures a' == a - size && b' == b - count
      ensures currentSize == Wrap(a') && entryCount == Wrap(b') && Hold(ss)
    {
      a', b' := a - size, b - count;
      WrapLater(a, 0 - size, 0 - size);
      currentSize := Wrap(currentSize - size);
      WrapLater(b, 0 - count, 0 - count);
      entryCount := Wrap(entryCount - count);
    }

    method EmptyNext(i: nat, all: seq<EvictedEntry>, ghost ss: seq<ShardState>, ghost a: int, ghost b: int)
      returns (all': seq<EvictedEntry>, ghost a': int, ghost b': int)
      requires i < |shards| && ShardsInv(ss) && Emptying(ss, a, b) && EmptiedSoFar(state, ss, all, a, b)
      modifies this`currentSize, this`entryCount, shards, AllBuckets()
      ensures state == old(state) && calls == old(calls)
      ensures Emptying(ss[i := Drained(ss[i])], a', b')
      ensures EmptiedSoFar(state, ss[i := Drained(ss[i])], all', a', b') && ShardsInv(ss[i := Drained(ss[i])])
    {
      BucketsOfShard(i);
      var drained, size, count := DrainOfShard(i, ss);
      a', b' := PublishDrained(size, count, a, b, ss[i := Drained(ss[i])]);
      EmptiedOneMore(state, ss, i, all, drained, a, b);
      all' := all + drained;
    }

    method EmptyShards() returns (all: seq<EvictedEntry>, ghost size: int, ghost count: int)
      requires Linked() && ShardsInv(state.shards)
      modifies this`currentSize, this`entryCount, shards, AllBuckets()
      ensures state == old(state) && calls == old(calls)
      ensures Emptying(AllDrained(state.shards), size, count)
      ensures EmptiedSoFar(state, AllDrained(state.shards), all, size, count)
    {
      ghost var ss := state.shards;
      all, size, count := [], state.size, state.count;
      for i := 0 to |shards|
        invariant state == old(state) && calls == old(calls)
        invariant ShardsInv(ss) && EmptiedUpTo(state.shards, ss, i)
        invariant Emptying(ss, size, count) && EmptiedSoFar(state, ss, all, size, count)
      {
        all, size, count := EmptyNext(i, all, ss, size, count);
        EmptiedUpToNext(state.shards, ss, i);
        ss := ss[i := Drained(ss[i])];
      }
      AllEmptied(state.shards, ss);
    }

    method OnClear(all: seq<EvictedEntry>, ghost ss: seq<ShardState>)
      requires Hold(ss)
      modifies this`calls
      ensures Hold(ss)
      ensures calls == old(calls).(onClear := old(calls).onClear + multiset(KeyList(all)))
    {
      ghost var keys := KeyList(all);
      for j := 0 to |all|
        invariant calls == old(calls).(onClear := old(calls).onClear + multiset(keys[..j]))
      {
        assert keys[..j + 1] == keys[..j] + [all[j].key];
        calls := calls.(onClear := calls.onClear + multiset{all[j].key});
      }
      assert keys[..|all|] == keys;
    }

    method ResetMetrics(ghost ss: seq<ShardState>)
      requires Hold(ss)
      modifies this`hits, this`misses, this`inserts, this`updates, this`evictions, this`removals
      ensures Hold(ss)
      ensures hits == 0 && misses == 0 && inserts == 0 && updates == 0 && evictions == 0 && removals == 0
    {
      hits := 0;
      misses := 0;
      inserts := 0;
      updates := 0;
      evictions := 0;
      removals := 0;
    }

    method ClearInSteps() returns (ghost all: seq<EvictedEntry>, ghost size: int, ghost count: int)
      requires Linked() && ShardsInv(state.shards)
      modifies this, shards, AllBuckets()
      ensures EmptiedSoFar(old(state), AllDrained(old(state).shards), all, size, count)
      ensures state == CacheState(AllDrained(old(state).shards), size, count, NO_METRICS,
                old(state).hooks.(onClear := old(state).hooks.onClear + multiset(KeyList(all))))
      ensures Linked()
    {
      ghost var c := state;
      var entries;
      entries, size, count := EmptyShards();
      ResetMetrics(AllDrained(c.shards));
      OnClear(entries, AllDrained(c.shards));
      all := entries;
      Become(CacheState(AllDrained(c.shards), size, count, NO_METRICS, calls));
    }

    method Clear()
      requires Valid()
      modifies this, shards, AllBuckets()
      ensures Valid()
      ensures state == CacheClear(old(state))
    {
      CacheTheorems.ClearKeepsCacheInv(state, Home());
      ghost var c := state;
      ghost var all, size, count := ClearInSteps();
      ClearedInSteps(c, Home(), all, size, count);
    }

    // As reported, modulo 2^64.
    method Size() returns (size: U64)
      requires Valid()
      ensures size == Wrap(TotalSize(state.shards))
    {
      size := currentSize;
    }

    method Len() returns (len: U64)
      requires Valid()
      ensures len == Wrap(TotalCount(state.shards))
    {
      len := entryCount;
    }
  }
}
