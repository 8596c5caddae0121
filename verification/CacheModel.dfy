// The cache, used by one thread at a time: keys are routed to shards, and every operation
// publishes its counters, metrics and lifecycle hooks before the next one starts.
module CacheModel {
  import opened Types
  import opened Sharding
  import opened ShardModel
  import opened Evictions
  import opened Accounting

  datatype Metrics = Metrics(hits: int, misses: int, inserts: int, updates: int, evictions: int, removals: int)

  // The keys each lifecycle hook has been called with.
  datatype Hooks = Hooks(onEvict: multiset<Key>, onRemove: multiset<Key>, onClear: multiset<Key>)

  // Counters are numbers here; the program keeps them modulo 2^64 (see Cache.Linked).
  datatype CacheState = CacheState(
    shards: seq<ShardState>,
    size: int,
    count: int,
    metrics: Metrics,
    hooks: Hooks)

  const NO_METRICS := Metrics(0, 0, 0, 0, 0, 0)

  ghost predicate AllFiled(shards: seq<ShardState>) {
    |shards| >= 1 && forall i :: 0 <= i < |shards| ==> Filed(shards[i])
  }

  // Which shard each key lives in. The cache masks the key's hash; the laws of the cache need
  // no more than that there is such a shard.
  function HomeOf(hash: Key -> U64, shardCount: nat): (home: Key -> nat)
    requires shardCount >= 1
    ensures forall k {:trigger home(k)} :: home(k) < shardCount
  {
    var home: Key -> nat := k => ShardIndex(hash(k), shardCount);
    assert forall k {:trigger home(k)} :: home(k) == ShardIndex(hash(k), shardCount);
    home
  }

  ghost predicate Housed(c: CacheState, home: Key -> nat) {
    AllFiled(c.shards) && forall k {:trigger home(k)} :: home(k) < |c.shards|
  }

  function KeySeq(ev: seq<Evicted>): seq<Key> {
    if ev == [] then [] else [ev[0].key] + KeySeq(ev[1..])
  }

  function AllKeys(shards: seq<ShardState>): set<Key> {
    if shards == [] then {} else shards[0].entries.Keys + AllKeys(shards[1..])
  }

  // ----- the operations -----

  function NewCache(maxSize: U64, shardCount: nat): CacheState
    requires shardCount >= 1
  {
    CacheState(seq(shardCount, _ => New(maxSize / shardCount)), 0, 0, NO_METRICS,
               Hooks(multiset{}, multiset{}, multiset{}))
  }

  // An insert into shard i that has returned r, once it has published everything.
  function InsertedInto(c: CacheState, i: nat, r: InsertResult, size: U64): CacheState
    requires i < |c.shards|
  {
    var born := if r.replaced.Some? then 0 else 1;
    CacheState(
      c.shards[i := r.after],
      c.size + size - (if r.replaced.Some? then r.replaced.value.core.size else 0) - BytesOf(r.evicted),
      c.count + born - |r.evicted|,
      c.metrics.(inserts := c.metrics.inserts + born,
                 updates := c.metrics.updates + 1 - born,
                 evictions := c.metrics.evictions + |r.evicted|),
      c.hooks.(onEvict := c.hooks.onEvict + multiset(KeySeq(r.evicted))))
  }

  function CacheInsert(c: CacheState, home: Key -> nat, k: Key, core: Core): CacheState
    requires Housed(c, home)
  {
    var i := home(k);
    InsertedInto(c, i, ShardModel.Insert(c.shards[i], k, Fresh(core)), core.size)
  }

  // A removal of k from shard i, once it has published everything.
  function RemovedFrom(c: CacheState, i: nat, k: Key): CacheState
    requires i < |c.shards| && |c.shards[i].buckets| == 3
  {
    var s := c.shards[i];
    if k !in s.entries then c
    else
      CacheState(
        c.shards[i := ShardModel.Remove(s, k)],
        c.size - s.entries[k].core.size,
        c.count - 1,
        c.metrics.(removals := c.metrics.removals + 1),
        c.hooks.(onRemove := c.hooks.onRemove + multiset{k}))
  }

  function CacheRemove(c: CacheState, home: Key -> nat, k: Key): CacheState
    requires Housed(c, home)
  {
    RemovedFrom(c, home(k), k)
  }

  function CacheLookup(c: CacheState, home: Key -> nat, k: Key): CacheState
    requires home(k) < |c.shards|
  {
    var i := home(k);
    var hit := k in c.shards[i].entries;
    c.(shards := c.shards[i := Touch(c.shards[i], k)],
       metrics := if hit then c.metrics.(hits := c.metrics.hits + 1)
                  else c.metrics.(misses := c.metrics.misses + 1))
  }

  // What a lookup of k returns.
  function Resident(c: CacheState, home: Key -> nat, k: Key): Option<Core>
    requires home(k) < |c.shards|
  {
    var s := c.shards[home(k)];
    if k in s.entries then Some(s.entries[k].core) else None
  }

  function AllDrained(shards: seq<ShardState>): seq<ShardState> {
    seq(|shards|, i requires 0 <= i < |shards| => Drained(shards[i]))
  }

  ghost function CacheClear(c: CacheState): CacheState {
    CacheState(
      AllDrained(c.shards),
      c.size - TotalSize(c.shards),
      c.count - TotalCount(c.shards),
      NO_METRICS,
      c.hooks.(onClear := c.hooks.onClear + multiset(AllKeys(c.shards))))
  }

  // ----- the invariant -----

  // Every key is in the shard that is its home, so in no other.
  ghost predicate Routed(c: CacheState, home: Key -> nat) {
    forall i, k {:trigger k in c.shards[i].entries} ::
      0 <= i < |c.shards| && k in c.shards[i].entries ==> home(k) == i
  }

  ghost predicate Counted(c: CacheState) {
    c.size == TotalSize(c.shards) && c.count == TotalCount(c.shards)
  }

  ghost predicate CacheInv(c: CacheState, home: Key -> nat) {
    && |c.shards| >= 1 && (forall k {:trigger home(k)} :: home(k) < |c.shards|)
    && ShardsInv(c.shards) && Routed(c, home) && Counted(c)
  }

  datatype CacheOp = InsertOp(key: Key, core: Core) | RemoveOp(key: Key) | LookupOp(key: Key) | ClearOp

  ghost function StepCache(c: CacheState, home: Key -> nat, op: CacheOp): CacheState
    requires Housed(c, home)
  {
    match op
    case InsertOp(k, core) => CacheInsert(c, home, k, core)
    case RemoveOp(k) => CacheRemove(c, home, k)
    case LookupOp(k) => CacheLookup(c, home, k)
    case ClearOp => CacheClear(c)
  }
}
