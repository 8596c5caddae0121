// What holds of the cache over every sequential run.
module CacheTheorems {
  import opened Types
  import opened Sums
  import opened Sharding
  import opened Buckets
  import opened ShardModel
  import opened Evictions
  import opened ShardLaws
  import opened ShardRuns
  import opened Accounting
  import opened CacheModel

  // ----- the invariant -----

  lemma ShardsInvUpdate(shards: seq<ShardState>, i: nat, s: ShardState)
    requires ShardsInv(shards) && i < |shards| && ShardInv(s)
    ensures ShardsInv(shards[i := s])
  {
  }

  lemma RoutedUpdate(c: CacheState, home: Key -> nat, k: Key, s: ShardState, d: CacheState)
    requires Routed(c, home) && home(k) < |c.shards|
    requires d.shards == c.shards[home(k) := s]
    requires s.entries.Keys <= c.shards[home(k)].entries.Keys + {k}
    ensures Routed(d, home)
  {
  }

  // One shard has changed, in nothing but the key k, and the counters by what it has changed.
  lemma ShardChanged(c: CacheState, home: Key -> nat, k: Key, s: ShardState, d: CacheState)
    requires CacheInv(c, home) && ShardInv(s)
    requires d.shards == c.shards[home(k) := s]
    requires s.entries.Keys <= c.shards[home(k)].entries.Keys + {k}
    requires d.size - c.size == s.size - c.shards[home(k)].size
    requires d.count - c.count == Count(s.entries.Keys) - Count(c.shards[home(k)].entries.Keys)
    ensures CacheInv(d, home)
  {
    ShardsInvUpdate(c.shards, home(k), s);
    RoutedUpdate(c, home, k, s, d);
    TotalsUpdate(c.shards, home(k), s);
  }

  lemma InsertKeepsCacheInv(c: CacheState, home: Key -> nat, k: Key, core: Core)
    requires CacheInv(c, home)
    ensures CacheInv(CacheInsert(c, home, k, core), home)
  {
    var s := c.shards[home(k)];
    InsertKeepsInv(s, k, Fresh(core));
    InsertBytes(s, k, Fresh(core));
    InsertCounts(s, k, Fresh(core));
    InsertReplaces(s, k, Fresh(core));
    InsertKeys(s, k, core);
    ShardChanged(c, home, k, ShardModel.Insert(s, k, Fresh(core)).after, CacheInsert(c, home, k, core));
  }

  lemma InsertKeys(s: ShardState, k: Key, core: Core)
    requires Agrees(s, {})
    ensures ShardModel.Insert(s, k, Fresh(core)).after.entries.Keys <= s.entries.Keys + {k}
  {
    EvictUntilIsFiled(Detached(s, k), core.size, 2) by {
      DetachedIsFiled(s, k);
    }
  }

  lemma RemoveKeepsCacheInv(c: CacheState, home: Key -> nat, k: Key)
    requires CacheInv(c, home)
    ensures CacheInv(CacheRemove(c, home, k), home)
  {
    var s := c.shards[home(k)];
    if k in s.entries {
      var t := ShardModel.Remove(s, k);
      RemoveKeepsInv(s, k);
      RemoveConserves(s, k);
      assert t.entries.Keys == s.entries.Keys - {k};
      CountRemove(s.entries.Keys, k);
      ShardChanged(c, home, k, t, CacheRemove(c, home, k));
    }
  }

  lemma LookupKeepsCacheInv(c: CacheState, home: Key -> nat, k: Key)
    requires CacheInv(c, home)
    ensures CacheInv(CacheLookup(c, home, k), home)
  {
    var s := Touch(c.shards[home(k)], k);
    TouchKeepsInv(c.shards[home(k)], k);
    assert s.entries.Keys == c.shards[home(k)].entries.Keys;
    ShardChanged(c, home, k, s, CacheLookup(c, home, k));
  }

  lemma DrainedInv(shards: seq<ShardState>)
    requires ShardsInv(shards)
    ensures ShardsInv(AllDrained(shards))
    ensures TotalSize(AllDrained(shards)) == 0 && TotalCount(AllDrained(shards)) == 0
  {
    forall i | 0 <= i < |shards|
      ensures ShardInv(AllDrained(shards)[i])
    {
      assert ShardInv(shards[i]);
      NewInv(shards[i].capacity);
    }
    EmptyTotals(AllDrained(shards));
  }

  lemma ClearKeepsCacheInv(c: CacheState, home: Key -> nat)
    requires CacheInv(c, home)
    ensures CacheInv(CacheClear(c), home)
    ensures CacheClear(c).size == 0 && CacheClear(c).count == 0
  {
    DrainedInv(c.shards);
  }

  lemma StepKeepsCacheInv(c: CacheState, home: Key -> nat, op: CacheOp)
    requires CacheInv(c, home)
    ensures CacheInv(StepCache(c, home, op), home)
    ensures |StepCache(c, home, op).shards| == |c.shards|
  {
    match op
    case InsertOp(k, core) => InsertKeepsCacheInv(c, home, k, core);
    case RemoveOp(k) => RemoveKeepsCacheInv(c, home, k);
    case LookupOp(k) => LookupKeepsCacheInv(c, home, k);
    case ClearOp => ClearKeepsCacheInv(c, home);
  }

  ghost function RunCache(c: CacheState, home: Key -> nat, ops: seq<CacheOp>): (d: CacheState)
    requires CacheInv(c, home)
    ensures CacheInv(d, home) && |d.shards| == |c.shards|
    decreases |ops|
  {
    if ops == [] then c
    else
      StepKeepsCacheInv(c, home, ops[0]);
      RunCache(StepCache(c, home, ops[0]), home, ops[1..])
  }

  lemma NewCacheInv(maxSize: U64, shardCount: nat, home: Key -> nat)
    requires shardCount >= 1 && forall k {:trigger home(k)} :: home(k) < shardCount
    ensures CacheInv(NewCache(maxSize, shardCount), home)
  {
    var c := NewCache(maxSize, shardCount);
    forall i | 0 <= i < |c.shards|
      ensures ShardInv(c.shards[i])
    {
      NewInv(maxSize / shardCount);
    }
    EmptyTotals(c.shards);
  }

  // ----- refinement of a map -----

  // An insert takes the evicted keys out and puts its own in; it returns what was resident.
  lemma InsertContents(c: CacheState, home: Key -> nat, k: Key, core: Core, x: Key)
    requires CacheInv(c, home)
    ensures var r := ShardModel.Insert(c.shards[home(k)], k, Fresh(core));
            && Resident(CacheInsert(c, home, k, core), home, x) ==
               (if x == k then Some(core) else if x in KeysOf(r.evicted) then None else Resident(c, home, x))
            && (match r.replaced
                case Some(e) => Resident(c, home, k) == Some(e.core)
                case None => Resident(c, home, k) == None)
            && (x in KeysOf(r.evicted) ==> x != k && Resident(c, home, x).Some?)
  {
    var i := home(k);
    var s := c.shards[i];
    InsertAgrees(s, k, Fresh(core));
    InsertConserves(s, k, Fresh(core));
    ResidentAfterInsert(s, k, core, x);
  }

  lemma ResidentAfterInsert(s: ShardState, k: Key, core: Core, x: Key)
    requires Agrees(s, {})
    ensures var r := ShardModel.Insert(s, k, Fresh(core));
            && (x in KeysOf(r.evicted) ==> x in s.entries && x != k)
            && (x in r.after.entries <==> x == k || (x in s.entries && x !in KeysOf(r.evicted)))
            && (x in r.after.entries ==>
                  r.after.entries[x].core == if x == k then core else s.entries[x].core)
  {
    InsertConserves(s, k, Fresh(core));
    var r := ShardModel.Insert(s, k, Fresh(core));
    assert x in r.after.entries <==> x in Cores(r.after.entries);
  }

  lemma OtherOpsContents(c: CacheState, home: Key -> nat, k: Key, x: Key)
    requires CacheInv(c, home)
    ensures Resident(CacheRemove(c, home, k), home, x) == if x == k then None else Resident(c, home, x)
    ensures Resident(CacheLookup(c, home, k), home, x) == Resident(c, home, x)
    ensures home(x) < |CacheClear(c).shards| && Resident(CacheClear(c), home, x) == None
  {
    RemoveConserves(c.shards[home(k)], k);
  }

  function StepMap(m: map<Key, Core>, op: CacheOp): map<Key, Core> {
    match op
    case InsertOp(k, core) => m[k := core]
    case RemoveOp(k) => m - {k}
    case LookupOp(_) => m
    case ClearOp => map[]
  }

  // A map that never forgets, under the same operations.
  function RunMap(m: map<Key, Core>, ops: seq<CacheOp>): map<Key, Core>
    decreases |ops|
  {
    if ops == [] then m else RunMap(StepMap(m, ops[0]), ops[1..])
  }

  // The cache may have lost entries, but whatever it holds is what the map holds.
  ghost predicate Refines(c: CacheState, home: Key -> nat, m: map<Key, Core>)
    requires forall k {:trigger home(k)} :: home(k) < |c.shards|
  {
    forall k {:trigger Resident(c, home, k)} ::
      Resident(c, home, k).Some? ==> k in m && m[k] == Resident(c, home, k).value
  }

  lemma StepRefines(c: CacheState, home: Key -> nat, m: map<Key, Core>, op: CacheOp)
    requires CacheInv(c, home) && Refines(c, home, m)
    ensures CacheInv(StepCache(c, home, op), home)
    ensures Refines(StepCache(c, home, op), home, StepMap(m, op))
  {
    StepKeepsCacheInv(c, home, op);
    var d, n := StepCache(c, home, op), StepMap(m, op);
    forall x {:trigger Resident(d, home, x)}
      ensures Resident(d, home, x).Some? ==> x in n && n[x] == Resident(d, home, x).value
    {
      assert Resident(c, home, x).Some? ==> x in m && m[x] == Resident(c, home, x).value;
      match op
      case InsertOp(k, core) => InsertContents(c, home, k, core, x);
      case RemoveOp(k) => OtherOpsContents(c, home, k, x);
      case LookupOp(k) => OtherOpsContents(c, home, k, x);
      case ClearOp => OtherOpsContents(c, home, x, x);
    }
  }

  lemma {:induction false} RunRefines(c: CacheState, home: Key -> nat, m: map<Key, Core>, ops: seq<CacheOp>)
    requires CacheInv(c, home) && Refines(c, home, m)
    ensures Refines(RunCache(c, home, ops), home, RunMap(m, ops))
    decreases |ops|
  {
    if ops != [] {
      StepRefines(c, home, m, ops[0]);
      RunRefines(StepCache(c, home, ops[0]), home, StepMap(m, ops[0]), ops[1..]);
    }
  }

  // After any run, a lookup returns nothing or what was last inserted for its key and not
  // removed or cleared since.
  lemma LookupsAreNeverStale(maxSize: U64, shardCount: nat, home: Key -> nat, ops: seq<CacheOp>, k: Key)
    requires shardCount >= 1 && forall x {:trigger home(x)} :: home(x) < shardCount
    ensures CacheInv(NewCache(maxSize, shardCount), home)
    ensures var found := Resident(RunCache(NewCache(maxSize, shardCount), home, ops), home, k);
            var reference := RunMap(map[], ops);
            found == None || (k in reference && found == Some(reference[k]))
  {
    NewCacheInv(maxSize, shardCount, home);
    RunRefines(NewCache(maxSize, shardCount), home, map[], ops);
  }

  // ----- the bound on the whole cache -----

  // No entry is larger than a shard.
  predicate FittingOps(ops: seq<CacheOp>, perShard: int) {
    forall i :: 0 <= i < |ops| && ops[i].InsertOp? ==> ops[i].core.size <= perShard
  }

  ghost predicate Within(shards: seq<ShardState>, perShard: int) {
    forall i :: 0 <= i < |shards| ==> shards[i].capacity == perShard && shards[i].size <= perShard
  }

  lemma StepStaysWithin(c: CacheState, home: Key -> nat, op: CacheOp, perShard: nat)
    requires CacheInv(c, home) && Within(c.shards, perShard)
    requires op.InsertOp? ==> op.core.size <= perShard
    ensures Within(StepCache(c, home, op).shards, perShard)
  {
    match op
    case InsertOp(k, core) =>
      InsertCapacity(c.shards[home(k)], k, Fresh(core));
      InsertAgrees(c.shards[home(k)], k, Fresh(core));
    case RemoveOp(k) => RemoveConserves(c.shards[home(k)], k);
    case LookupOp(k) =>
    case ClearOp =>
  }

  lemma {:induction false} RunStaysWithin(c: CacheState, home: Key -> nat, ops: seq<CacheOp>, perShard: nat)
    requires CacheInv(c, home) && Within(c.shards, perShard) && FittingOps(ops, perShard)
    ensures Within(RunCache(c, home, ops).shards, perShard)
    decreases |ops|
  {
    if ops != [] {
      StepKeepsCacheInv(c, home, ops[0]);
      StepStaysWithin(c, home, ops[0], perShard);
      RunStaysWithin(StepCache(c, home, ops[0]), home, ops[1..], perShard);
    }
  }

  lemma {:induction false} TotalWithin(shards: seq<ShardState>, perShard: nat)
    requires Within(shards, perShard)
    ensures TotalSize(shards) <= |shards| * perShard
  {
    if shards != [] {
      TotalWithin(shards[1..], perShard);
      TimesSuccessor(perShard, |shards| - 1);
    }
  }

  // If no entry is larger than a shard, the cache never holds more than its configured
  // maximum, and reports exactly what it holds, even modulo 2^64.
  lemma CacheStaysWithinMaximum(maxSize: U64, shardCount: nat, home: Key -> nat, ops: seq<CacheOp>)
    requires shardCount >= 1 && forall x {:trigger home(x)} :: home(x) < shardCount
    requires FittingOps(ops, maxSize / shardCount)
    ensures CacheInv(NewCache(maxSize, shardCount), home)
    ensures var c := RunCache(NewCache(maxSize, shardCount), home, ops);
            && 0 <= TotalSize(c.shards) <= maxSize
            && c.size == TotalSize(c.shards) == Wrap(c.size)
  {
    var c0 := NewCache(maxSize, shardCount);
    NewCacheInv(maxSize, shardCount, home);
    RunStaysWithin(c0, home, ops, maxSize / shardCount);
    var c := RunCache(c0, home, ops);
    TotalWithin(c.shards, maxSize / shardCount);
    TotalsNonNegative(c.shards);
    QuotientAtLeast(maxSize, shardCount, maxSize / shardCount);
    FitsInWord(TotalSize(c.shards), maxSize);
  }

  lemma FitsInWord(n: int, bound: U64)
    requires 0 <= n <= bound
    ensures Wrap(n) == n
  {
  }

  // ----- lifecycle hooks -----

  // How often any hook has been called with a key.
  function HookCalls(c: CacheState, x: Key): nat {
    c.hooks.onEvict[x] + c.hooks.onRemove[x] + c.hooks.onClear[x]
  }

  function Presence(c: CacheState, home: Key -> nat, x: Key): nat
    requires home(x) < |c.shards|
  {
    if Resident(c, home, x).Some? then 1 else 0
  }

  // Whether an operation makes x resident anew; replacing it does not count.
  function Birth(c: CacheState, home: Key -> nat, op: CacheOp, x: Key): nat
    requires home(x) < |c.shards|
  {
    if op.InsertOp? && op.key == x && Resident(c, home, x) == None then 1 else 0
  }

  ghost function Births(c: CacheState, home: Key -> nat, ops: seq<CacheOp>, x: Key): nat
    requires CacheInv(c, home)
    decreases |ops|
  {
    if ops == [] then 0
    else
      StepKeepsCacheInv(c, home, ops[0]);
      Birth(c, home, ops[0], x) + Births(StepCache(c, home, ops[0]), home, ops[1..], x)
  }

  lemma {:induction false} KeysInOrder(ev: seq<Evicted>)
    ensures |KeySeq(ev)| == |ev| && KeySet(KeySeq(ev)) == KeysOf(ev)
  {
    if ev != [] {
      var rest := ev[1..];
      KeysInOrder(rest);
      assert ev == [ev[0]] + rest[..|rest|];
      PrefixOfCons(ev[0], rest, |rest|);
      assert rest[..|rest|] == rest;
    }
  }

  lemma {:induction false} AllKeysAreResident(shards: seq<ShardState>, x: Key)
    ensures x in AllKeys(shards) <==> exists i :: 0 <= i < |shards| && x in shards[i].entries
  {
    if shards != [] {
      AllKeysAreResident(shards[1..], x);
      if i :| 0 <= i < |shards| && x in shards[i].entries {
        assert i > 0 ==> shards[1..][i - 1] == shards[i];
      }
      if i :| 0 <= i < |shards[1..]| && x in shards[1..][i].entries {
        assert shards[i + 1] == shards[1..][i];
      }
    }
  }

  lemma {:induction false} AllKeysUpdate(shards: seq<ShardState>, i: nat)
    requires i < |shards|
    ensures AllKeys(shards) == AllKeys(shards[i := Drained(shards[i])]) + shards[i].entries.Keys
  {
    if i == 0 {
      assert shards[0 := Drained(shards[0])][1..] == shards[1..];
    } else {
      assert shards[i := Drained(shards[i])][1..] == shards[1..][i - 1 := Drained(shards[i])];
      AllKeysUpdate(shards[1..], i - 1);
    }
  }

  // What draining one shard takes out of the totals.
  lemma ShardEmptied(shards: seq<ShardState>, i: nat)
    requires ShardsInv(shards) && i < |shards|
    ensures var rest := shards[i := Drained(shards[i])];
            && ShardsInv(rest)
            && TotalSize(rest) == TotalSize(shards) - shards[i].size
            && TotalCount(rest) == TotalCount(shards) - |shards[i].entries|
            && AllKeys(shards) == AllKeys(rest) + shards[i].entries.Keys
  {
    NewInv(shards[i].capacity);
    ShardsInvUpdate(shards, i, Drained(shards[i]));
    TotalsUpdate(shards, i, Drained(shards[i]));
    AllKeysUpdate(shards, i);
    CountIsSize(shards[i].entries.Keys);
  }

  lemma {:induction false} NoKeys(shards: seq<ShardState>)
    requires forall i :: 0 <= i < |shards| ==> shards[i].entries == map[]
    ensures AllKeys(shards) == {}
  {
    if shards != [] {
      NoKeys(shards[1..]);
    }
  }

  // No key is in two shards, so the shards together hold as many keys as they count.
  lemma {:induction false} KeysAreCounted(shards: seq<ShardState>)
    requires forall i, j, k {:trigger k in shards[i].entries, k in shards[j].entries} ::
               0 <= i < j < |shards| && k in shards[i].entries ==> k !in shards[j].entries
    ensures |AllKeys(shards)| == TotalCount(shards)
  {
    if shards != [] {
      var first, rest := shards[0].entries.Keys, shards[1..];
      forall i, j, k {:trigger k in rest[i].entries, k in rest[j].entries} |
          0 <= i < j < |rest| && k in rest[i].entries
        ensures k !in rest[j].entries
      {
        assert rest[i] == shards[i + 1] && rest[j] == shards[j + 1];
      }
      KeysAreCounted(rest);
      forall k | k in first
        ensures k !in AllKeys(rest)
      {
        AllKeysAreResident(rest, k);
        assert forall i :: 0 <= i < |rest| ==> rest[i] == shards[i + 1];
      }
      assert first !! AllKeys(rest);
      CountIsSize(first);
    }
  }

  // As many keys as the set has, and all of them: each occurs once.
  lemma {:induction false} OnceEach(keys: seq<Key>, s: set<Key>)
    requires KeySet(keys) == s && |keys| == |s|
    ensures multiset(keys) == multiset(s)
  {
    if keys != [] {
      var k, rest := keys[0], keys[1..];
      assert keys == [k] + rest;
      DistinctIsPairwise(keys);
      assert KeySet(rest) == s - {k} by {
        assert forall x :: x in keys <==> x == k || x in rest;
        assert k !in rest;
      }
      OnceEach(rest, s - {k});
    }
  }

  // Evicting as many keys as entries, each of them is evicted once.
  lemma EvictedOnce(ev: seq<Evicted>, x: Key)
    requires |KeysOf(ev)| == |ev|
    ensures multiset(KeySeq(ev))[x] == if x in KeysOf(ev) then 1 else 0
  {
    KeysInOrder(ev);
    OnceEach(KeySeq(ev), KeysOf(ev));
  }

  lemma InsertCallsHooks(c: CacheState, home: Key -> nat, k: Key, core: Core, x: Key)
    requires CacheInv(c, home)
    ensures var d := CacheInsert(c, home, k, core);
            HookCalls(d, x) + Presence(d, home, x) ==
            HookCalls(c, x) + Presence(c, home, x) + Birth(c, home, CacheOp.InsertOp(k, core), x)
  {
    InsertContents(c, home, k, core, x);
    InsertConserves(c.shards[home(k)], k, Fresh(core));
    EvictedOnce(ShardModel.Insert(c.shards[home(k)], k, Fresh(core)).evicted, x);
  }

  lemma ClearCallsHooks(c: CacheState, home: Key -> nat, x: Key)
    requires CacheInv(c, home)
    ensures home(x) < |CacheClear(c).shards|
    ensures HookCalls(CacheClear(c), x) + Presence(CacheClear(c), home, x) == HookCalls(c, x) + Presence(c, home, x)
  {
    OtherOpsContents(c, home, x, x);
    AllKeysAreResident(c.shards, x);
  }

  // Each step accounts for every key: what becomes resident is still so, or its hook is called.
  lemma StepCallsHooks(c: CacheState, home: Key -> nat, op: CacheOp, x: Key)
    requires CacheInv(c, home)
    ensures CacheInv(StepCache(c, home, op), home)
    ensures var d := StepCache(c, home, op);
            HookCalls(d, x) + Presence(d, home, x) == HookCalls(c, x) + Presence(c, home, x) + Birth(c, home, op, x)
  {
    StepKeepsCacheInv(c, home, op);
    match op
    case InsertOp(k, core) => InsertCallsHooks(c, home, k, core, x);
    case RemoveOp(k) => OtherOpsContents(c, home, k, x);
    case LookupOp(k) => OtherOpsContents(c, home, k, x);
    case ClearOp => ClearCallsHooks(c, home, x);
  }

  lemma {:induction false} RunCallsHooks(c: CacheState, home: Key -> nat, ops: seq<CacheOp>, x: Key)
    requires CacheInv(c, home)
    ensures var d := RunCache(c, home, ops);
            HookCalls(d, x) + Presence(d, home, x) == HookCalls(c, x) + Presence(c, home, x) + Births(c, home, ops, x)
    decreases |ops|
  {
    if ops != [] {
      StepCallsHooks(c, home, ops[0], x);
      RunCallsHooks(StepCache(c, home, ops[0]), home, ops[1..], x);
    }
  }

  // Over any run and for every key: fresh inserts are one if it is resident, plus hook calls.
  lemma HooksAreCalledOnce(maxSize: U64, shardCount: nat, home: Key -> nat, ops: seq<CacheOp>, x: Key)
    requires shardCount >= 1 && forall k {:trigger home(k)} :: home(k) < shardCount
    ensures CacheInv(NewCache(maxSize, shardCount), home)
    ensures var c := NewCache(maxSize, shardCount);
            Births(c, home, ops, x) == HookCalls(RunCache(c, home, ops), x) + Presence(RunCache(c, home, ops), home, x)
  {
    NewCacheInv(maxSize, shardCount, home);
    RunCallsHooks(NewCache(maxSize, shardCount), home, ops, x);
  }

  // ----- metrics -----

  // Since the last clear: what was inserted is still there, was evicted, or was removed.
  predicate MetricsBalance(c: CacheState) {
    c.metrics.inserts == c.count + c.metrics.evictions + c.metrics.removals
  }

  lemma StepKeepsMetrics(c: CacheState, home: Key -> nat, op: CacheOp)
    requires CacheInv(c, home) && MetricsBalance(c)
    ensures MetricsBalance(StepCache(c, home, op))
  {
  }

  lemma {:induction false} MetricsAlwaysBalance(c: CacheState, home: Key -> nat, ops: seq<CacheOp>)
    requires CacheInv(c, home) && MetricsBalance(c)
    ensures MetricsBalance(RunCache(c, home, ops))
    decreases |ops|
  {
    if ops != [] {
      StepKeepsCacheInv(c, home, ops[0]);
      StepKeepsMetrics(c, home, ops[0]);
      MetricsAlwaysBalance(StepCache(c, home, ops[0]), home, ops[1..]);
    }
  }
}
