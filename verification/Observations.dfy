// What can be observed of the cache from outside: when an insert evicts, which hook is called for
// which key, and what the metrics count.
module Observations {
  import opened Types
  import opened Sums
  import opened ShardModel
  import opened Sweeps
  import opened Evictions
  import opened ShardLaws
  import opened Accounting
  import opened CacheModel
  import opened CacheTheorems
  import Priorities

  // ----- when an insert evicts -----

  ghost predicate HaveCapacity(shards: seq<ShardState>, perShard: int) {
    forall i :: 0 <= i < |shards| ==> shards[i].capacity == perShard
  }

  lemma StepKeepsCapacity(c: CacheState, home: Key -> nat, op: CacheOp, perShard: int)
    requires CacheInv(c, home) && HaveCapacity(c.shards, perShard)
    ensures HaveCapacity(StepCache(c, home, op).shards, perShard)
  {
    match op
    case InsertOp(k, core) => InsertAgrees(c.shards[home(k)], k, Fresh(core));
    case RemoveOp(k) =>
    case LookupOp(k) =>
    case ClearOp =>
  }

  lemma {:induction false} RunKeepsCapacity(c: CacheState, home: Key -> nat, ops: seq<CacheOp>, perShard: int)
    requires CacheInv(c, home) && HaveCapacity(c.shards, perShard)
    ensures HaveCapacity(RunCache(c, home, ops).shards, perShard)
    decreases |ops|
  {
    if ops != [] {
      StepKeepsCacheInv(c, home, ops[0]);
      StepKeepsCapacity(c, home, ops[0], perShard);
      RunKeepsCapacity(StepCache(c, home, ops[0]), home, ops[1..], perShard);
    }
  }

  lemma OtherBytes(s: ShardState, k: Key)
    requires Agrees(s, {})
    ensures Sum(s.entries.Keys - {k}, Sizes(s.entries)) ==
            s.size - if k in s.entries then s.entries[k].core.size else 0
  {
    if k in s.entries {
      BytesSplit(s.entries, {}, k);
      assert s.entries.Keys - ({} + {k}) == s.entries.Keys - {k};
    } else {
      assert s.entries.Keys - {k} == s.entries.Keys - {};
    }
  }

  // After any run, an insert evicts something exactly if the shard of its key holds another entry
  // and the bytes held there, less those of the entry it replaces, and the new ones are more than
  // an equal part of the capacity.
  lemma InsertEvictsExactlyIfFull(maxSize: U64, shardCount: nat, home: Key -> nat, ops: seq<CacheOp>,
                                  k: Key, core: Core)
    requires shardCount >= 1 && forall x {:trigger home(x)} :: home(x) < shardCount
    ensures CacheInv(NewCache(maxSize, shardCount), home)
    ensures var c := RunCache(NewCache(maxSize, shardCount), home, ops);
            var s := c.shards[home(k)];
            var held := s.size - if k in s.entries then s.entries[k].core.size else 0;
            ShardModel.Insert(s, k, Fresh(core)).evicted != [] <==>
            s.entries.Keys - {k} != {} && held + core.size > maxSize / shardCount
  {
    NewCacheInv(maxSize, shardCount, home);
    RunKeepsCapacity(NewCache(maxSize, shardCount), home, ops, maxSize / shardCount);
    var s := RunCache(NewCache(maxSize, shardCount), home, ops).shards[home(k)];
    OtherBytes(s, k);
    Priorities.InsertReachesAnything(s, k, Fresh(core));
  }

  // ----- which hook -----

  // The evict hook is called for what an insert pushes out, the remove hook for the key that is
  // removed, the clear hook for all that is cleared: once each, and for nothing else.
  lemma EachCallsItsOwnHook(c: CacheState, home: Key -> nat, op: CacheOp, x: Key)
    requires CacheInv(c, home)
    ensures CacheInv(StepCache(c, home, op), home)
    ensures var d := StepCache(c, home, op);
            var was, now := Resident(c, home, x).Some?, Resident(d, home, x).Some?;
            && d.hooks.onEvict[x] == c.hooks.onEvict[x] + (if op.InsertOp? && was && !now then 1 else 0)
            && d.hooks.onRemove[x] == c.hooks.onRemove[x] + (if op == CacheOp.RemoveOp(x) && was then 1 else 0)
            && d.hooks.onClear[x] == c.hooks.onClear[x] + (if op.ClearOp? && was then 1 else 0)
  {
    StepKeepsCacheInv(c, home, op);
    match op
    case InsertOp(k, core) => InsertCallsEvict(c, home, k, core, x);
    case RemoveOp(k) =>
    case LookupOp(k) =>
    case ClearOp => AllKeysAreResident(c.shards, x);
  }

  lemma InsertCallsEvict(c: CacheState, home: Key -> nat, k: Key, core: Core, x: Key)
    requires CacheInv(c, home)
    ensures var d := CacheInsert(c, home, k, core);
            && d.hooks == c.hooks.(onEvict := d.hooks.onEvict)
            && d.hooks.onEvict[x] == c.hooks.onEvict[x] +
                 (if Resident(c, home, x).Some? && Resident(d, home, x) == None then 1 else 0)
  {
    InsertContents(c, home, k, core, x);
    InsertConserves(c.shards[home(k)], k, Fresh(core));
    EvictedOnce(ShardModel.Insert(c.shards[home(k)], k, Fresh(core)).evicted, x);
  }

  // ----- what the metrics count -----

  // Whether the key of operation i is resident when its turn comes.
  ghost predicate Finds(c: CacheState, home: Key -> nat, ops: seq<CacheOp>, i: nat)
    requires CacheInv(c, home) && i < |ops|
  {
    !ops[i].ClearOp? && Resident(RunCache(c, home, ops[..i]), home, ops[i].key).Some?
  }

  ghost function Found(c: CacheState, home: Key -> nat, ops: seq<CacheOp>): set<nat>
    requires CacheInv(c, home)
  {
    set i: nat | i < |ops| && Finds(c, home, ops, i)
  }

  lemma LastOfRun(ops: seq<CacheOp>)
    requires ops != []
    ensures ops == ops[..|ops| - 1] + [ops[|ops| - 1]]
  {
  }

  lemma FirstOfRun(ops: seq<CacheOp>, last: CacheOp)
    ensures ops == [] ==> ops + [last] == [last] && [last][1..] == []
    ensures ops != [] ==> (ops + [last])[0] == ops[0] && (ops + [last])[1..] == ops[1..] + [last]
  {
  }

  lemma {:induction false} RunCacheLast(c: CacheState, home: Key -> nat, ops: seq<CacheOp>, last: CacheOp,
                                        end: CacheState)
    requires CacheInv(c, home) && end == RunCache(c, home, ops)
    ensures RunCache(c, home, ops + [last]) == StepCache(end, home, last)
    decreases |ops|
  {
    FirstOfRun(ops, last);
    if ops == [] {
      RunOfOne(c, home, last);
    } else {
      StepKeepsCacheInv(c, home, ops[0]);
      RunCacheLast(StepCache(c, home, ops[0]), home, ops[1..], last, end);
    }
  }

  lemma {:induction false} RunOfOne(c: CacheState, home: Key -> nat, op: CacheOp)
    requires CacheInv(c, home)
    ensures RunCache(c, home, [op]) == StepCache(c, home, op)
  {
    StepKeepsCacheInv(c, home, op);
    assert RunCache(StepCache(c, home, op), home, []) == StepCache(c, home, op);
  }

  lemma FoundOneMore(c: CacheState, home: Key -> nat, ops: seq<CacheOp>, last: CacheOp, end: CacheState)
    requires CacheInv(c, home) && end == RunCache(c, home, ops)
    ensures var found := !last.ClearOp? && Resident(end, home, last.key).Some?;
            Found(c, home, ops + [last]) == Found(c, home, ops) + if found then {|ops|} else {}
  {
    forall i: nat | i < |ops|
      ensures Finds(c, home, ops + [last], i) <==> Finds(c, home, ops, i)
    {
      assert (ops + [last])[..i] == ops[..i];
    }
    assert (ops + [last])[..|ops|] == ops;
  }

  datatype Outcome = Hit | Miss | Newcomer | Update | Removal | Nothing

  function OutcomeOf(op: CacheOp, found: bool): Outcome {
    match op
    case LookupOp(_) => if found then Hit else Miss
    case InsertOp(_, _) => if found then Update else Newcomer
    case RemoveOp(_) => if found then Removal else Nothing
    case ClearOp => Nothing
  }

  function Times(ops: seq<CacheOp>, found: set<nat>, from: nat, o: Outcome): set<nat> {
    set i: nat | from <= i < |ops| && OutcomeOf(ops[i], i in found) == o
  }

  lemma TimesOneMore(ops: seq<CacheOp>, found: set<nat>, last: CacheOp, found': set<nat>, from: nat, o: Outcome)
    requires from <= |ops| && forall i :: i in found ==> i < |ops|
    requires found' == found || found' == found + {|ops|}
    ensures |Times(ops + [last], found', from, o)| ==
            |Times(ops, found, from, o)| + if OutcomeOf(last, |ops| in found') == o then 1 else 0
  {
    var times := Times(ops, found, from, o);
    var n := |ops|;
    forall i: nat
      ensures i in Times(ops + [last], found', from, o) <==>
              i in times || (i == n && OutcomeOf(last, n in found') == o)
    {
      assert i < n ==> (ops + [last])[i] == ops[i] && (i in found' <==> i in found);
    }
    SetOneMore(times, Times(ops + [last], found', from, o), n, OutcomeOf(last, n in found') == o);
  }

  lemma SetOneMore(s: set<nat>, t: set<nat>, n: nat, more: bool)
    requires n !in s && forall i: nat :: i in t <==> i in s || (i == n && more)
    ensures |t| == |s| + if more then 1 else 0
  {
    assert t == if more then s + {n} else s;
  }

  // What the metrics have counted, the evictions left aside.
  ghost predicate Recorded(ops: seq<CacheOp>, found: set<nat>, from: nat, m: Metrics) {
    && m.hits == |Times(ops, found, from, Hit)| && m.misses == |Times(ops, found, from, Miss)|
    && m.inserts == |Times(ops, found, from, Newcomer)| && m.updates == |Times(ops, found, from, Update)|
    && m.removals == |Times(ops, found, from, Removal)|
  }

  // n is m with an outcome more.
  predicate OneOutcomeMore(m: Metrics, o: Outcome, n: Metrics) {
    && n.hits == m.hits + (if o == Hit then 1 else 0)
    && n.misses == m.misses + (if o == Miss then 1 else 0)
    && n.inserts == m.inserts + (if o == Newcomer then 1 else 0)
    && n.updates == m.updates + (if o == Update then 1 else 0)
    && n.removals == m.removals + (if o == Removal then 1 else 0)
  }

  lemma StepRecords(c: CacheState, home: Key -> nat, op: CacheOp)
    requires CacheInv(c, home) && !op.ClearOp?
    ensures OneOutcomeMore(c.metrics, OutcomeOf(op, Resident(c, home, op.key).Some?), StepCache(c, home, op).metrics)
  {
    if op.InsertOp? {
      InsertAgrees(c.shards[home(op.key)], op.key, Fresh(op.core));
    }
  }

  lemma RecordedOneMore(ops: seq<CacheOp>, found: set<nat>, last: CacheOp, found': set<nat>, from: nat,
                        m: Metrics, n: Metrics)
    requires from <= |ops| && forall i :: i in found ==> i < |ops|
    requires found' == found || found' == found + {|ops|}
    requires Recorded(ops, found, from, m) && OneOutcomeMore(m, OutcomeOf(last, |ops| in found'), n)
    ensures Recorded(ops + [last], found', from, n)
  {
    TimesOneMore(ops, found, last, found', from, Hit);
    TimesOneMore(ops, found, last, found', from, Miss);
    TimesOneMore(ops, found, last, found', from, Newcomer);
    TimesOneMore(ops, found, last, found', from, Update);
    TimesOneMore(ops, found, last, found', from, Removal);
  }

  lemma NothingRecorded(ops: seq<CacheOp>, found: set<nat>, from: nat)
    requires from == |ops|
    ensures Recorded(ops, found, from, NO_METRICS)
  {
    assert forall o :: Times(ops, found, from, o) == {};
  }

  lemma {:induction false} RunRecords(c: CacheState, home: Key -> nat, ops: seq<CacheOp>, from: nat, end: CacheState)
    requires CacheInv(c, home) && from <= |ops| && end == RunCache(c, home, ops)
    requires if from == 0 then c.metrics == NO_METRICS else ops[from - 1].ClearOp?
    requires forall i :: from <= i < |ops| ==> !ops[i].ClearOp?
    ensures Recorded(ops, Found(c, home, ops), from, end.metrics)
    decreases |ops|
  {
    if from == |ops| {
      NothingRecorded(ops, Found(c, home, ops), from);
    }
    if ops != [] {
      var before, last := ops[..|ops| - 1], ops[|ops| - 1];
      var s := RunCache(c, home, before);
      LastOfRun(ops);
      RunCacheLast(c, home, before, last, s);
      if from < |ops| {
        RunRecords(c, home, before, from, s);
        OneRecordMore(c, home, before, last, from, s);
      }
    }
  }

  lemma OneRecordMore(c: CacheState, home: Key -> nat, ops: seq<CacheOp>, last: CacheOp, from: nat, end: CacheState)
    requires CacheInv(c, home) && CacheInv(end, home) && end == RunCache(c, home, ops)
    requires from <= |ops| && !last.ClearOp? && Recorded(ops, Found(c, home, ops), from, end.metrics)
    ensures Recorded(ops + [last], Found(c, home, ops + [last]), from, StepCache(end, home, last).metrics)
  {
    StepRecords(end, home, last);
    FoundOneMore(c, home, ops, last, end);
    RecordedOneMore(ops, Found(c, home, ops), last, Found(c, home, ops + [last]), from,
                    end.metrics, StepCache(end, home, last).metrics);
  }

  // Over any run, since the last clear or else from the start: hits are the lookups whose key was
  // resident and misses the others, updates the inserts whose key was resident and inserts the
  // others, and removals are those that found their key.
  lemma MetricsCount(c: CacheState, home: Key -> nat, ops: seq<CacheOp>, from: nat)
    requires CacheInv(c, home) && from <= |ops|
    requires if from == 0 then c.metrics == NO_METRICS else ops[from - 1].ClearOp?
    requires forall i :: from <= i < |ops| ==> !ops[i].ClearOp?
    ensures var m := RunCache(c, home, ops).metrics;
            var found := set i: nat | i < |ops| && Finds(c, home, ops, i);
            && m.hits == |set i: nat | from <= i < |ops| && ops[i].LookupOp? && i in found|
            && m.misses == |set i: nat | from <= i < |ops| && ops[i].LookupOp? && i !in found|
            && m.inserts == |set i: nat | from <= i < |ops| && ops[i].InsertOp? && i !in found|
            && m.updates == |set i: nat | from <= i < |ops| && ops[i].InsertOp? && i in found|
            && m.removals == |set i: nat | from <= i < |ops| && ops[i].RemoveOp? && i in found|
  {
    RunRecords(c, home, ops, from, RunCache(c, home, ops));
    TimesMean(ops, Found(c, home, ops), from);
  }

  lemma TimesMean(ops: seq<CacheOp>, found: set<nat>, from: nat)
    ensures Times(ops, found, from, Hit) == set i: nat | from <= i < |ops| && ops[i].LookupOp? && i in found
    ensures Times(ops, found, from, Miss) == set i: nat | from <= i < |ops| && ops[i].LookupOp? && i !in found
    ensures Times(ops, found, from, Newcomer) == set i: nat | from <= i < |ops| && ops[i].InsertOp? && i !in found
    ensures Times(ops, found, from, Update) == set i: nat | from <= i < |ops| && ops[i].InsertOp? && i in found
    ensures Times(ops, found, from, Removal) == set i: nat | from <= i < |ops| && ops[i].RemoveOp? && i in found
  {
  }
}
