// Whole runs of one shard: the invariant, the bound on the bytes, 64-bit arithmetic and the
// amortised cost of the sweeps.
module ShardRuns {
  import opened Types
  import opened Sums
  import opened ShardModel
  import opened Sweeps
  import opened Evictions
  import opened ShardLaws

  datatype ShardOp = InsertOp(key: Key, core: Core) | RemoveOp(key: Key) | LookupOp(key: Key) | DrainOp

  function StepShard(s: ShardState, op: ShardOp): ShardState
    requires Filed(s)
  {
    match op
    case InsertOp(k, core) => Insert(s, k, Fresh(core)).after
    case RemoveOp(k) => Remove(s, k)
    case LookupOp(k) => Touch(s, k)
    case DrainOp => Drained(s)
  }

  lemma StepKeepsInv(s: ShardState, op: ShardOp)
    requires ShardInv(s)
    ensures ShardInv(StepShard(s, op))
    ensures StepShard(s, op).capacity == s.capacity
  {
    match op
    case InsertOp(k, core) =>
      InsertKeepsInv(s, k, Fresh(core));
      InsertAgrees(s, k, Fresh(core));
    case RemoveOp(k) => RemoveKeepsInv(s, k);
    case LookupOp(k) => TouchKeepsInv(s, k);
    case DrainOp => NewAgrees(s.capacity);
  }

  ghost function RunShard(s: ShardState, ops: seq<ShardOp>): (t: ShardState)
    requires ShardInv(s)
    ensures ShardInv(t) && t.capacity == s.capacity
    decreases |ops|
  {
    if ops == [] then s
    else
      StepKeepsInv(s, ops[0]);
      RunShard(StepShard(s, ops[0]), ops[1..])
  }

  // ----- what a run costs -----

  // Entries examined by sweeps, lookups that found their key, and entries evicted.
  datatype Tally = Tally(examined: int, hits: int, evictions: int)

  function TallyOf(s: ShardState, op: ShardOp): Tally
    requires Filed(s)
  {
    match op
    case InsertOp(k, core) =>
      Tally(Insert(s, k, Fresh(core)).examined, 0, |Insert(s, k, Fresh(core)).evicted|)
    case LookupOp(k) => Tally(0, if k in s.entries then 1 else 0, 0)
    case _ => Tally(0, 0, 0)
  }

  ghost function TallyOfRun(s: ShardState, ops: seq<ShardOp>): Tally
    requires ShardInv(s)
    decreases |ops|
  {
    if ops == [] then Tally(0, 0, 0)
    else
      StepKeepsInv(s, ops[0]);
      var now := TallyOf(s, ops[0]);
      var later := TallyOfRun(StepShard(s, ops[0]), ops[1..]);
      Tally(now.examined + later.examined, now.hits + later.hits, now.evictions + later.evictions)
  }

  // ----- runs in parts -----

  lemma {:induction false} RunInParts(s: ShardState, first: seq<ShardOp>, rest: seq<ShardOp>)
    requires ShardInv(s)
    ensures RunShard(s, first + rest) == RunShard(RunShard(s, first), rest)
    decreases |first|
  {
    if first == [] {
      assert first + rest == rest;
    } else {
      assert (first + rest)[0] == first[0] && (first + rest)[1..] == first[1..] + rest;
      StepKeepsInv(s, first[0]);
      RunInParts(StepShard(s, first[0]), first[1..], rest);
    }
  }

  function Both(a: Tally, b: Tally): Tally {
    Tally(a.examined + b.examined, a.hits + b.hits, a.evictions + b.evictions)
  }

  lemma {:induction false} TallyInParts(s: ShardState, first: seq<ShardOp>, rest: seq<ShardOp>)
    requires ShardInv(s)
    ensures TallyOfRun(s, first + rest) == Both(TallyOfRun(s, first), TallyOfRun(RunShard(s, first), rest))
    decreases |first|
  {
    if first == [] {
      assert first + rest == rest;
    } else {
      assert (first + rest)[0] == first[0] && (first + rest)[1..] == first[1..] + rest;
      StepKeepsInv(s, first[0]);
      TallyInParts(StepShard(s, first[0]), first[1..], rest);
    }
  }

  lemma {:induction false} RunFirst(s: ShardState, op: ShardOp, rest: seq<ShardOp>)
    requires ShardInv(s) && ShardInv(StepShard(s, op))
    ensures RunShard(s, [op] + rest) == RunShard(StepShard(s, op), rest)
  {
    assert ([op] + rest)[1..] == rest;
  }

  lemma {:induction false} TallyFirst(s: ShardState, op: ShardOp, rest: seq<ShardOp>)
    requires ShardInv(s) && ShardInv(StepShard(s, op))
    ensures TallyOfRun(s, [op] + rest) == Both(TallyOf(s, op), TallyOfRun(StepShard(s, op), rest))
  {
    assert ([op] + rest)[1..] == rest;
  }

  lemma {:induction false} RunOne(s: ShardState, op: ShardOp)
    requires ShardInv(s)
    ensures RunShard(s, [op]) == StepShard(s, op) && TallyOfRun(s, [op]) == TallyOf(s, op)
  {
    StepKeepsInv(s, op);
    assert [op][1..] == [];
    assert RunShard(StepShard(s, op), []) == StepShard(s, op);
    assert TallyOfRun(StepShard(s, op), []) == Tally(0, 0, 0);
  }

  // What is counted: the entries that the sweeps of inserts examine, the lookups whose key was
  // resident, and the entries that inserts evict.
  lemma {:induction false} TallyOneMore(s: ShardState, ops: seq<ShardOp>, op: ShardOp, now: ShardState, t: Tally)
    requires ShardInv(s) && now == RunShard(s, ops) && t == TallyOfRun(s, ops)
    ensures ops == [] ==> t == Tally(0, 0, 0)
    ensures TallyOfRun(s, ops + [op]) ==
            match op
            case InsertOp(k, core) =>
              var r := Insert(now, k, Fresh(core));
              Tally(t.examined + r.examined, t.hits, t.evictions + |r.evicted|)
            case LookupOp(k) => Tally(t.examined, t.hits + (if k in now.entries then 1 else 0), t.evictions)
            case RemoveOp(_) => t
            case DrainOp => t
  {
    TallyInParts(s, ops, [op]);
    TallyOfOne(now, op, t);
  }

  lemma {:induction false} TallyOfOne(s: ShardState, op: ShardOp, t: Tally)
    requires ShardInv(s)
    ensures Both(t, TallyOfRun(s, [op])) ==
            match op
            case InsertOp(k, core) =>
              var r := Insert(s, k, Fresh(core));
              Tally(t.examined + r.examined, t.hits, t.evictions + |r.evicted|)
            case LookupOp(k) => Tally(t.examined, t.hits + (if k in s.entries then 1 else 0), t.evictions)
            case RemoveOp(_) => t
            case DrainOp => t
  {
    RunOne(s, op);
  }

  // ----- the cost of one operation -----

  lemma InsertCost(s: ShardState, k: Key, e: EntryData)
    requires Agrees(s, {})
    ensures var r := Insert(s, k, e);
            r.examined + Heat(r.after.entries) <= Heat(s.entries) + e.Heat() + |r.evicted|
  {
    DetachedIsFiled(s, k);
    EvictUntilCost(Detached(s, k), e.core.size, 2);
    HeatUpdate(MakeRoom(s, k, e).after.entries, k, e);
    HeatWithout(MakeRoom(s, k, e).after.entries, k);
  }

  lemma HeatWithout(m: map<Key, EntryData>, k: Key)
    ensures Heat(m - {k}) <= Heat(m)
  {
    if k in m {
      HeatSplit(m, k);
    } else {
      assert m - {k} == m;
    }
  }

  lemma StepCost(s: ShardState, op: ShardOp)
    requires ShardInv(s)
    ensures TallyOf(s, op).examined + Heat(StepShard(s, op).entries)
            <= Heat(s.entries) + 2 * TallyOf(s, op).hits + TallyOf(s, op).evictions
  {
    match op
    case InsertOp(k, core) => InsertCost(s, k, Fresh(core));
    case RemoveOp(k) => HeatWithout(s.entries, k);
    case LookupOp(k) =>
      if k in s.entries {
        HeatUpdate(s.entries, k, s.entries[k].Touched());
      }
    case DrainOp =>
      HeatBounds(s.entries);
      HeatBounds(map[]);
  }

  // The sweeps of a whole run examine at most two entries per hit and one per eviction,
  // on top of what the heat the run starts with pays for.
  lemma {:induction false} RunCost(s: ShardState, ops: seq<ShardOp>)
    requires ShardInv(s)
    ensures var t := TallyOfRun(s, ops);
            t.examined + Heat(RunShard(s, ops).entries) <= Heat(s.entries) + 2 * t.hits + t.evictions
    decreases |ops|
  {
    if ops != [] {
      StepKeepsInv(s, ops[0]);
      StepCost(s, ops[0]);
      RunCost(StepShard(s, ops[0]), ops[1..]);
    }
  }

  lemma AmortisedSweepCost(capacity: nat, ops: seq<ShardOp>)
    ensures ShardInv(New(capacity))
    ensures var t := TallyOfRun(New(capacity), ops);
            t.examined <= 2 * t.hits + t.evictions
  {
    NewAgrees(capacity);
    RunCost(New(capacity), ops);
    HeatBounds(RunShard(New(capacity), ops).entries);
    HeatBounds(map[]);
  }

  // ----- counting entries -----

  lemma {:induction false} EvictUntilCounts(s: ShardState, needed: int, p: nat)
    requires Filed(s) && p < 3
    ensures Count(EvictUntil(s, needed, p).after.entries.Keys) + |EvictUntil(s, needed, p).evicted|
            == Count(s.entries.Keys)
    decreases p, |s.buckets[p].list|
  {
    if s.size + needed > s.capacity {
      if s.buckets[p].list != [] {
        EvictFromTakesOut(s, p);
        CountRemove(s.entries.Keys, EvictFrom(s, p).victim.key);
        EvictUntilCounts(EvictFrom(s, p).after, needed, p);
      } else if p > 0 {
        EvictUntilCounts(s, needed, p - 1);
      }
    }
  }

  lemma InsertCounts(s: ShardState, k: Key, e: EntryData)
    requires Agrees(s, {})
    ensures Count(Insert(s, k, e).after.entries.Keys) + |Insert(s, k, e).evicted|
            == Count(s.entries.Keys) + if k in s.entries then 0 else 1
  {
    DetachedIsFiled(s, k);
    EvictUntilCounts(Detached(s, k), e.core.size, 2);
    MakeRoomLaws(s, k, e);
    var room := MakeRoom(s, k, e).after.entries;
    assert room[k := e].Keys == room.Keys + {k};
    CountAdd(room.Keys, k);
  }

  // One insert is linear in the number of entries: at most 256 passes over each, and one
  // examination of each evicted entry.
  lemma WorstInsertCost(s: ShardState, k: Key, core: Core)
    requires Agrees(s, {})
    ensures Insert(s, k, Fresh(core)).examined <= 257 * Count(s.entries.Keys)
  {
    var e := Fresh(core);
    DetachedIsFiled(s, k);
    EvictUntilCounts(Detached(s, k), core.size, 2);
    EvictUntilCost(Detached(s, k), core.size, 2);
    HeatBounds(s.entries);
    HeatBounds(MakeRoom(s, k, e).after.entries);
  }

  // ----- 64-bit arithmetic -----

  const TWO_63: int := 0x8000_0000_0000_0000

  ghost predicate SmallSizes(s: ShardState) {
    s.capacity < TWO_63 && forall k :: k in s.entries ==> s.entries[k].core.size < TWO_63
  }

  predicate SmallOps(ops: seq<ShardOp>) {
    forall i :: 0 <= i < |ops| && ops[i].InsertOp? ==> ops[i].core.size < TWO_63
  }

  lemma SmallCores(s: ShardState, k: Key, core: Core)
    requires Agrees(s, {}) && SmallSizes(s) && core.size < TWO_63
    ensures SmallSizes(Insert(s, k, Fresh(core)).after)
  {
    InsertAgrees(s, k, Fresh(core));
    InsertConserves(s, k, Fresh(core));
    var t := Insert(s, k, Fresh(core));
    forall x | x in t.after.entries
      ensures t.after.entries[x].core.size < TWO_63
    {
      assert t.after.entries[x].core == Cores(t.after.entries)[x];
      assert x != k ==> Cores(t.after.entries)[x] == Cores(s.entries)[x];
    }
  }

  lemma StepKeepsSmallSizes(s: ShardState, op: ShardOp)
    requires ShardInv(s) && SmallSizes(s) && SmallOps([op])
    ensures SmallSizes(StepShard(s, op))
  {
    match op
    case InsertOp(k, core) =>
      assert [op][0].core.size < TWO_63;
      SmallCores(s, k, core);
    case _ =>
  }

  lemma {:induction false} RunKeepsSmallSizes(s: ShardState, ops: seq<ShardOp>)
    requires ShardInv(s) && SmallSizes(s) && SmallOps(ops)
    ensures SmallSizes(RunShard(s, ops))
    decreases |ops|
  {
    if ops != [] {
      StepKeepsInv(s, ops[0]);
      StepKeepsSmallSizes(s, ops[0]);
      RunKeepsSmallSizes(StepShard(s, ops[0]), ops[1..]);
    }
  }

  // The bytes of a shard within the invariant, if its capacity and its entries are small.
  lemma SizeIsSmall(s: ShardState)
    requires ShardInv(s) && SmallSizes(s)
    ensures 0 <= s.size < TWO_63
  {
    BytesPositive(s.entries, {});
    if s.size > s.capacity {
      if s.entries.Keys != {} {
        var k :| k in s.entries.Keys;
        OnlyKey(s.entries, k);
        BytesSplit(s.entries, {}, k);
        BytesPositive(s.entries, {} + {k});
      }
    }
  }

  // With capacity and entry sizes below 2^63, no run ever makes an insert compute a byte
  // count outside 64 bits: not after the updated entry is subtracted, not after any number
  // of evictions, not when the new size is added.
  lemma InsertArithmeticFits(capacity: nat, ops: seq<ShardOp>, k: Key, core: Core, i: nat)
    requires capacity < TWO_63 && SmallOps(ops) && core.size < TWO_63
    ensures ShardInv(New(capacity))
    ensures var s := RunShard(New(capacity), ops);
            var r := Insert(s, k, Fresh(core));
            var d := Detached(s, k).size;
            && 0 <= d && d + core.size < TWO_64
            && (i <= |r.evicted| ==> 0 <= d - BytesOf(r.evicted[..i]) <= d)
            && 0 <= r.after.size < TWO_64
  {
    NewAgrees(capacity);
    RunKeepsSmallSizes(New(capacity), ops);
    var s := RunShard(New(capacity), ops);
    var r := Insert(s, k, Fresh(core));
    SizeIsSmall(s);
    DetachedAgrees(s, k);
    BytesPositive(s.entries, {});
    BytesPositive(Detached(s, k).entries, {k});
    MakeRoomLaws(s, k, Fresh(core));
    MakeRoomConserves(s, k, Fresh(core));
    BytesPositive(MakeRoom(s, k, Fresh(core)).after.entries, {k});
    if i <= |r.evicted| {
      BytesOfPrefix(r.evicted, i);
    }
    BytesOfPrefix(r.evicted, 0);
  }

  lemma {:induction false} BytesOfPrefix(ev: seq<Evicted>, i: nat)
    requires i <= |ev|
    ensures 0 <= BytesOf(ev[..i]) <= BytesOf(ev)
  {
    if ev != [] {
      if i == 0 {
        BytesOfPrefix(ev[1..], 0);
      } else {
        assert ev[..i][1..] == ev[1..][..i - 1];
        BytesOfPrefix(ev[1..], i - 1);
      }
    }
  }
}
