// Each shard under concurrency. Writers have it for themselves, so they do to it what they would
// do one after the other. Readers share it and can lose increments, but no more than that: what
// a read phase leaves is what some of its lookups leave one after the other, at least one for
// each key that was found. So every shard goes through a sequential run, and what holds of every
// run of one shard holds of every shard in every interleaving.
module Interleavings {
  import opened Types
  import opened ShardModel
  import opened ShardLaws
  import opened ShardRuns
  import opened Accounting
  import opened ReadPhases
  import CacheTheorems

  // ----- what an event does to shard i -----

  ghost function WriteOn(m: Machine, e: Event, i: nat): Option<ShardOp> {
    if e.t !in m.threads || !Free(m, i) then None
    else
      match (e, m.threads[e.t])
      case (StartInsert(_, j, k, core), Idle) => if j == i then Some(ShardOp.InsertOp(k, core)) else None
      case (StartRemove(_, j, k), Idle) =>
        if j == i && k in m.shards[i].entries then Some(ShardOp.RemoveOp(k)) else None
      case (ClearNext(_), Clearing(j)) => if j == i then Some(ShardOp.DrainOp) else None
      case _ => None
  }

  function ReadOn(m: Machine, e: Event, i: nat): Option<Readers.Move> {
    if e.t !in m.threads then None
    else
      match (e, m.threads[e.t])
      case (StartLookup(t, j, k), Idle) => if j == i && Readable(m, i) then Some(Readers.Enter(t, k)) else None
      case (Access(t, at), Reading(j)) => if j == i then Some(Readers.Next(t, at)) else None
      case (EndLookup(t), Reading(j)) => if j == i && CanEnd(m, t, i) then Some(Readers.Leave(t)) else None
      case _ => None
  }

  function PhaseOf(m: Machine, i: nat): Readers.Phase
    requires i < |m.shards| && i < |m.reading|
  {
    Readers.Phase(m.shards[i], m.reading[i])
  }

  ghost predicate HasShard(m: Machine, i: nat) {
    i < |m.shards| && i < |m.reading|
  }

  // An event writes to the shard, or is a move of a read phase, or leaves it alone.
  lemma StepOnShard(m: Machine, e: Event, i: nat)
    requires HasShard(m, i)
    ensures HasShard(Step(m, e), i)
    ensures WriteOn(m, e, i).Some? ==>
              && Filed(m.shards[i]) && Step(m, e).shards[i] == StepShard(m.shards[i], WriteOn(m, e, i).value)
              && Step(m, e).reading[i] == m.reading[i] && m.reading[i].readers == map[] && ReadOn(m, e, i).None?
    ensures ReadOn(m, e, i).Some? ==>
              PhaseOf(Step(m, e), i) == Settled(Readers.StepPhase(PhaseOf(m, i), ReadOn(m, e, i).value))
    ensures WriteOn(m, e, i).None? && ReadOn(m, e, i).None? ==> PhaseOf(Step(m, e), i) == PhaseOf(m, i)
  {
  }

  // ----- what has been done to shard i -----

  // A write, or a read phase with the keys that its lookups have found, one for each lookup.
  datatype Round = Write(op: ShardOp) | Read(found: multiset<Key>)

  // The rounds that are over, the read phase that is not, and what has been counted: entries
  // examined by sweeps, lookups that found their key, and evictions.
  datatype Log = Log(rounds: seq<Round>, open: Option<multiset<Key>>, tally: Tally)

  const NOTHING_YET := Log([], None, Tally(0, 0, 0))

  function FoundSoFar(log: Log): multiset<Key> {
    match log.open case Some(found) => found case None => multiset{}
  }

  ghost function AfterWrite(log: Log, s: ShardState, op: ShardOp): Log
    requires Filed(s)
  {
    Log(log.rounds + [Write(op)], log.open, Both(log.tally, TallyOf(s, op)))
  }

  function AfterRead(log: Log, p: Readers.Phase, move: Readers.Move): Log {
    var found := FoundSoFar(log) + Readers.FoundBy(p, move);
    var tally := log.tally.(hits := log.tally.hits + |Readers.FoundBy(p, move)|);
    if Readers.StepPhase(p, move).reading.readers == map[] then
      if log.open.Some? then Log(log.rounds + [Read(found)], None, tally) else log
    else Log(log.rounds, Some(found), tally)
  }

  ghost function Logged(log: Log, m: Machine, e: Event, i: nat): Log
    requires HasShard(m, i)
  {
    StepOnShard(m, e, i);
    match WriteOn(m, e, i)
    case Some(op) => AfterWrite(log, m.shards[i], op)
    case None =>
      match ReadOn(m, e, i)
      case Some(move) => AfterRead(log, PhaseOf(m, i), move)
      case None => log
  }

  ghost function LogOf(m: Machine, events: seq<Event>, i: nat, log: Log): Log
    requires HasShard(m, i)
    decreases |events|
  {
    if events == [] then log
    else
      StepOnShard(m, events[0], i);
      LogOf(Step(m, events[0]), events[1..], i, Logged(log, m, events[0], i))
  }

  // ----- rounds as operations one after the other -----

  ghost predicate DoneBy(round: Round, ops: seq<ShardOp>) {
    match round
    case Write(op) => ops == [op]
    case Read(found) => SomeOf(found, ops)
  }

  // Each round in turn: a write as it is, of a read phase some lookups.
  ghost predicate Thinned(rounds: seq<Round>, thin: seq<seq<ShardOp>>) {
    && |thin| == |rounds|
    && forall j {:trigger rounds[j]} {:trigger thin[j]} :: 0 <= j < |rounds| ==> DoneBy(rounds[j], thin[j])
  }

  function Flat(thin: seq<seq<ShardOp>>): seq<ShardOp> {
    if thin == [] then [] else Flat(thin[..|thin| - 1]) + thin[|thin| - 1]
  }

  lemma FlatAndMore(thin: seq<seq<ShardOp>>, ops: seq<ShardOp>)
    ensures Flat(thin + [ops]) == Flat(thin) + ops
  {
    assert (thin + [ops])[..|thin|] == thin;
  }

  // The shard s0 has become, by the operations of `thin`, what the phase p of the log began with.
  ghost predicate Tracked(s0: ShardState, p: Readers.Phase, log: Log, thin: seq<seq<ShardOp>>)
    requires ShardInv(s0)
  {
    && Thinned(log.rounds, thin)
    && Tallied(TallyOfRun(s0, Flat(thin)), FoundSoFar(log), log.tally)
    && (match log.open
        case None => p == Readers.Phase(RunShard(s0, Flat(thin)), Readers.NOBODY)
        case Some(found) => p.reading.readers != map[] && Readers.Inv(RunShard(s0, Flat(thin)), p, found))
  }

  // Lookups that are lost count as hits all the same.
  ghost predicate Tallied(run: Tally, found: multiset<Key>, tally: Tally) {
    run.examined == tally.examined && run.evictions == tally.evictions && run.hits + |found| <= tally.hits
  }

  lemma DoneMore(s0: ShardState, thin: seq<seq<ShardOp>>, ops: seq<ShardOp>)
    requires ShardInv(s0)
    ensures var s := RunShard(s0, Flat(thin));
            && RunShard(s0, Flat(thin + [ops])) == RunShard(s, ops)
            && TallyOfRun(s0, Flat(thin + [ops])) == Both(TallyOfRun(s0, Flat(thin)), TallyOfRun(s, ops))
  {
    FlatAndMore(thin, ops);
    RunInParts(s0, Flat(thin), ops);
    TallyInParts(s0, Flat(thin), ops);
  }

  // ----- every event keeps track -----

  lemma ThinnedMore(rounds: seq<Round>, thin: seq<seq<ShardOp>>, round: Round, ops: seq<ShardOp>)
    requires Thinned(rounds, thin) && DoneBy(round, ops)
    ensures Thinned(rounds + [round], thin + [ops])
  {
  }

  lemma {:induction false} RoundIsTracked(
      s0: ShardState, log: Log, thin: seq<seq<ShardOp>>, round: Round, ops: seq<ShardOp>,
      t: ShardState, now: Tally, tally: Tally)
    requires ShardInv(s0) && Thinned(log.rounds, thin) && DoneBy(round, ops)
    requires t == RunShard(RunShard(s0, Flat(thin)), ops) && now == TallyOfRun(RunShard(s0, Flat(thin)), ops)
    requires Tallied(Both(TallyOfRun(s0, Flat(thin)), now), multiset{}, tally)
    ensures Tracked(s0, Readers.Phase(t, Readers.NOBODY), Log(log.rounds + [round], None, tally), thin + [ops])
  {
    DoneMore(s0, thin, ops);
    ThinnedMore(log.rounds, thin, round, ops);
  }

  lemma {:induction false} WriteIsTracked(
      s0: ShardState, p: Readers.Phase, log: Log, thin: seq<seq<ShardOp>>, op: ShardOp,
      t: ShardState, now: Tally)
    requires ShardInv(s0) && Tracked(s0, p, log, thin) && log.open.None? && Filed(p.state)
    requires t == StepShard(p.state, op) && now == TallyOf(p.state, op)
    ensures Tracked(s0, Readers.Phase(t, Readers.NOBODY), AfterWrite(log, p.state, op), thin + [[op]])
  {
    RunOne(p.state, op);
    RoundIsTracked(s0, log, thin, Write(op), [op], t, now, Both(log.tally, now));
  }

  // The phase goes on, or begins.
  lemma ReadGoesOn(s0: ShardState, p: Readers.Phase, log: Log, thin: seq<seq<ShardOp>>, move: Readers.Move)
    requires ShardInv(s0) && Tracked(s0, p, log, thin) && Readers.StepPhase(p, move).reading.readers != map[]
    ensures Tracked(s0, Readers.StepPhase(p, move), AfterRead(log, p, move), thin)
  {
    var s := RunShard(s0, Flat(thin));
    if log.open.None? {
      Readers.Begins(s);
    }
    Readers.StepKeepsInv(s, p, FoundSoFar(log), move);
  }

  // The last lookup leaves.
  lemma ReadEnds(s0: ShardState, p: Readers.Phase, log: Log, thin: seq<seq<ShardOp>>, move: Readers.Move)
    returns (ops: seq<ShardOp>)
    requires ShardInv(s0) && Tracked(s0, p, log, thin) && log.open.Some?
    requires Readers.StepPhase(p, move).reading.readers == map[]
    ensures Tracked(s0, Settled(Readers.StepPhase(p, move)), AfterRead(log, p, move), thin + [ops])
  {
    var s, q := RunShard(s0, Flat(thin)), Readers.StepPhase(p, move);
    var found := FoundSoFar(log) + Readers.FoundBy(p, move);
    Readers.StepKeepsInv(s, p, FoundSoFar(log), move);
    ops := PhaseIsThinned(s, q, found);
    RoundIsTracked(s0, log, thin, Read(found), ops, q.state, TallyOfRun(s, ops), AfterRead(log, p, move).tally);
  }

  lemma ReadIsTracked(s0: ShardState, p: Readers.Phase, log: Log, thin: seq<seq<ShardOp>>, move: Readers.Move)
    returns (thin': seq<seq<ShardOp>>)
    requires ShardInv(s0) && Tracked(s0, p, log, thin)
    ensures Tracked(s0, Settled(Readers.StepPhase(p, move)), AfterRead(log, p, move), thin')
  {
    thin' := thin;
    if Readers.StepPhase(p, move).reading.readers != map[] {
      ReadGoesOn(s0, p, log, thin, move);
    } else if log.open.Some? {
      var ops := ReadEnds(s0, p, log, thin, move);
      thin' := thin + [ops];
    } else {
      assert Readers.StepPhase(p, move) == p;
    }
  }

  lemma StepIsTracked(s0: ShardState, m: Machine, e: Event, i: nat, log: Log, thin: seq<seq<ShardOp>>)
    returns (thin': seq<seq<ShardOp>>)
    requires ShardInv(s0) && HasShard(m, i) && Tracked(s0, PhaseOf(m, i), log, thin)
    ensures HasShard(Step(m, e), i)
    ensures Tracked(s0, PhaseOf(Step(m, e), i), Logged(log, m, e, i), thin')
  {
    StepOnShard(m, e, i);
    thin' := thin;
    match WriteOn(m, e, i)
    case Some(op) =>
      WriteIsTracked(s0, PhaseOf(m, i), log, thin, op, Step(m, e).shards[i], TallyOf(m.shards[i], op));
      thin' := thin + [[op]];
    case None =>
      match ReadOn(m, e, i)
      case Some(move) => thin' := ReadIsTracked(s0, PhaseOf(m, i), log, thin, move);
      case None =>
  }

  lemma {:induction false} RunIsTracked(s0: ShardState, m: Machine, events: seq<Event>, i: nat, log: Log,
                                        thin: seq<seq<ShardOp>>)
    returns (thin': seq<seq<ShardOp>>)
    requires ShardInv(s0) && HasShard(m, i) && Tracked(s0, PhaseOf(m, i), log, thin)
    ensures HasShard(RunEvents(m, events), i)
    ensures Tracked(s0, PhaseOf(RunEvents(m, events), i), LogOf(m, events, i, log), thin')
    decreases |events|
  {
    thin' := thin;
    if events != [] {
      var next := StepIsTracked(s0, m, events[0], i, log, thin);
      thin' := RunIsTracked(s0, Step(m, events[0]), events[1..], i, Logged(log, m, events[0], i), next);
    }
  }

  // ----- the theorems -----

  lemma Starts(capacities: seq<nat>, threads: set<nat>, i: nat)
    requires i < |capacities|
    ensures var m := Initial(capacities, threads);
            && HasShard(m, i) && m.shards[i] == New(capacities[i]) && ShardInv(New(capacities[i]))
            && Tracked(New(capacities[i]), PhaseOf(m, i), NOTHING_YET, [])
  {
    NewInv(capacities[i]);
    assert RunShard(New(capacities[i]), []) == New(capacities[i]);
    assert TallyOfRun(New(capacities[i]), []) == Tally(0, 0, 0);
  }

  // In every interleaving, whenever no lookup is inside, a shard is what a sequential run of its
  // own operations makes of it: its writes in the order of the lock, and for each read phase
  // some of its lookups, of every key found between one and as many as found it. While lookups
  // are inside, the shard differs from that by what Readers.Inv allows them.
  lemma {:induction false} ShardRunsItsOwnOps(capacities: seq<nat>, threads: set<nat>, events: seq<Event>, i: nat)
    returns (thin: seq<seq<ShardOp>>)
    requires i < |capacities|
    ensures HasShard(Initial(capacities, threads), i) && ShardInv(New(capacities[i]))
    ensures var m := RunEvents(Initial(capacities, threads), events);
            var log := LogOf(Initial(capacities, threads), events, i, NOTHING_YET);
            var s := RunShard(New(capacities[i]), Flat(thin));
            && HasShard(m, i) && Thinned(log.rounds, thin)
            && (m.reading[i].readers == map[] ==> m.shards[i] == s)
            && (m.reading[i].readers != map[] ==>
                  log.open.Some? && Readers.Inv(s, Readers.Phase(m.shards[i], m.reading[i]), log.open.value))
  {
    Starts(capacities, threads, i);
    thin := RunIsTracked(New(capacities[i]), Initial(capacities, threads), events, i, NOTHING_YET, []);
  }

  lemma LogFirst(m: Machine, first: Event, rest: seq<Event>, i: nat, log: Log)
    requires HasShard(m, i)
    ensures HasShard(Step(m, first), i)
    ensures LogOf(m, [first] + rest, i, log) == LogOf(Step(m, first), rest, i, Logged(log, m, first, i))
  {
    StepOnShard(m, first, i);
    assert ([first] + rest)[1..] == rest;
  }

  lemma {:induction false} LogLast(m: Machine, events: seq<Event>, e: Event, i: nat, log: Log, n: Machine, end: Log)
    requires HasShard(m, i) && n == RunEvents(m, events) && end == LogOf(m, events, i, log)
    ensures HasShard(n, i) && LogOf(m, events + [e], i, log) == Logged(end, n, e, i)
    decreases |events|
  {
    if events == [] {
      LogFirst(m, e, [], i, log);
      assert [] + [e] == [e] + [];
    } else {
      LogFirst(m, events[0], events[1..] + [e], i, log);
      assert events + [e] == [events[0]] + (events[1..] + [e]);
      LogLast(Step(m, events[0]), events[1..], e, i, Logged(log, m, events[0], i), n, end);
    }
  }

  // What is counted, event by event: a lookup that comes in and finds its key is a hit; an insert
  // that gets the lock examines and evicts what it does on the shard as it then is.
  lemma CountedUnderConcurrency(m: Machine, events: seq<Event>, e: Event, i: nat)
    requires HasShard(m, i)
    ensures var n := RunEvents(m, events);
            var before, after := LogOf(m, events, i, NOTHING_YET).tally, LogOf(m, events + [e], i, NOTHING_YET).tally;
            var idle := e.t in n.threads && n.threads[e.t] == Idle;
            && HasShard(n, i)
            && LogOf(m, [], i, NOTHING_YET).tally == Tally(0, 0, 0)
            && (if e.StartInsert? && e.shard == i && idle && Free(n, i)
                then var r := ShardModel.Insert(n.shards[i], e.key, Fresh(e.core));
                     after == Tally(before.examined + r.examined, before.hits, before.evictions + |r.evicted|)
                else after.examined == before.examined && after.evictions == before.evictions)
            && after.hits == before.hits +
               (if e.StartLookup? && e.shard == i && idle && Readable(n, i) && e.t !in n.reading[i].readers
                   && e.key in n.shards[i].entries then 1 else 0)
  {
    var n := RunEvents(m, events);
    var log := LogOf(m, events, i, NOTHING_YET);
    LogLast(m, events, e, i, NOTHING_YET, n, log);
    InsertsAreCounted(log, n, e, i);
    HitsAreCounted(log, n, e, i);
  }

  lemma InsertsAreCounted(log: Log, n: Machine, e: Event, i: nat)
    requires HasShard(n, i)
    ensures var before, after := log.tally, Logged(log, n, e, i).tally;
            if e.StartInsert? && e.shard == i && e.t in n.threads && n.threads[e.t] == Idle && Free(n, i)
            then var r := ShardModel.Insert(n.shards[i], e.key, Fresh(e.core));
                 after == Tally(before.examined + r.examined, before.hits, before.evictions + |r.evicted|)
            else after.examined == before.examined && after.evictions == before.evictions
  {
    StepOnShard(n, e, i);
    match WriteOn(n, e, i)
    case Some(op) => WritesCount(n, e, i, op);
    case None =>
  }

  lemma WritesCount(n: Machine, e: Event, i: nat, op: ShardOp)
    requires HasShard(n, i) && WriteOn(n, e, i) == Some(op)
    ensures Filed(n.shards[i]) && e.t in n.threads && Free(n, i)
    ensures if e.StartInsert? then e.shard == i && n.threads[e.t] == Idle && op == ShardOp.InsertOp(e.key, e.core)
            else !op.InsertOp? && !op.LookupOp?
  {
  }

  lemma ReadsCount(n: Machine, e: Event, i: nat, move: Readers.Move)
    requires HasShard(n, i) && ReadOn(n, e, i) == Some(move)
    ensures e.t in n.threads
    ensures if e.StartLookup?
            then e.shard == i && n.threads[e.t] == Idle && Readable(n, i) && move == Readers.Enter(e.t, e.key)
            else !move.Enter?
  {
  }

  lemma HitsAfterRead(log: Log, p: Readers.Phase, move: Readers.Move)
    ensures AfterRead(log, p, move).tally.hits == log.tally.hits +
            if move.Enter? && move.t !in p.reading.readers && move.key in p.state.entries then 1 else 0
  {
    if move.Enter? && move.t !in p.reading.readers && move.key in p.state.entries {
      assert Readers.FoundBy(p, move) == multiset{move.key};
      assert move.t in Readers.StepPhase(p, move).reading.readers;
    } else {
      assert Readers.FoundBy(p, move) == multiset{};
    }
  }

  lemma HitsAreCounted(log: Log, n: Machine, e: Event, i: nat)
    requires HasShard(n, i)
    ensures Logged(log, n, e, i).tally.hits == log.tally.hits +
            (if e.StartLookup? && e.shard == i && e.t in n.threads && n.threads[e.t] == Idle && Readable(n, i)
                && e.t !in n.reading[i].readers && e.key in n.shards[i].entries then 1 else 0)
  {
    StepOnShard(n, e, i);
    match WriteOn(n, e, i)
    case Some(op) => WritesCount(n, e, i, op);
    case None =>
      match ReadOn(n, e, i)
      case Some(move) =>
        ReadsCount(n, e, i, move);
        HitsAfterRead(log, PhaseOf(n, i), move);
        assert Logged(log, n, e, i) == AfterRead(log, PhaseOf(n, i), move);
      case None =>
  }

  // In every interleaving the sweeps of a shard examine at most two entries per lookup that has
  // found its key, lost or not, and one per eviction.
  lemma {:induction false} AmortisedUnderConcurrency(
      capacities: seq<nat>, threads: set<nat>, events: seq<Event>, i: nat)
    requires i < |capacities|
    ensures HasShard(Initial(capacities, threads), i)
    ensures var tally := LogOf(Initial(capacities, threads), events, i, NOTHING_YET).tally;
            tally.examined <= 2 * tally.hits + tally.evictions
  {
    Starts(capacities, threads, i);
    var thin := RunIsTracked(New(capacities[i]), Initial(capacities, threads), events, i, NOTHING_YET, []);
    AmortisedSweepCost(capacities[i], Flat(thin));
  }

  // ----- the bound on the whole cache -----

  predicate FittingEvents(events: seq<Event>, perShard: int) {
    forall e :: e in events && e.StartInsert? ==> e.core.size <= perShard
  }

  lemma OpStaysWithin(s: ShardState, op: ShardOp)
    requires ShardInv(s) && s.size <= s.capacity
    requires op.InsertOp? ==> op.core.size <= s.capacity
    ensures StepShard(s, op).size <= s.capacity
  {
    match op
    case InsertOp(k, core) =>
      InsertCapacity(s, k, Fresh(core));
      InsertAgrees(s, k, Fresh(core));
    case RemoveOp(k) => RemoveConserves(s, k);
    case LookupOp(k) =>
    case DrainOp =>
  }

  lemma StepStaysWithin(m: Machine, e: Event, perShard: nat)
    requires ShardsInv(m.shards) && |m.reading| == |m.shards| && CacheTheorems.Within(m.shards, perShard)
    requires e.StartInsert? ==> e.core.size <= perShard
    ensures var n := Step(m, e);
            |n.shards| == |m.shards| && |n.reading| == |n.shards| && CacheTheorems.Within(n.shards, perShard)
  {
    var n := Step(m, e);
    assert |n.shards| == |m.shards| && |n.reading| == |m.reading|;
    forall i | 0 <= i < |m.shards|
      ensures n.shards[i].capacity == perShard && n.shards[i].size <= perShard
    {
      StepOnShard(m, e, i);
      match WriteOn(m, e, i)
      case Some(op) =>
        StepKeepsInv(m.shards[i], op);
        OpStaysWithin(m.shards[i], op);
      case None =>
        match ReadOn(m, e, i)
        case Some(move) => Readers.MoveKeepsShard(PhaseOf(m, i), move);
        case None => assert PhaseOf(n, i).state == PhaseOf(m, i).state;
    }
  }

  lemma {:induction false} RunStaysWithin(m: Machine, events: seq<Event>, perShard: nat)
    requires Inv(m) && CacheTheorems.Within(m.shards, perShard) && FittingEvents(events, perShard)
    ensures var n := RunEvents(m, events);
            CacheTheorems.Within(n.shards, perShard) && |n.shards| == |m.shards|
    decreases |events|
  {
    if events != [] {
      StepStaysWithin(m, events[0], perShard);
      StepKeepsBooks(m, events[0]);
      StepKeepsLocks(m, events[0]);
      RunStaysWithin(Step(m, events[0]), events[1..], perShard);
    }
  }

  // If no entry is larger than a shard, the shards never hold more than their capacities add up
  // to, at any moment of any interleaving; and when nothing is in flight, `size` says so too.
  lemma {:induction false} AlwaysWithinMaximum(shardCount: nat, perShard: nat, threads: set<nat>, events: seq<Event>)
    requires shardCount * perShard < TWO_64 && FittingEvents(events, perShard)
    ensures var m := RunEvents(Initial(seq(shardCount, _ => perShard), threads), events);
            && TotalSize(m.shards) <= shardCount * perShard
            && (AllIdle(m.threads) ==> m.size <= shardCount * perShard)
  {
    var capacities := seq(shardCount, _ => perShard);
    InitialInv(capacities, threads);
    RunStaysWithin(Initial(capacities, threads), events, perShard);
    var m := RunEvents(Initial(capacities, threads), events);
    CacheTheorems.TotalWithin(m.shards, perShard);
    if AllIdle(m.threads) {
      CountersExactWhenQuiet(capacities, threads, events);
    }
  }
}
