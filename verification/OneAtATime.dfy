// The two models of the cache agree: operations that threads run one after the other, each with
// all its steps, do to shards and counters what the sequential cache does.
module OneAtATime {
  import opened Types
  import opened Sums
  import opened ShardModel
  import opened ShardLaws
  import opened ShardRuns
  import opened Accounting
  import opened CacheModel
  import CacheTheorems

  ghost predicate Unlocked(m: Machine) {
    && (forall i :: 0 <= i < |m.writer| ==> m.writer[i] == None)
    && (forall i :: 0 <= i < |m.reading| ==> m.reading[i] == Readers.NOBODY)
  }

  // Nothing is in flight, and the machine holds and shows what the sequential cache does.
  ghost predicate Shows(m: Machine, c: CacheState) {
    && m.shards == c.shards && m.size == Wrap(c.size) && m.count == Wrap(c.count)
    && AllIdle(m.threads) && |m.writer| == |m.shards| == |m.reading|
    && Unlocked(m)
  }

  function Publishes(t: nat, n: nat): seq<Event> {
    if n == 0 then [] else [Publish(t)] + Publishes(t, n - 1)
  }

  // The accesses of a lookup that hits: the clock bit, the load and the store.
  function LookupEvents(t: nat, hit: bool): seq<Event> {
    if hit then [Access(t, 0), Access(t, 0), Access(t, 1)] else []
  }

  function ClearingEvents(t: nat, shards: nat): seq<Event> {
    if shards == 0 then [ClearNext(t)]
    else [ClearNext(t)] + (Publishes(t, 2) + [Unlock(t)]) + ClearingEvents(t, shards - 1)
  }

  // All steps of one operation by thread t, in their order.
  ghost function EventsOf(c: CacheState, home: Key -> nat, t: nat, op: CacheOp): seq<Event>
    requires Housed(c, home)
  {
    match op
    case InsertOp(k, core) =>
      var r := ShardModel.Insert(c.shards[home(k)], k, Fresh(core));
      [StartInsert(t, home(k), k, core)] + (Publishes(t, |InsertUpdates(r, core.size)|) + [Publish(t)])
    case RemoveOp(k) =>
      [StartRemove(t, home(k), k)] +
      if k in c.shards[home(k)].entries then Publishes(t, 2) + [Unlock(t)] else []
    case LookupOp(k) =>
      [StartLookup(t, home(k), k)] + LookupEvents(t, k in c.shards[home(k)].entries) + [EndLookup(t)]
    case ClearOp => [StartClear(t)] + ClearingEvents(t, |c.shards|)
  }

  lemma {:induction false} RunOneThenMore(m: Machine, e: Event, events: seq<Event>)
    ensures RunEvents(m, [e] + events) == RunEvents(Step(m, e), events)
  {
    assert ([e] + events)[1..] == events;
  }

  lemma {:induction false} RunInParts(m: Machine, first: seq<Event>, events: seq<Event>)
    ensures RunEvents(m, first + events) == RunEvents(RunEvents(m, first), events)
    decreases |first|
  {
    if first == [] {
      assert first + events == events;
    } else {
      assert (first + events)[0] == first[0] && (first + events)[1..] == first[1..] + events;
      RunInParts(Step(m, first[0]), first[1..], events);
    }
  }

  function WithTodo(th: Thread, todo: seq<Update>): Thread {
    match th
    case Publishing(_) => Publishing(todo)
    case Holding(i, _, next) => Holding(i, todo, next)
    case _ => th
  }

  // A counter after updates that add up to n.
  function Plus(counter: U64, n: int): U64 {
    Wrap(counter + n)
  }

  // The machine with its counters changed and thread t gone on to `th`.
  function Shifted(m: Machine, size: int, count: int, t: nat, th: Thread): Machine {
    m.(size := Plus(m.size, size), count := Plus(m.count, count), threads := m.threads[t := th])
  }

  lemma ShiftedTwice(m: Machine, a: int, b: int, x: int, y: int, t: nat, th: Thread, th': Thread)
    ensures Shifted(Shifted(m, a, b, t, th), x, y, t, th') == Shifted(m, a + x, b + y, t, th')
  {
  }

  lemma {:induction false} PublishAll(m: Machine, t: nat)
    requires t in m.threads && (m.threads[t].Publishing? || m.threads[t].Holding?)
    ensures var todo := Todo(m.threads[t]);
            RunEvents(m, Publishes(t, |todo|)) ==
            Shifted(m, SizeEffects(todo), CountEffects(todo), t, WithTodo(m.threads[t], []))
    decreases |Todo(m.threads[t])|
  {
    var th, todo := m.threads[t], Todo(m.threads[t]);
    if todo == [] {
      assert m.threads[t := th] == m.threads;
    } else {
      var rest := WithTodo(th, todo[1..]);
      var n := Shifted(m, SizeEffect(todo[0]), CountEffect(todo[0]), t, rest);
      assert Step(m, Publish(t)) == n;
      RunOneThenMore(m, Publish(t), Publishes(t, |todo| - 1));
      PublishAll(n, t);
      ShiftedTwice(m, SizeEffect(todo[0]), CountEffect(todo[0]), SizeEffects(todo[1..]), CountEffects(todo[1..]),
                   t, rest, WithTodo(th, []));
    }
  }

  // The last step of an insert, and of a removal or one shard of a clear.
  lemma InsertEnds(n: Machine, size: int, count: int, t: nat)
    ensures Step(Shifted(n, size, count, t, Publishing([])), Publish(t)) == Shifted(n, size, count, t, Idle)
  {
    assert n.threads[t := Publishing([])][t := Idle] == n.threads[t := Idle];
  }

  lemma SectionEnds(m: Machine, n: Machine, size: int, count: int, t: nat, i: nat, next: Option<nat>)
    requires i < |m.writer| && m.writer[i] == None && n.writer == m.writer[i := Some(t)]
    ensures var th := match next case None => Idle case Some(j) => Clearing(j);
            Step(Shifted(n, size, count, t, Holding(i, [], next)), Unlock(t)) ==
            Shifted(n.(writer := m.writer), size, count, t, th)
  {
    var th := match next case None => Idle case Some(j) => Clearing(j);
    assert n.threads[t := Holding(i, [], next)][t := th] == n.threads[t := th];
    assert n.writer[i := None] == m.writer;
  }

  lemma ShiftedFrom(n: Machine, m: Machine, size: int, count: int, t: nat, was: Thread, th: Thread)
    requires n.threads == m.threads[t := was] && n == m.(shards := n.shards, threads := n.threads)
    ensures Shifted(n, size, count, t, th) == Shifted(m.(shards := n.shards), size, count, t, th)
  {
    assert m.threads[t := was][t := th] == m.threads[t := th];
  }

  lemma RunOne(m: Machine, e: Event)
    ensures RunEvents(m, [e]) == Step(m, e)
  {
    assert RunEvents(Step(m, e), []) == Step(m, e);
    assert [e][1..] == [];
  }

  // An operation that has started, publishes everything and then does one more step.
  lemma PublishAllThen(m: Machine, e: Event, n: Machine, t: nat, last: Event)
    requires Step(m, e) == n
    requires t in n.threads && (n.threads[t].Publishing? || n.threads[t].Holding?)
    ensures var todo := Todo(n.threads[t]);
            RunEvents(m, [e] + (Publishes(t, |todo|) + [last])) ==
            Step(Shifted(n, SizeEffects(todo), CountEffects(todo), t, WithTodo(n.threads[t], [])), last)
  {
    var todo := Todo(n.threads[t]);
    RunOneThenMore(m, e, Publishes(t, |todo|) + [last]);
    RunInParts(n, Publishes(t, |todo|), [last]);
    PublishAll(n, t);
    RunOne(RunEvents(n, Publishes(t, |todo|)), last);
  }

  lemma CounterFollows(counter: U64, before: int, effect: int, change: int, after: int)
    requires counter == Wrap(before) && Congruent(change, effect) && after == before + change
    ensures Plus(counter, effect) == Wrap(after)
  {
  }

  // What a critical section publishes, added to a counter that shows the total before, shows
  // the total after.
  lemma SectionShows(s: ShardState, s': ShardState, todo: seq<Update>, c: CacheState, d: CacheState,
                     size: U64, count: U64)
    requires Exact(s, s', todo) && size == Wrap(c.size) && count == Wrap(c.count)
    requires d.size == c.size + (s'.size - s.size)
    requires d.count == c.count + (Count(s'.entries.Keys) - Count(s.entries.Keys))
    ensures Plus(size, SizeEffects(todo)) == Wrap(d.size)
    ensures Plus(count, CountEffects(todo)) == Wrap(d.count)
  {
    CounterFollows(size, c.size, SizeEffects(todo), s'.size - s.size, d.size);
    CounterFollows(count, c.count, CountEffects(todo), Count(s'.entries.Keys) - Count(s.entries.Keys), d.count);
  }

  lemma InsertChanges(c: CacheState, home: Key -> nat, k: Key, core: Core)
    requires CacheInv(c, home)
    ensures var s := c.shards[home(k)];
            var r := ShardModel.Insert(s, k, Fresh(core));
            var d := CacheInsert(c, home, k, core);
            && d.size == c.size + (r.after.size - s.size)
            && d.count == c.count + (Count(r.after.entries.Keys) - Count(s.entries.Keys))
  {
    var s := c.shards[home(k)];
    InsertBytes(s, k, Fresh(core));
    InsertCounts(s, k, Fresh(core));
    InsertReplaces(s, k, Fresh(core));
  }

  lemma ShowsAfter(m: Machine, c: CacheState, d: CacheState, size: int, count: int, t: nat)
    requires Shows(m, c) && t in m.threads && |d.shards| == |c.shards|
    requires Plus(m.size, size) == Wrap(d.size) && Plus(m.count, count) == Wrap(d.count)
    ensures var n := Shifted(m.(shards := d.shards), size, count, t, Idle);
            Shows(n, d) && n.threads == m.threads
  {
    assert m.threads[t := Idle] == m.threads;
  }

  lemma InsertRuns(m: Machine, t: nat, i: nat, k: Key, core: Core)
    requires t in m.threads && m.threads[t] == Idle && Free(m, i)
    ensures var r := ShardModel.Insert(m.shards[i], k, Fresh(core));
            var todo := InsertUpdates(r, core.size);
            RunEvents(m, [StartInsert(t, i, k, core)] + (Publishes(t, |todo|) + [Publish(t)])) ==
            Shifted(m.(shards := m.shards[i := r.after]), SizeEffects(todo), CountEffects(todo), t, Idle)
  {
    var n := InsertStep(m, t, i, k, core);
    var todo := Todo(n.threads[t]);
    PublishAllThen(m, StartInsert(t, i, k, core), n, t, Publish(t));
    InsertEnds(n, SizeEffects(todo), CountEffects(todo), t);
    ShiftedFrom(n, m, SizeEffects(todo), CountEffects(todo), t, Publishing(todo), Idle);
  }

  lemma InsertAlone(m: Machine, c: CacheState, home: Key -> nat, t: nat, k: Key, core: Core)
    requires CacheInv(c, home) && Shows(m, c) && t in m.threads
    ensures var n := RunEvents(m, EventsOf(c, home, t, CacheOp.InsertOp(k, core)));
            Shows(n, CacheInsert(c, home, k, core)) && n.threads == m.threads
  {
    var i, s := home(k), c.shards[home(k)];
    var r := ShardModel.Insert(s, k, Fresh(core));
    var todo := InsertUpdates(r, core.size);
    InsertRuns(m, t, i, k, core);
    InsertIsExact(s, k, core);
    InsertChanges(c, home, k, core);
    SectionShows(s, r.after, todo, c, CacheInsert(c, home, k, core), m.size, m.count);
    ShowsAfter(m, c, CacheInsert(c, home, k, core), SizeEffects(todo), CountEffects(todo), t);
  }

  lemma RemoveRuns(m: Machine, t: nat, i: nat, k: Key)
    requires t in m.threads && m.threads[t] == Idle && Free(m, i) && k in m.shards[i].entries
    ensures var todo := RemoveUpdates(m.shards[i].entries[k].core.size);
            RunEvents(m, [StartRemove(t, i, k)] + (Publishes(t, 2) + [Unlock(t)])) ==
            Shifted(m.(shards := m.shards[i := ShardModel.Remove(m.shards[i], k)]),
                    SizeEffects(todo), CountEffects(todo), t, Idle)
  {
    var n := RemoveStep(m, t, i, k);
    var todo := Todo(n.threads[t]);
    PublishAllThen(m, StartRemove(t, i, k), n, t, Unlock(t));
    SectionEnds(m, n, SizeEffects(todo), CountEffects(todo), t, i, None);
    ShiftedFrom(n.(writer := m.writer), m, SizeEffects(todo), CountEffects(todo), t, n.threads[t], Idle);
  }

  lemma RemoveAlone(m: Machine, c: CacheState, home: Key -> nat, t: nat, k: Key)
    requires CacheInv(c, home) && Shows(m, c) && t in m.threads
    ensures var n := RunEvents(m, EventsOf(c, home, t, CacheOp.RemoveOp(k)));
            Shows(n, CacheRemove(c, home, k)) && n.threads == m.threads
  {
    var i, s := home(k), c.shards[home(k)];
    if k in s.entries {
      var todo := RemoveUpdates(s.entries[k].core.size);
      var d := CacheRemove(c, home, k);
      RemoveRuns(m, t, i, k);
      RemoveIsExact(s, k);
      RemoveConserves(s, k);
      CountRemove(s.entries.Keys, k);
      SectionShows(s, ShardModel.Remove(s, k), todo, c, d, m.size, m.count);
      ShowsAfter(m, c, d, SizeEffects(todo), CountEffects(todo), t);
    } else {
      RunOne(m, StartRemove(t, i, k));
      assert [StartRemove(t, i, k)] + [] == [StartRemove(t, i, k)];
    }
  }

  // ----- looking up -----

  // The machine with another read phase of shard i and thread t gone on to `th`.
  function Put(m: Machine, t: nat, i: nat, p: Readers.Phase, th: Thread): Machine
    requires i < |m.shards| == |m.reading|
  {
    m.(shards := m.shards[i := p.state], reading := m.reading[i := p.reading], threads := m.threads[t := th])
  }

  lemma PutTwice(m: Machine, t: nat, i: nat, p: Readers.Phase, th: Thread, q: Readers.Phase, th': Thread)
    requires i < |m.shards| == |m.reading|
    ensures Put(Put(m, t, i, p, th), t, i, q, th') == Put(m, t, i, q, th')
  {
  }

  // The next access of the only lookup in shard i.
  lemma AccessAlone(m: Machine, t: nat, i: nat, p: Readers.Phase, at: nat)
    requires t in m.threads && i < |m.shards| == |m.reading| && t in p.reading.readers
    ensures Step(Put(m, t, i, p, Reading(i)), Access(t, at)) ==
            Put(m, t, i, Readers.StepPhase(p, Readers.Next(t, at)), Reading(i))
  {
    var q := Readers.StepPhase(p, Readers.Next(t, at));
    assert t in q.reading.readers;
    assert Settled(q) == q;
    PutTwice(m, t, i, p, Reading(i), q, Reading(i));
  }

  lemma EndAlone(m: Machine, t: nat, i: nat, p: Readers.Phase, k: Key)
    requires t in m.threads && i < |m.shards| == |m.reading|
    requires p.reading.readers == map[t := Readers.Lookup(k, Readers.Done)]
    ensures Step(Put(m, t, i, p, Reading(i)), EndLookup(t)) ==
            Put(m, t, i, Readers.Phase(p.state, Readers.NOBODY), Idle)
  {
    assert p.reading.readers - {t} == map[];
    PutTwice(m, t, i, p, Reading(i), Readers.Phase(p.state, Readers.NOBODY), Idle);
  }

  lemma HitAlone(m: Machine, t: nat, i: nat, k: Key)
    requires t in m.threads && m.threads[t] == Idle && Readable(m, i) && m.reading[i] == Readers.NOBODY
    requires k in m.shards[i].entries
    ensures RunEvents(m, [StartLookup(t, i, k)] + LookupEvents(t, true) + [EndLookup(t)]) ==
            Put(m, t, i, Readers.Phase(Touch(m.shards[i], k), Readers.NOBODY), Idle)
  {
    var p := Readers.Phase(m.shards[i], Readers.NOBODY);
    var p1 := Readers.StepPhase(p, Readers.Enter(t, k));
    var p2 := Readers.StepPhase(p1, Readers.Next(t, 0));
    var p3 := Readers.StepPhase(p2, Readers.Next(t, 0));
    var p4 := Readers.StepPhase(p3, Readers.Next(t, 1));
    Readers.Alone(m.shards[i], t, k);
    assert Step(m, StartLookup(t, i, k)) == Put(m, t, i, p1, Reading(i));
    AccessAlone(m, t, i, p1, 0);
    AccessAlone(m, t, i, p2, 0);
    AccessAlone(m, t, i, p3, 1);
    EndAlone(m, t, i, p4, k);
    RunFive(m, StartLookup(t, i, k), Access(t, 0), Access(t, 0), Access(t, 1), EndLookup(t));
    assert [StartLookup(t, i, k)] + LookupEvents(t, true) + [EndLookup(t)] ==
      [StartLookup(t, i, k), Access(t, 0), Access(t, 0), Access(t, 1), EndLookup(t)];
  }

  lemma RunFive(m: Machine, a: Event, b: Event, c: Event, d: Event, e: Event)
    ensures RunEvents(m, [a, b, c, d, e]) == Step(Step(Step(Step(Step(m, a), b), c), d), e)
  {
    var n := Step(Step(m, a), b);
    RunThree(n, c, d, e);
    RunOneThenMore(Step(m, a), b, [c, d, e]);
    RunOneThenMore(m, a, [b] + [c, d, e]);
    assert [a] + ([b] + [c, d, e]) == [a, b, c, d, e];
  }

  lemma MissAlone(m: Machine, t: nat, i: nat, k: Key)
    requires t in m.threads && m.threads[t] == Idle && Readable(m, i) && m.reading[i] == Readers.NOBODY
    requires k !in m.shards[i].entries
    ensures RunEvents(m, [StartLookup(t, i, k)] + LookupEvents(t, false) + [EndLookup(t)]) ==
            Put(m, t, i, Readers.Phase(m.shards[i], Readers.NOBODY), Idle)
  {
    var p := Readers.StepPhase(Readers.Phase(m.shards[i], Readers.NOBODY), Readers.Enter(t, k));
    assert Step(m, StartLookup(t, i, k)) == Put(m, t, i, p, Reading(i));
    EndAlone(m, t, i, p, k);
    RunOneThenMore(m, StartLookup(t, i, k), [EndLookup(t)]);
    RunOne(Put(m, t, i, p, Reading(i)), EndLookup(t));
    assert [StartLookup(t, i, k)] + LookupEvents(t, false) + [EndLookup(t)] == [StartLookup(t, i, k)] + [EndLookup(t)];
  }

  lemma LookupAlone(m: Machine, c: CacheState, home: Key -> nat, t: nat, k: Key)
    requires CacheInv(c, home) && Shows(m, c) && t in m.threads
    ensures var n := RunEvents(m, EventsOf(c, home, t, CacheOp.LookupOp(k)));
            Shows(n, CacheLookup(c, home, k)) && n.threads == m.threads
  {
    var i := home(k);
    if k in c.shards[i].entries {
      HitAlone(m, t, i, k);
    } else {
      MissAlone(m, t, i, k);
      assert Touch(c.shards[i], k) == c.shards[i];
    }
    assert m.threads[t := Idle] == m.threads;
  }

  // ----- clearing -----

  // The shards when a clear that is at shard i has come to its end.
  function DrainedFrom(shards: seq<ShardState>, i: nat): seq<ShardState> {
    seq(|shards|, j requires 0 <= j < |shards| => if j < i then shards[j] else Drained(shards[j]))
  }

  lemma DrainNext(shards: seq<ShardState>, i: nat)
    requires i < |shards|
    ensures DrainedFrom(shards[i := Drained(shards[i])], i + 1) == DrainedFrom(shards, i)
  {
  }

  // The cache when a clear has left `shards` of it, with the counters down by the difference.
  ghost function Emptied(c: CacheState, shards: seq<ShardState>): CacheState {
    c.(shards := shards,
       size := c.size - (TotalSize(c.shards) - TotalSize(shards)),
       count := c.count - (TotalCount(c.shards) - TotalCount(shards)))
  }

  lemma EmptiedTwice(c: CacheState, some: seq<ShardState>, more: seq<ShardState>)
    ensures Emptied(Emptied(c, some), more) == Emptied(c, more)
  {
  }

  // A clear by thread t is between two shards, and nothing else is in flight.
  ghost predicate ClearingAt(m: Machine, c: CacheState, t: nat, i: nat) {
    && m.shards == c.shards && m.size == Wrap(c.size) && m.count == Wrap(c.count)
    && t in m.threads && m.threads[t] == Clearing(i) && i <= |m.shards| == |m.writer| == |m.reading|
    && Unlocked(m)
    && ShardsInv(m.shards)
  }

  lemma DrainRuns(m: Machine, t: nat, i: nat)
    requires t in m.threads && m.threads[t] == Clearing(i) && Free(m, i)
    ensures var todo := DrainUpdates(m.shards[i]);
            RunEvents(m, [ClearNext(t)] + (Publishes(t, 2) + [Unlock(t)])) ==
            Shifted(m.(shards := m.shards[i := Drained(m.shards[i])]),
                    SizeEffects(todo), CountEffects(todo), t, Clearing(i + 1))
  {
    var n := ClearStep(m, t, i);
    var todo := Todo(n.threads[t]);
    PublishAllThen(m, ClearNext(t), n, t, Unlock(t));
    SectionEnds(m, n, SizeEffects(todo), CountEffects(todo), t, i, Some(i + 1));
    ShiftedFrom(n.(writer := m.writer), m, SizeEffects(todo), CountEffects(todo), t, n.threads[t], Clearing(i + 1));
  }

  lemma DrainAlone(m: Machine, c: CacheState, t: nat, i: nat)
    requires ClearingAt(m, c, t, i) && i < |m.shards|
    ensures var n := RunEvents(m, [ClearNext(t)] + (Publishes(t, 2) + [Unlock(t)]));
            && ClearingAt(n, Emptied(c, c.shards[i := Drained(c.shards[i])]), t, i + 1)
            && n.threads == m.threads[t := Clearing(i + 1)]
  {
    var s, todo := m.shards[i], DrainUpdates(m.shards[i]);
    var d := Emptied(c, c.shards[i := Drained(s)]);
    assert ShardInv(s);
    NewInv(s.capacity);
    DrainRuns(m, t, i);
    DrainIsExact(s);
    TotalsUpdate(c.shards, i, Drained(s));
    SectionShows(s, Drained(s), todo, c, d, m.size, m.count);
  }

  // n is what a clear that is at shard i makes of m.
  ghost predicate ClearedFrom(m: Machine, c: CacheState, t: nat, i: nat, n: Machine) {
    var d := Emptied(c, DrainedFrom(c.shards, i));
    && n.shards == d.shards && n.size == Wrap(d.size) && n.count == Wrap(d.count)
    && n.threads == m.threads[t := Idle] && n.writer == m.writer && n.reading == m.reading
  }

  lemma {:induction false} ClearEnds(m: Machine, c: CacheState, t: nat, i: nat)
    requires ClearingAt(m, c, t, i) && i == |m.shards|
    ensures ClearedFrom(m, c, t, i, RunEvents(m, ClearingEvents(t, 0)))
  {
    RunOne(m, ClearNext(t));
    assert DrainedFrom(c.shards, i) == c.shards;
  }

  lemma {:induction false} ClearGoesOn(m: Machine, c: CacheState, t: nat, i: nat, left: nat) returns (n: Machine)
    requires ClearingAt(m, c, t, i) && i + left == |m.shards| && left > 0
    ensures RunEvents(m, ClearingEvents(t, left)) == RunEvents(n, ClearingEvents(t, left - 1))
    ensures ClearingAt(n, Emptied(c, c.shards[i := Drained(c.shards[i])]), t, i + 1)
    ensures n.threads[t := Idle] == m.threads[t := Idle] && n.writer == m.writer && n.reading == m.reading
  {
    var events := [ClearNext(t)] + (Publishes(t, 2) + [Unlock(t)]);
    n := RunEvents(m, events);
    DrainAlone(m, c, t, i);
    assert ClearingEvents(t, left) == events + ClearingEvents(t, left - 1);
    RunInParts(m, events, ClearingEvents(t, left - 1));
  }

  lemma ClearedOneMore(m: Machine, c: CacheState, t: nat, i: nat, n: Machine, end: Machine)
    requires i < |c.shards| && ClearedFrom(n, Emptied(c, c.shards[i := Drained(c.shards[i])]), t, i + 1, end)
    requires n.threads[t := Idle] == m.threads[t := Idle] && n.writer == m.writer && n.reading == m.reading
    ensures ClearedFrom(m, c, t, i, end)
  {
    DrainNext(c.shards, i);
    EmptiedTwice(c, c.shards[i := Drained(c.shards[i])], DrainedFrom(c.shards, i));
  }

  lemma {:induction false} ClearRest(m: Machine, c: CacheState, t: nat, i: nat, left: nat)
    requires ClearingAt(m, c, t, i) && i + left == |m.shards|
    ensures ClearedFrom(m, c, t, i, RunEvents(m, ClearingEvents(t, left)))
    decreases left
  {
    if left == 0 {
      ClearEnds(m, c, t, i);
    } else {
      var n := ClearGoesOn(m, c, t, i, left);
      ClearRest(n, Emptied(c, c.shards[i := Drained(c.shards[i])]), t, i + 1, left - 1);
      ClearedOneMore(m, c, t, i, n, RunEvents(m, ClearingEvents(t, left)));
    }
  }

  lemma ClearedIsEmptied(c: CacheState, home: Key -> nat)
    requires CacheInv(c, home)
    ensures var d := Emptied(c, DrainedFrom(c.shards, 0));
            d.shards == CacheClear(c).shards && d.size == CacheClear(c).size && d.count == CacheClear(c).count
  {
    assert DrainedFrom(c.shards, 0) == AllDrained(c.shards);
    CacheTheorems.DrainedInv(c.shards);
  }

  lemma {:induction false} ClearBegins(m: Machine, c: CacheState, home: Key -> nat, t: nat, n: Machine)
    requires CacheInv(c, home) && Shows(m, c) && t in m.threads
    requires n == RunEvents(m, EventsOf(c, home, t, CacheOp.ClearOp))
    ensures ClearedFrom(Becomes(m, t, Clearing(0)), c, t, 0, n)
  {
    RunOneThenMore(m, StartClear(t), ClearingEvents(t, |c.shards|));
    ClearRest(Becomes(m, t, Clearing(0)), c, t, 0, |c.shards|);
  }

  lemma ClearAlone(m: Machine, c: CacheState, home: Key -> nat, t: nat)
    requires CacheInv(c, home) && Shows(m, c) && t in m.threads
    ensures var n := RunEvents(m, EventsOf(c, home, t, CacheOp.ClearOp));
            Shows(n, CacheClear(c)) && n.threads == m.threads
  {
    ClearBegins(m, c, home, t, RunEvents(m, EventsOf(c, home, t, CacheOp.ClearOp)));
    ClearedIsEmptied(c, home);
    assert m.threads[t := Clearing(0)][t := Idle] == m.threads;
  }

  // ----- any operation, any run -----

  lemma StepAlone(m: Machine, c: CacheState, home: Key -> nat, t: nat, op: CacheOp)
    requires CacheInv(c, home) && Shows(m, c) && t in m.threads
    ensures var n := RunEvents(m, EventsOf(c, home, t, op));
            Shows(n, StepCache(c, home, op)) && n.threads == m.threads
  {
    match op
    case InsertOp(k, core) => InsertAlone(m, c, home, t, k, core);
    case RemoveOp(k) => RemoveAlone(m, c, home, t, k);
    case LookupOp(k) => LookupAlone(m, c, home, t, k);
    case ClearOp => ClearAlone(m, c, home, t);
  }

  datatype Turn = Turn(thread: nat, op: CacheOp)

  function OpsOf(turns: seq<Turn>): seq<CacheOp> {
    if turns == [] then [] else [turns[0].op] + OpsOf(turns[1..])
  }

  ghost function EventsOfTurns(c: CacheState, home: Key -> nat, turns: seq<Turn>): seq<Event>
    requires CacheInv(c, home)
    decreases |turns|
  {
    if turns == [] then []
    else
      CacheTheorems.StepKeepsCacheInv(c, home, turns[0].op);
      EventsOf(c, home, turns[0].thread, turns[0].op) +
      EventsOfTurns(StepCache(c, home, turns[0].op), home, turns[1..])
  }

  // Whichever threads take the turns: a run of whole operations ends with the shards of the
  // sequential cache, and with its counters modulo 2^64.
  lemma {:induction false} RunAlone(m: Machine, c: CacheState, home: Key -> nat, turns: seq<Turn>)
    requires CacheInv(c, home) && Shows(m, c)
    requires forall turn :: turn in turns ==> turn.thread in m.threads
    ensures Shows(RunEvents(m, EventsOfTurns(c, home, turns)), CacheTheorems.RunCache(c, home, OpsOf(turns)))
    decreases |turns|
  {
    if turns != [] {
      var t, op, d := turns[0].thread, turns[0].op, StepCache(c, home, turns[0].op);
      CacheTheorems.StepKeepsCacheInv(c, home, op);
      StepAlone(m, c, home, t, op);
      RunInParts(m, EventsOf(c, home, t, op), EventsOfTurns(d, home, turns[1..]));
      RunAlone(RunEvents(m, EventsOf(c, home, t, op)), d, home, turns[1..]);
      assert OpsOf(turns)[0] == op && OpsOf(turns)[1..] == OpsOf(turns[1..]);
    }
  }
}
