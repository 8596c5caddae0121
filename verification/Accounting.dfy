// The cache under concurrency: any number of threads insert into, remove from, look up in and
// clear any number of shards. Each shard has a lock for one writer or any number of readers.
// Lookups share it and race on the entries they find, access by access (see Readers.dfy). An
// insert adjusts the counters after it has let go of the lock, one atomic update at a time.
module Accounting {
  import opened Types
  import opened Sums
  import opened ShardModel
  import opened Evictions
  import opened ShardLaws
  import opened ShardRuns
  import Readers

  // ----- what is published -----

  // One wrapping update of one counter.
  datatype Update = AddSize(n: int) | SubSize(n: int) | AddCount(n: int) | SubCount(n: int)

  function SizeEffect(u: Update): int {
    match u
    case AddSize(n) => n
    case SubSize(n) => -n
    case _ => 0
  }

  function CountEffect(u: Update): int {
    match u
    case AddCount(n) => n
    case SubCount(n) => -n
    case _ => 0
  }

  function SizeEffects(todo: seq<Update>): int {
    if todo == [] then 0 else SizeEffect(todo[0]) + SizeEffects(todo[1..])
  }

  function CountEffects(todo: seq<Update>): int {
    if todo == [] then 0 else CountEffect(todo[0]) + CountEffects(todo[1..])
  }

  // 64-bit two's complement.
  function AsSigned(n: U64): int {
    if n < TWO_63 then n else n - TWO_64
  }

  function WrapSigned(n: int): int {
    Wrap(n + TWO_63) - TWO_63
  }

  function AsUnsigned(n: int): U64
    requires -TWO_63 <= n < TWO_63
  {
    if n >= 0 then n else n + TWO_64
  }

  // The update for a replaced entry: a signed difference, published by its sign.
  function ReplaceUpdate(newSize: U64, oldSize: U64): Update {
    var diff := WrapSigned(AsSigned(newSize) - AsSigned(oldSize));
    if diff > 0 then AddSize(AsUnsigned(diff)) else SubSize(AsUnsigned(WrapSigned(-diff)))
  }

  // Whatever the sizes are, even where the signed difference wraps, the counter moves by the
  // difference of the sizes modulo 2^64.
  lemma ReplaceUpdateIsExact(newSize: U64, oldSize: U64)
    ensures Congruent(SizeEffect(ReplaceUpdate(newSize, oldSize)), newSize - oldSize)
  {
    var diff := WrapSigned(AsSigned(newSize) - AsSigned(oldSize));
    SignedIsExact(newSize, oldSize);
    if diff <= 0 {
      NegatedIsExact(diff);
    }
  }

  lemma SignedIsExact(a: U64, b: U64)
    ensures Congruent(WrapSigned(AsSigned(a) - AsSigned(b)), a - b)
  {
  }

  lemma NegatedIsExact(diff: int)
    requires -TWO_63 <= diff <= 0
    ensures Congruent(SizeEffect(SubSize(AsUnsigned(WrapSigned(-diff)))), diff)
  {
  }

  // For the new entry: a replacement, or an entry more.
  function EnterUpdates(r: InsertResult, size: U64): seq<Update> {
    match r.replaced
    case Some(was) => [ReplaceUpdate(size, was.core.size)]
    case None => [AddSize(size), AddCount(1)]
  }

  // For the evicted ones, if any.
  function LeaveUpdates(evicted: seq<Evicted>): seq<Update> {
    if |evicted| > 0 then [SubCount(|evicted|), SubSize(BytesOf(evicted))] else []
  }

  function InsertUpdates(r: InsertResult, size: U64): seq<Update> {
    EnterUpdates(r, size) + LeaveUpdates(r.evicted)
  }

  function RemoveUpdates(size: int): seq<Update> {
    [SubSize(size), SubCount(1)]
  }

  ghost function DrainUpdates(s: ShardState): seq<Update> {
    [SubSize(s.size), SubCount(Count(s.entries.Keys))]
  }

  // ----- the machine -----

  datatype Thread =
    | Idle
    | Publishing(todo: seq<Update>)                            // an insert, after its lock
    | Holding(shard: nat, todo: seq<Update>, next: Option<nat>) // a removal, or a clear that goes on at `next`
    | Clearing(from: nat)                                      // a clear, between two shards
    | Reading(shard: nat)                                      // a lookup, under the lock

  datatype Machine = Machine(
    shards: seq<ShardState>,
    writer: seq<Option<nat>>,        // which thread holds each shard's lock as a writer across steps
    reading: seq<Readers.Reading>,   // the lookups that hold it as readers
    size: U64,
    count: U64,
    threads: map<nat, Thread>)

  datatype Event =
    | StartInsert(t: nat, shard: nat, key: Key, core: Core)
    | StartRemove(t: nat, shard: nat, key: Key)
    | StartLookup(t: nat, shard: nat, key: Key)
    | Access(t: nat, at: nat)
    | EndLookup(t: nat)
    | StartClear(t: nat)
    | ClearNext(t: nat)
    | Publish(t: nat)
    | Unlock(t: nat)

  function Published(m: Machine, u: Update): Machine {
    m.(size := Wrap(m.size + SizeEffect(u)), count := Wrap(m.count + CountEffect(u)))
  }

  // No writer is in the shard.
  predicate Readable(m: Machine, shard: nat) {
    shard < |m.shards| == |m.writer| == |m.reading| && m.writer[shard] == None
  }

  // Nobody is.
  predicate Free(m: Machine, shard: nat) {
    Readable(m, shard) && m.reading[shard].readers == map[] && Filed(m.shards[shard])
  }

  // An insert, up to the end of its critical section: it touches nothing but the locked shard.
  function InsertStep(m: Machine, t: nat, i: nat, k: Key, core: Core): Machine {
    if !Free(m, i) then m
    else
      var r := ShardModel.Insert(m.shards[i], k, Fresh(core));
      m.(shards := m.shards[i := r.after], threads := m.threads[t := Publishing(InsertUpdates(r, core.size))])
  }

  // A removal that finds its key keeps the lock while it publishes.
  function RemoveStep(m: Machine, t: nat, i: nat, k: Key): Machine {
    if !Free(m, i) || k !in m.shards[i].entries then m
    else
      m.(shards := m.shards[i := ShardModel.Remove(m.shards[i], k)],
         writer := m.writer[i := Some(t)],
         threads := m.threads[t := Holding(i, RemoveUpdates(m.shards[i].entries[k].core.size), None)])
  }

  // When the last lookup has left a shard, whoever enters next sees the present frequencies.
  function Settled(p: Readers.Phase): Readers.Phase {
    if p.reading.readers == map[] then p.(reading := Readers.NOBODY) else p
  }

  // A move of a lookup by thread t in shard i, which leaves the thread at `th`.
  function ReadStep(m: Machine, t: nat, i: nat, move: Readers.Move, th: Thread): Machine {
    if i >= |m.shards| || i >= |m.reading| then m
    else
      var p := Settled(Readers.StepPhase(Readers.Phase(m.shards[i], m.reading[i]), move));
      m.(shards := m.shards[i := p.state], reading := m.reading[i := p.reading], threads := m.threads[t := th])
  }

  predicate CanEnd(m: Machine, t: nat, i: nat) {
    i < |m.reading| && t in m.reading[i].readers && m.reading[i].readers[t].progress.Done?
  }

  // A clear drains one shard at a time, and publishes what it drained under that shard's lock.
  ghost function ClearStep(m: Machine, t: nat, i: nat): Machine {
    if i >= |m.shards| then Becomes(m, t, Idle)
    else if !Free(m, i) then m
    else
      m.(shards := m.shards[i := Drained(m.shards[i])],
         writer := m.writer[i := Some(t)],
         threads := m.threads[t := Holding(i, DrainUpdates(m.shards[i]), Some(i + 1))])
  }

  function UnlockStep(m: Machine, t: nat, i: nat, next: Option<nat>): Machine {
    if i >= |m.writer| then m
    else
      Becomes(m, t, match next case None => Idle case Some(n) => Clearing(n)).(writer := m.writer[i := None])
  }

  function Becomes(m: Machine, t: nat, th: Thread): Machine {
    m.(threads := m.threads[t := th])
  }

  // An event that is not possible leaves the machine as it is.
  ghost function Step(m: Machine, e: Event): Machine {
    if e.t !in m.threads then m
    else
      match (e, m.threads[e.t])
      case (StartInsert(t, i, k, core), Idle) => InsertStep(m, t, i, k, core)
      case (StartRemove(t, i, k), Idle) => RemoveStep(m, t, i, k)
      case (StartLookup(t, i, k), Idle) =>
        if Readable(m, i) then ReadStep(m, t, i, Readers.Enter(t, k), Reading(i)) else m
      case (Access(t, at), Reading(i)) => ReadStep(m, t, i, Readers.Next(t, at), Reading(i))
      case (EndLookup(t), Reading(i)) =>
        if CanEnd(m, t, i) then ReadStep(m, t, i, Readers.Leave(t), Idle) else m
      case (StartClear(t), Idle) => Becomes(m, t, Clearing(0))
      case (ClearNext(t), Clearing(i)) => ClearStep(m, t, i)
      case (Publish(t), Publishing(todo)) =>
        if todo == [] then Becomes(m, t, Idle)
        else Becomes(Published(m, todo[0]), t, Publishing(todo[1..]))
      case (Publish(t), Holding(i, todo, next)) =>
        if todo == [] then m
        else Becomes(Published(m, todo[0]), t, Holding(i, todo[1..], next))
      case (Unlock(t), Holding(i, todo, next)) =>
        if todo != [] then m else UnlockStep(m, t, i, next)
      case _ => m
  }

  ghost function RunEvents(m: Machine, events: seq<Event>): Machine
    decreases |events|
  {
    if events == [] then m else RunEvents(Step(m, events[0]), events[1..])
  }

  // ----- what is kept -----

  function Todo(th: Thread): seq<Update> {
    match th
    case Publishing(todo) => todo
    case Holding(_, todo, _) => todo
    case _ => []
  }

  function PendingSizes(threads: map<nat, Thread>): map<nat, int> {
    map t | t in threads :: SizeEffects(Todo(threads[t]))
  }

  function PendingCounts(threads: map<nat, Thread>): map<nat, int> {
    map t | t in threads :: CountEffects(Todo(threads[t]))
  }

  ghost function PendingSize(threads: map<nat, Thread>): int {
    Sum(threads.Keys, PendingSizes(threads))
  }

  ghost function PendingCount(threads: map<nat, Thread>): int {
    Sum(threads.Keys, PendingCounts(threads))
  }

  function TotalSize(shards: seq<ShardState>): int {
    if shards == [] then 0 else shards[0].size + TotalSize(shards[1..])
  }

  ghost function TotalCount(shards: seq<ShardState>): nat {
    if shards == [] then 0 else Count(shards[0].entries.Keys) + TotalCount(shards[1..])
  }

  // A counter with what is still to be published is the total, modulo 2^64.
  predicate Adds(counter: U64, pending: int, total: int) {
    Congruent(counter + pending, total)
  }

  // Each counter, with the updates that are still to be published, is the total of the shards.
  ghost predicate Balanced(m: Machine) {
    && Adds(m.size, PendingSize(m.threads), TotalSize(m.shards))
    && Adds(m.count, PendingCount(m.threads), TotalCount(m.shards))
  }

  // A lock is held by exactly the writer that is in its critical section, or by exactly the
  // readers that are in theirs, and not by both.
  ghost predicate Locked(m: Machine) {
    && |m.writer| == |m.shards| == |m.reading|
    && WritersLocked(m) && ReadersLocked(m)
    && (forall i {:trigger m.writer[i]} :: 0 <= i < |m.writer| && m.writer[i].Some? ==> m.reading[i].readers == map[])
  }

  ghost predicate WritersLocked(m: Machine) {
    && (forall t {:trigger m.threads[t]} :: t in m.threads && m.threads[t].Holding? ==>
          m.threads[t].shard < |m.writer| && m.writer[m.threads[t].shard] == Some(t))
    && (forall i {:trigger m.writer[i]} :: 0 <= i < |m.writer| && m.writer[i].Some? ==>
          m.writer[i].value in m.threads && m.threads[m.writer[i].value].Holding?
          && m.threads[m.writer[i].value].shard == i)
  }

  ghost predicate ReadersLocked(m: Machine) {
    && (forall t {:trigger m.threads[t]} :: t in m.threads && m.threads[t].Reading? ==>
          m.threads[t].shard < |m.reading| && t in m.reading[m.threads[t].shard].readers)
    && (forall i, t {:trigger t in m.reading[i].readers} :: 0 <= i < |m.reading| && t in m.reading[i].readers ==>
          t in m.threads && m.threads[t] == Reading(i))
  }

  ghost predicate ShardsInv(shards: seq<ShardState>) {
    forall i :: 0 <= i < |shards| ==> ShardInv(shards[i])
  }

  ghost predicate Books(m: Machine) {
    ShardsInv(m.shards) && Balanced(m)
  }

  ghost predicate Inv(m: Machine) {
    Books(m) && Locked(m)
  }

  lemma {:induction false} TotalsUpdate(shards: seq<ShardState>, i: nat, s: ShardState)
    requires i < |shards|
    ensures TotalSize(shards[i := s]) == TotalSize(shards) - shards[i].size + s.size
    ensures TotalCount(shards[i := s]) == TotalCount(shards) - Count(shards[i].entries.Keys) + Count(s.entries.Keys)
  {
    if i == 0 {
      assert shards[0 := s][1..] == shards[1..];
    } else {
      assert shards[i := s][1..] == shards[1..][i - 1 := s];
      TotalsUpdate(shards[1..], i - 1, s);
    }
  }

  lemma PendingUpdate(threads: map<nat, Thread>, t: nat, th: Thread)
    requires t in threads
    ensures var next := threads[t := th];
            && PendingSize(next) == PendingSize(threads) - SizeEffects(Todo(threads[t])) + SizeEffects(Todo(th))
            && PendingCount(next) == PendingCount(threads) - CountEffects(Todo(threads[t])) + CountEffects(Todo(th))
  {
    var next := threads[t := th];
    assert next.Keys == threads.Keys;
    SumSplit(threads.Keys, PendingSizes(threads), t);
    SumSplit(threads.Keys, PendingSizes(next), t);
    SumSame(threads.Keys - {t}, PendingSizes(threads), PendingSizes(next));
    SumSplit(threads.Keys, PendingCounts(threads), t);
    SumSplit(threads.Keys, PendingCounts(next), t);
    SumSame(threads.Keys - {t}, PendingCounts(threads), PendingCounts(next));
  }

  // What a critical section has still to publish is what it has changed in the shard.
  ghost predicate Exact(before: ShardState, after: ShardState, todo: seq<Update>) {
    && Congruent(after.size - before.size, SizeEffects(todo))
    && Congruent(Count(after.entries.Keys) - Count(before.entries.Keys), CountEffects(todo))
  }

  // The total moves, and what is pending moves with it.
  lemma TotalMoves(counter: U64, pending: int, total: int, effect: int, change: int, pending': int, total': int)
    requires Adds(counter, pending, total) && Congruent(change, effect)
    requires pending' == pending + effect && total' == total + change
    ensures Adds(counter, pending', total')
  {
  }

  // An update moves from what is pending to the counter.
  lemma CounterMoves(counter: U64, pending: int, total: int, effect: int, pending': int)
    requires Adds(counter, pending, total) && pending' == pending - effect
    ensures Adds(Wrap(counter + effect), pending', total)
  {
  }

  lemma SectionKeepsBalance(m: Machine, t: nat, th: Thread, i: nat, s: ShardState, m': Machine)
    requires Balanced(m) && t in m.threads && i < |m.shards|
    requires Todo(m.threads[t]) == [] && Exact(m.shards[i], s, Todo(th))
    requires m'.shards == m.shards[i := s] && m'.threads == m.threads[t := th]
    requires m'.size == m.size && m'.count == m.count
    ensures Balanced(m')
  {
    TotalsUpdate(m.shards, i, s);
    PendingUpdate(m.threads, t, th);
    TotalMoves(m.size, PendingSize(m.threads), TotalSize(m.shards),
               SizeEffects(Todo(th)), s.size - m.shards[i].size,
               PendingSize(m'.threads), TotalSize(m'.shards));
    TotalMoves(m.count, PendingCount(m.threads), TotalCount(m.shards),
               CountEffects(Todo(th)), Count(s.entries.Keys) - Count(m.shards[i].entries.Keys),
               PendingCount(m'.threads), TotalCount(m'.shards));
  }

  lemma PublishKeepsBooks(m: Machine, t: nat, th: Thread)
    requires Books(m) && t in m.threads && Todo(m.threads[t]) != []
    requires Todo(th) == Todo(m.threads[t])[1..]
    ensures Books(Becomes(Published(m, Todo(m.threads[t])[0]), t, th))
  {
    var u, next := Todo(m.threads[t])[0], m.threads[t := th];
    PendingUpdate(m.threads, t, th);
    CounterMoves(m.size, PendingSize(m.threads), TotalSize(m.shards), SizeEffect(u), PendingSize(next));
    CounterMoves(m.count, PendingCount(m.threads), TotalCount(m.shards), CountEffect(u), PendingCount(next));
  }

  lemma BecomesKeepsBooks(m: Machine, t: nat, th: Thread)
    requires Books(m) && t in m.threads && Todo(m.threads[t]) == [] && Todo(th) == []
    ensures Books(Becomes(m, t, th))
  {
    PendingUpdate(m.threads, t, th);
  }

  lemma EffectsOfOne(a: Update)
    ensures SizeEffects([a]) == SizeEffect(a) && CountEffects([a]) == CountEffect(a)
  {
    assert [a][1..] == [];
  }

  lemma EffectsOfTwo(a: Update, b: Update)
    ensures SizeEffects([a, b]) == SizeEffect(a) + SizeEffect(b)
    ensures CountEffects([a, b]) == CountEffect(a) + CountEffect(b)
  {
    EffectsOfOne(a);
    EffectsOfOne(b);
    EffectsOfBoth([a], [b]);
    assert [a] + [b] == [a, b];
  }

  lemma EffectsOfEntering(r: InsertResult, size: U64)
    ensures var replaced := if r.replaced.Some? then r.replaced.value.core.size else 0;
            Congruent(SizeEffects(EnterUpdates(r, size)), size - replaced)
    ensures CountEffects(EnterUpdates(r, size)) == if r.replaced.Some? then 0 else 1
  {
    match r.replaced
    case Some(was) =>
      EffectsOfOne(ReplaceUpdate(size, was.core.size));
      ReplaceUpdateIsExact(size, was.core.size);
    case None =>
      EffectsOfTwo(AddSize(size), AddCount(1));
  }

  lemma EffectsOfLeaving(evicted: seq<Evicted>)
    ensures SizeEffects(LeaveUpdates(evicted)) == -BytesOf(evicted)
    ensures CountEffects(LeaveUpdates(evicted)) == -|evicted|
  {
    EffectsOfTwo(SubCount(|evicted|), SubSize(BytesOf(evicted)));
  }

  lemma SizesCancel(before: int, after: int, size: int, bytes: int, replaced: int, entering: int, leaving: int)
    requires after == before + size - bytes - replaced
    requires Congruent(entering, size - replaced) && leaving == -bytes
    ensures Congruent(after - before, entering + leaving)
  {
  }

  lemma InsertIsExact(s: ShardState, k: Key, core: Core)
    requires Agrees(s, {})
    ensures var r := ShardModel.Insert(s, k, Fresh(core));
            Exact(s, r.after, InsertUpdates(r, core.size))
  {
    var r := ShardModel.Insert(s, k, Fresh(core));
    InsertBytes(s, k, Fresh(core));
    InsertCounts(s, k, Fresh(core));
    InsertReplaces(s, k, Fresh(core));
    InsertPublishes(s, r, core.size);
  }

  lemma InsertReplaces(s: ShardState, k: Key, e: EntryData)
    requires Agrees(s, {})
    ensures ShardModel.Insert(s, k, e).replaced.Some? <==> k in s.entries
  {
    InsertAgrees(s, k, e);
  }

  lemma InsertPublishes(s: ShardState, r: InsertResult, size: U64)
    requires var replaced := if r.replaced.Some? then r.replaced.value.core.size else 0;
             r.after.size == s.size + size - BytesOf(r.evicted) - replaced
    requires Count(r.after.entries.Keys) + |r.evicted| == Count(s.entries.Keys) + if r.replaced.Some? then 0 else 1
    ensures Exact(s, r.after, InsertUpdates(r, size))
  {
    var entering, leaving := EnterUpdates(r, size), LeaveUpdates(r.evicted);
    EffectsOfEntering(r, size);
    EffectsOfLeaving(r.evicted);
    EffectsOfBoth(entering, leaving);
    SizesCancel(s.size, r.after.size, size, BytesOf(r.evicted),
                if r.replaced.Some? then r.replaced.value.core.size else 0,
                SizeEffects(entering), SizeEffects(leaving));
  }

  lemma RemoveIsExact(s: ShardState, k: Key)
    requires Agrees(s, {}) && k in s.entries
    ensures Exact(s, ShardModel.Remove(s, k), RemoveUpdates(s.entries[k].core.size))
  {
    EffectsOfTwo(SubSize(s.entries[k].core.size), SubCount(1));
    assert ShardModel.Remove(s, k).entries.Keys == s.entries.Keys - {k};
    CountRemove(s.entries.Keys, k);
  }

  lemma DrainIsExact(s: ShardState)
    ensures Exact(s, Drained(s), DrainUpdates(s))
  {
    EffectsOfTwo(SubSize(s.size), SubCount(Count(s.entries.Keys)));
  }

  lemma {:induction false} EffectsOfBoth(first: seq<Update>, rest: seq<Update>)
    ensures SizeEffects(first + rest) == SizeEffects(first) + SizeEffects(rest)
    ensures CountEffects(first + rest) == CountEffects(first) + CountEffects(rest)
  {
    if first == [] {
      assert first + rest == rest;
    } else {
      assert (first + rest)[1..] == first[1..] + rest;
      EffectsOfBoth(first[1..], rest);
    }
  }

  // ----- every step keeps the books -----

  lemma InsertKeepsBooks(m: Machine, t: nat, i: nat, k: Key, core: Core)
    requires Books(m) && t in m.threads && m.threads[t] == Idle
    ensures Books(InsertStep(m, t, i, k, core))
  {
    if Free(m, i) {
      var s := m.shards[i];
      var r := ShardModel.Insert(s, k, Fresh(core));
      InsertKeepsInv(s, k, Fresh(core));
      InsertIsExact(s, k, core);
      SectionKeepsBalance(m, t, Publishing(InsertUpdates(r, core.size)), i, r.after, InsertStep(m, t, i, k, core));
    }
  }

  lemma RemoveKeepsBooks(m: Machine, t: nat, i: nat, k: Key)
    requires Books(m) && t in m.threads && m.threads[t] == Idle
    ensures Books(RemoveStep(m, t, i, k))
  {
    if Free(m, i) && k in m.shards[i].entries {
      var s := m.shards[i];
      RemoveKeepsInv(s, k);
      RemoveIsExact(s, k);
      SectionKeepsBalance(m, t, Holding(i, RemoveUpdates(s.entries[k].core.size), None), i, ShardModel.Remove(s, k),
                          RemoveStep(m, t, i, k));
    }
  }

  lemma ClearKeepsBooks(m: Machine, t: nat, i: nat)
    requires Books(m) && t in m.threads && Todo(m.threads[t]) == []
    ensures Books(ClearStep(m, t, i))
  {
    if i >= |m.shards| {
      BecomesKeepsBooks(m, t, Idle);
    } else if Free(m, i) {
      NewInv(m.shards[i].capacity);
      DrainIsExact(m.shards[i]);
      SectionKeepsBalance(m, t, Holding(i, DrainUpdates(m.shards[i]), Some(i + 1)), i, Drained(m.shards[i]),
                          ClearStep(m, t, i));
    }
  }

  lemma SignalsKeepTotals(shards: seq<ShardState>, i: nat, s: ShardState)
    requires ShardsInv(shards) && i < |shards| && OnlySignalsDiffer(shards[i], s)
    ensures var next := shards[i := s];
            ShardsInv(next) && TotalSize(next) == TotalSize(shards) && TotalCount(next) == TotalCount(shards)
  {
    SignalsKeepInv(shards[i], s);
    TotalsUpdate(shards, i, s);
  }

  lemma ReadKeepsBooks(m: Machine, t: nat, i: nat, move: Readers.Move, th: Thread)
    requires Books(m) && t in m.threads && Todo(m.threads[t]) == [] && Todo(th) == []
    ensures Books(ReadStep(m, t, i, move, th))
  {
    if i < |m.shards| && i < |m.reading| {
      Readers.MoveKeepsShard(Readers.Phase(m.shards[i], m.reading[i]), move);
      SignalsKeepTotals(m.shards, i, ReadStep(m, t, i, move, th).shards[i]);
      PendingUpdate(m.threads, t, th);
    }
  }

  lemma LookupKeepsBooks(m: Machine, e: Event)
    requires Books(m) && (e.StartLookup? || e.Access? || e.EndLookup?)
    ensures Books(Step(m, e))
  {
    if e.t in m.threads {
      match (e, m.threads[e.t])
      case (StartLookup(t, i, k), Idle) =>
        if Readable(m, i) {
          ReadKeepsBooks(m, t, i, Readers.Enter(t, k), Reading(i));
        }
      case (Access(t, at), Reading(i)) => ReadKeepsBooks(m, t, i, Readers.Next(t, at), Reading(i));
      case (EndLookup(t), Reading(i)) =>
        if CanEnd(m, t, i) {
          ReadKeepsBooks(m, t, i, Readers.Leave(t), Idle);
        }
      case _ =>
    }
  }

  lemma PublicationKeepsBooks(m: Machine, e: Event)
    requires Books(m) && (e.Publish? || e.Unlock?)
    ensures Books(Step(m, e))
  {
    if e.t in m.threads {
      match (e, m.threads[e.t])
      case (Publish(t), Publishing(todo)) =>
        if todo == [] {
          BecomesKeepsBooks(m, t, Idle);
        } else {
          PublishKeepsBooks(m, t, Publishing(todo[1..]));
        }
      case (Publish(t), Holding(i, todo, next)) =>
        if todo != [] {
          PublishKeepsBooks(m, t, Holding(i, todo[1..], next));
        }
      case (Unlock(t), Holding(i, todo, next)) =>
        if todo == [] {
          BecomesKeepsBooks(m, t, match next case None => Idle case Some(n) => Clearing(n));
        }
      case _ =>
    }
  }

  lemma StepKeepsBooks(m: Machine, e: Event)
    requires Books(m)
    ensures Books(Step(m, e))
  {
    if e.t in m.threads {
      match (e, m.threads[e.t])
      case (StartInsert(t, i, k, core), Idle) => InsertKeepsBooks(m, t, i, k, core);
      case (StartRemove(t, i, k), Idle) => RemoveKeepsBooks(m, t, i, k);
      case (StartClear(t), Idle) => BecomesKeepsBooks(m, t, Clearing(0));
      case (ClearNext(t), Clearing(i)) => ClearKeepsBooks(m, t, i);
      case _ =>
        if e.Publish? || e.Unlock? {
          PublicationKeepsBooks(m, e);
        } else if e.StartLookup? || e.Access? || e.EndLookup? {
          LookupKeepsBooks(m, e);
        }
    }
  }

  // ----- every step keeps the locks -----

  predicate Outside(th: Thread) {
    !th.Holding? && !th.Reading?
  }

  predicate SameSection(th: Thread, th': Thread) {
    || (Outside(th) && Outside(th'))
    || (th.Holding? && th'.Holding? && th'.shard == th.shard)
    || (th.Reading? && th' == th)
  }

  lemma SectionGoesOn(m: Machine, m': Machine, t: nat, th: Thread)
    requires Locked(m) && t in m.threads && SameSection(m.threads[t], th)
    requires |m'.shards| == |m.shards| && m'.writer == m.writer && m'.threads == m.threads[t := th]
    requires |m'.reading| == |m.reading|
    requires forall i {:trigger m'.reading[i]} :: 0 <= i < |m.reading| ==>
               m'.reading[i].readers.Keys == m.reading[i].readers.Keys
    ensures Locked(m')
  {
    assert forall i {:trigger m'.reading[i]} :: 0 <= i < |m.reading| && m.reading[i].readers == map[] ==>
      m'.reading[i].readers.Keys == {};
  }

  lemma WriterComesIn(m: Machine, m': Machine, t: nat, th: Thread, i: nat)
    requires Locked(m) && t in m.threads && Outside(m.threads[t]) && Free(m, i)
    requires th.Holding? && th.shard == i && m'.threads == m.threads[t := th]
    requires |m'.shards| == |m.shards| && m'.writer == m.writer[i := Some(t)] && m'.reading == m.reading
    ensures Locked(m')
  {
  }

  lemma WriterLeaves(m: Machine, m': Machine, t: nat, th: Thread, i: nat)
    requires Locked(m) && t in m.threads && m.threads[t].Holding? && m.threads[t].shard == i < |m.writer|
    requires Outside(th) && m'.threads == m.threads[t := th]
    requires m'.shards == m.shards && m'.writer == m.writer[i := None] && m'.reading == m.reading
    ensures Locked(m')
  {
  }

  lemma ReaderComesIn(m: Machine, t: nat, i: nat, k: Key)
    requires Locked(m) && t in m.threads && Outside(m.threads[t]) && Readable(m, i)
    ensures Locked(ReadStep(m, t, i, Readers.Enter(t, k), Reading(i)))
  {
    var m' := ReadStep(m, t, i, Readers.Enter(t, k), Reading(i));
    assert t !in m.reading[i].readers;
    assert t in m'.reading[i].readers;
    assert m'.reading[i].readers.Keys == m.reading[i].readers.Keys + {t};
  }

  lemma ReaderGoesOn(m: Machine, t: nat, i: nat, at: nat)
    requires Locked(m) && t in m.threads && m.threads[t] == Reading(i)
    ensures Locked(ReadStep(m, t, i, Readers.Next(t, at), Reading(i)))
  {
    var m' := ReadStep(m, t, i, Readers.Next(t, at), Reading(i));
    var p := Readers.Phase(m.shards[i], m.reading[i]);
    assert Readers.StepPhase(p, Readers.Next(t, at)).reading.readers.Keys == p.reading.readers.Keys;
    SectionGoesOn(m, m', t, Reading(i));
  }

  lemma ReaderLeaves(m: Machine, t: nat, i: nat)
    requires Locked(m) && t in m.threads && m.threads[t] == Reading(i) && CanEnd(m, t, i)
    ensures Locked(ReadStep(m, t, i, Readers.Leave(t), Idle))
  {
    var m' := ReadStep(m, t, i, Readers.Leave(t), Idle);
    assert m'.reading[i].readers.Keys == m.reading[i].readers.Keys - {t};
  }

  lemma StepKeepsLocks(m: Machine, e: Event)
    requires Locked(m)
    ensures Locked(Step(m, e))
  {
    if Step(m, e) != m {
      match (e, m.threads[e.t])
      case (StartInsert(t, i, k, core), Idle) => SectionGoesOn(m, Step(m, e), t, Step(m, e).threads[t]);
      case (StartRemove(t, i, k), Idle) => WriterComesIn(m, Step(m, e), t, Step(m, e).threads[t], i);
      case (StartLookup(t, i, k), Idle) => ReaderComesIn(m, t, i, k);
      case (Access(t, at), Reading(i)) => ReaderGoesOn(m, t, i, at);
      case (EndLookup(t), Reading(i)) => ReaderLeaves(m, t, i);
      case (StartClear(t), Idle) => SectionGoesOn(m, Step(m, e), t, Clearing(0));
      case (ClearNext(t), Clearing(i)) => ClearKeepsLocks(m, t, i);
      case (Publish(t), _) => SectionGoesOn(m, Step(m, e), t, Step(m, e).threads[t]);
      case (Unlock(t), Holding(i, todo, next)) => WriterLeaves(m, Step(m, e), t, Step(m, e).threads[t], i);
    }
  }

  lemma ClearKeepsLocks(m: Machine, t: nat, i: nat)
    requires Locked(m) && t in m.threads && m.threads[t] == Clearing(i)
    ensures Locked(ClearStep(m, t, i))
  {
    var m' := ClearStep(m, t, i);
    if i >= |m.shards| {
      SectionGoesOn(m, m', t, Idle);
    } else if Free(m, i) {
      WriterComesIn(m, m', t, m'.threads[t], i);
    }
  }

  lemma {:induction false} RunKeepsInv(m: Machine, events: seq<Event>)
    requires Inv(m)
    ensures Inv(RunEvents(m, events))
    decreases |events|
  {
    if events != [] {
      StepKeepsBooks(m, events[0]);
      StepKeepsLocks(m, events[0]);
      RunKeepsInv(Step(m, events[0]), events[1..]);
    }
  }

  // ----- the theorems -----

  // A new cache: empty shards, free locks, counters at zero, and threads that have not begun.
  function Initial(capacities: seq<nat>, threads: set<nat>): Machine {
    Machine(seq(|capacities|, i requires 0 <= i < |capacities| => New(capacities[i])),
            seq(|capacities|, i => None),
            seq(|capacities|, i => Readers.NOBODY),
            0, 0,
            map t | t in threads :: Idle)
  }

  lemma {:induction false} EmptyTotals(shards: seq<ShardState>)
    requires forall i :: 0 <= i < |shards| ==> shards[i].size == 0 && shards[i].entries == map[]
    ensures TotalSize(shards) == 0 && TotalCount(shards) == 0
  {
    if shards != [] {
      EmptyTotals(shards[1..]);
    }
  }

  lemma {:induction false} NothingPending(threads: map<nat, Thread>)
    requires forall t :: t in threads ==> Todo(threads[t]) == []
    ensures PendingSize(threads) == 0 && PendingCount(threads) == 0
  {
    SumZero(threads.Keys, PendingSizes(threads));
    SumZero(threads.Keys, PendingCounts(threads));
  }

  lemma {:induction false} SumZero<K>(s: set<K>, w: map<K, int>)
    requires forall k :: k in s ==> WeightOf(w, k) == 0
    ensures Sum(s, w) == 0
  {
    if s != {} {
      var k :| k in s;
      SumSplit(s, w, k);
      SumZero(s - {k}, w);
    }
  }

  lemma InitialInv(capacities: seq<nat>, threads: set<nat>)
    ensures Inv(Initial(capacities, threads))
  {
    var m := Initial(capacities, threads);
    forall i | 0 <= i < |m.shards|
      ensures ShardInv(m.shards[i])
    {
      NewInv(capacities[i]);
    }
    EmptyTotals(m.shards);
    NothingPending(m.threads);
  }

  // In every interleaving of any number of operations on any number of shards, each counter
  // and the updates not yet published add up to what the shards hold, modulo 2^64.
  lemma CountersAlwaysBalance(capacities: seq<nat>, threads: set<nat>, events: seq<Event>)
    ensures Balanced(RunEvents(Initial(capacities, threads), events))
  {
    InitialInv(capacities, threads);
    RunKeepsInv(Initial(capacities, threads), events);
  }

  // With no lock held, the only updates outstanding are those of inserts.
  lemma UnlockedMeansOnlyInsertsPending(capacities: seq<nat>, threads: set<nat>, events: seq<Event>, t: nat)
    requires var m := RunEvents(Initial(capacities, threads), events);
             && t in m.threads && Todo(m.threads[t]) != []
             && forall i :: 0 <= i < |m.writer| ==> m.writer[i] == None
    ensures RunEvents(Initial(capacities, threads), events).threads[t].Publishing?
  {
    InitialInv(capacities, threads);
    RunKeepsInv(Initial(capacities, threads), events);
  }

  // A counter shows the total exactly if what is pending adds up to nothing modulo 2^64.
  lemma ShowsExactly(counter: U64, pending: int, total: int)
    requires Adds(counter, pending, total)
    ensures counter == Wrap(total) <==> Congruent(pending, 0)
  {
  }

  // In every interleaving: `size` and `len` are what the shards hold if and only if the updates
  // that are still to be published add up to nothing.
  lemma CountersShowTotalsExactly(capacities: seq<nat>, threads: set<nat>, events: seq<Event>)
    ensures var m := RunEvents(Initial(capacities, threads), events);
            && (m.size == Wrap(TotalSize(m.shards)) <==> Congruent(PendingSize(m.threads), 0))
            && (m.count == Wrap(TotalCount(m.shards)) <==> Congruent(PendingCount(m.threads), 0))
  {
    CountersAlwaysBalance(capacities, threads, events);
    var m := RunEvents(Initial(capacities, threads), events);
    ShowsExactly(m.size, PendingSize(m.threads), TotalSize(m.shards));
    ShowsExactly(m.count, PendingCount(m.threads), TotalCount(m.shards));
  }

  // By how much a counter is off. It shows too much exactly if subtractions are outstanding on
  // balance, or if more additions are than there is: then subtractions have been published
  // ahead of the additions they belong to, and the counter has wrapped.
  lemma OffBy(counter: U64, pending: int, total: U64)
    requires Adds(counter, pending, total)
    ensures counter > total <==> Wrap(pending) > total
    ensures counter == total - Wrap(pending) + if Wrap(pending) > total then TWO_64 else 0
    ensures total - TWO_64 < pending < TWO_64 ==> (counter > total <==> pending < 0 || pending > total)
  {
  }

  lemma CountersShowTooMuch(capacities: seq<nat>, threads: set<nat>, events: seq<Event>)
    ensures var m := RunEvents(Initial(capacities, threads), events);
            var total, pending := TotalSize(m.shards), PendingSize(m.threads);
            && 0 <= total
            && (total < TWO_64 ==>
                  && (m.size > total <==> Wrap(pending) > total)
                  && m.size == total - Wrap(pending) + (if Wrap(pending) > total then TWO_64 else 0)
                  && (total - TWO_64 < pending < TWO_64 ==> (m.size > total <==> pending < 0 || pending > total)))
    ensures var m := RunEvents(Initial(capacities, threads), events);
            var total, pending := TotalCount(m.shards), PendingCount(m.threads);
            (total < TWO_64 ==>
               && (m.count > total <==> Wrap(pending) > total)
               && m.count == total - Wrap(pending) + (if Wrap(pending) > total then TWO_64 else 0)
               && (total - TWO_64 < pending < TWO_64 ==> (m.count > total <==> pending < 0 || pending > total)))
  {
    InitialInv(capacities, threads);
    RunKeepsInv(Initial(capacities, threads), events);
    var m := RunEvents(Initial(capacities, threads), events);
    TotalsNonNegative(m.shards);
    if TotalSize(m.shards) < TWO_64 {
      OffBy(m.size, PendingSize(m.threads), TotalSize(m.shards));
    }
    if TotalCount(m.shards) < TWO_64 {
      OffBy(m.count, PendingCount(m.threads), TotalCount(m.shards));
    }
  }

  // If a counter does not show the total although no lock is held, it is for an insert that has
  // let go of its lock and not published everything.
  lemma {:induction false} OnlyInsertsMislead(capacities: seq<nat>, threads: set<nat>, events: seq<Event>)
    requires var m := RunEvents(Initial(capacities, threads), events);
             && (m.size != Wrap(TotalSize(m.shards)) || m.count != Wrap(TotalCount(m.shards)))
             && forall i :: 0 <= i < |m.writer| ==> m.writer[i] == None
    ensures var m := RunEvents(Initial(capacities, threads), events);
            exists t :: t in m.threads && m.threads[t].Publishing? && m.threads[t].todo != []
  {
    var m := RunEvents(Initial(capacities, threads), events);
    CountersShowTotalsExactly(capacities, threads, events);
    if forall t :: t in m.threads ==> Todo(m.threads[t]) == [] {
      NothingPending(m.threads);
      assert false;
    }
    var t :| t in m.threads && Todo(m.threads[t]) != [];
    UnlockedMeansOnlyInsertsPending(capacities, threads, events, t);
  }

  predicate AllIdle(threads: map<nat, Thread>) {
    forall t :: t in threads ==> threads[t] == Idle
  }

  lemma QuietCounters(m: Machine)
    requires Inv(m) && AllIdle(m.threads)
    ensures 0 <= TotalSize(m.shards) < TWO_64 ==> m.size == TotalSize(m.shards)
    ensures TotalCount(m.shards) < TWO_64 ==> m.count == TotalCount(m.shards)
  {
    NothingPending(m.threads);
  }

  // When no operation is in flight, the counters are exactly what the shards hold, as long as
  // that fits in 64 bits.
  lemma CountersExactWhenQuiet(capacities: seq<nat>, threads: set<nat>, events: seq<Event>)
    requires AllIdle(RunEvents(Initial(capacities, threads), events).threads)
    ensures var m := RunEvents(Initial(capacities, threads), events);
            && (TotalSize(m.shards) < TWO_64 ==> m.size == TotalSize(m.shards))
            && (TotalCount(m.shards) < TWO_64 ==> m.count == TotalCount(m.shards))
  {
    InitialInv(capacities, threads);
    RunKeepsInv(Initial(capacities, threads), events);
    var m := RunEvents(Initial(capacities, threads), events);
    QuietCounters(m);
    TotalsNonNegative(m.shards);
  }

  lemma {:induction false} TotalsNonNegative(shards: seq<ShardState>)
    requires ShardsInv(shards)
    ensures 0 <= TotalSize(shards)
  {
    if shards != [] {
      Sweeps.BytesPositive(shards[0].entries, {});
      TotalsNonNegative(shards[1..]);
    }
  }

  // In flight a counter can be far off: if a removal publishes before the insert it undoes,
  // the size reads as nearly 2^64, although the cache is empty.
  lemma SizeCanWrapInFlight(capacity: nat, k: Key, core: Core)
    requires 0 < core.size <= capacity
    ensures var events := [StartInsert(0, 0, k, core), StartRemove(1, 0, k), Publish(1)];
            var m := RunEvents(Initial([capacity], {0, 1}), events);
            && |m.shards| == 1 && m.shards[0].entries == map[]
            && m.size == TWO_64 - core.size
  {
    var m := Initial([capacity], {0, 1});
    RunThree(m, StartInsert(0, 0, k, core), StartRemove(1, 0, k), Publish(1));
    FirstInsert(capacity, k, core);
    ReadyToInsert(capacity);
    AfterInsert(m, k, core);
    AfterRemove(Step(m, StartInsert(0, 0, k, core)), k, core);
    AfterPublish(Step(Step(m, StartInsert(0, 0, k, core)), StartRemove(1, 0, k)), core);
  }

  lemma ReadyToInsert(capacity: nat)
    ensures var m := Initial([capacity], {0, 1});
            && |m.shards| == 1 && m.shards[0] == New(capacity) && Free(m, 0)
            && 0 in m.threads && m.threads[0] == Idle && 1 in m.threads && m.threads[1] == Idle && m.size == 0
  {
    NewInv(capacity);
  }

  lemma AfterPublish(m: Machine, core: Core)
    requires 0 < core.size
    requires |m.shards| == 1 && m.shards[0].entries == map[] && m.size == 0
    requires 1 in m.threads && m.threads[1] == Holding(0, RemoveUpdates(core.size), None)
    ensures var n := Step(m, Publish(1));
            |n.shards| == 1 && n.shards[0].entries == map[] && n.size == TWO_64 - core.size
  {
    assert Wrap(0 - core.size) == TWO_64 - core.size;
  }

  lemma AfterInsert(m: Machine, k: Key, core: Core)
    requires |m.shards| == 1 && Free(m, 0) && 0 in m.threads && m.threads[0] == Idle && m.size == 0
    requires ShardModel.Insert(m.shards[0], k, Fresh(core)).after.entries == map[k := Fresh(core)]
    requires Filed(ShardModel.Insert(m.shards[0], k, Fresh(core)).after)
    requires 1 in m.threads && m.threads[1] == Idle
    ensures var n := Step(m, StartInsert(0, 0, k, core));
            && |n.shards| == 1 && Free(n, 0) && n.shards[0].entries == map[k := Fresh(core)]
            && 1 in n.threads && n.threads[1] == Idle && n.size == 0
  {
  }

  lemma AfterRemove(m: Machine, k: Key, core: Core)
    requires |m.shards| == 1 && Free(m, 0) && m.shards[0].entries == map[k := Fresh(core)]
    requires 1 in m.threads && m.threads[1] == Idle && m.size == 0
    ensures var n := Step(m, StartRemove(1, 0, k));
            && |n.shards| == 1 && n.shards[0].entries == map[]
            && 1 in n.threads && n.threads[1] == Holding(0, RemoveUpdates(core.size), None) && n.size == 0
  {
    assert map[k := Fresh(core)] - {k} == map[];
  }

  lemma FirstInsert(capacity: nat, k: Key, core: Core)
    requires core.size <= capacity
    ensures ShardModel.Insert(New(capacity), k, Fresh(core)).after.entries == map[k := Fresh(core)]
    ensures Filed(ShardModel.Insert(New(capacity), k, Fresh(core)).after)
  {
    NewInv(capacity);
    InsertKeepsInv(New(capacity), k, Fresh(core));
  }

  lemma RunThree(m: Machine, a: Event, b: Event, c: Event)
    ensures RunEvents(m, [a, b, c]) == Step(Step(Step(m, a), b), c)
  {
    var m1, m2, m3 := Step(m, a), Step(Step(m, a), b), Step(Step(Step(m, a), b), c);
    assert [a, b, c][1..] == [b, c] && [b, c][1..] == [c] && [c][1..] == [];
    assert RunEvents(m3, []) == m3;
    assert RunEvents(m2, [c]) == m3;
    assert RunEvents(m1, [b, c]) == m3;
  }
}
