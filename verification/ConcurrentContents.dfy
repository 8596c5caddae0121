// What the shards hold under concurrency, against a map that never forgets and takes every
// write at the moment its lock is taken.
module ConcurrentContents {
  import opened Types
  import opened ShardModel
  import opened ShardLaws
  import opened ShardRuns
  import opened Accounting
  import opened Interleavings

  // Every operation goes to the home of its key.
  predicate RoutedEvent(e: Event, home: Key -> nat) {
    match e
    case StartInsert(_, i, k, _) => i == home(k)
    case StartRemove(_, i, k) => i == home(k)
    case StartLookup(_, i, k) => i == home(k)
    case _ => true
  }

  predicate RoutedEvents(events: seq<Event>, home: Key -> nat) {
    forall e :: e in events ==> RoutedEvent(e, home)
  }

  // A clear takes the keys of one shard at a time.
  ghost function Without(ref: map<Key, Core>, home: Key -> nat, i: nat): map<Key, Core> {
    map k | k in ref && home(k) != i :: ref[k]
  }

  // The reference map after an event; events that have to wait for a lock change nothing.
  ghost function RefStep(m: Machine, e: Event, home: Key -> nat, ref: map<Key, Core>): map<Key, Core> {
    if e.t !in m.threads then ref
    else
      match (e, m.threads[e.t])
      case (StartInsert(_, i, k, core), Idle) => if Free(m, i) then ref[k := core] else ref
      case (StartRemove(_, i, k), Idle) => if Free(m, i) then ref - {k} else ref
      case (ClearNext(_), Clearing(i)) => if Free(m, i) then Without(ref, home, i) else ref
      case _ => ref
  }

  ghost function RefOf(m: Machine, events: seq<Event>, home: Key -> nat, ref: map<Key, Core>): map<Key, Core>
    decreases |events|
  {
    if events == [] then ref else RefOf(Step(m, events[0]), events[1..], home, RefStep(m, events[0], home, ref))
  }

  // The shard holds only keys that live in it, each with the fixed part the reference map has.
  ghost predicate ShardRefines(s: ShardState, home: Key -> nat, i: nat, ref: map<Key, Core>) {
    forall k {:trigger k in s.entries} :: k in s.entries ==> home(k) == i && k in ref && ref[k] == s.entries[k].core
  }

  ghost predicate Refines(m: Machine, home: Key -> nat, ref: map<Key, Core>) {
    |m.reading| == |m.shards| && ShardsInv(m.shards)
    && forall i {:trigger m.shards[i]} :: 0 <= i < |m.shards| ==> ShardRefines(m.shards[i], home, i, ref)
  }

  lemma OpRefines(s: ShardState, op: ShardOp, home: Key -> nat, i: nat, ref: map<Key, Core>, next: map<Key, Core>)
    requires ShardInv(s) && ShardRefines(s, home, i, ref)
    requires match op
             case InsertOp(k, core) => home(k) == i && next == ref[k := core]
             case RemoveOp(k) => next == ref - {k}
             case LookupOp(_) => next == ref
             case DrainOp => true
    ensures ShardRefines(StepShard(s, op), home, i, next)
  {
    match op
    case InsertOp(k, core) =>
      forall x | x in StepShard(s, op).entries
        ensures home(x) == i && x in next && next[x] == StepShard(s, op).entries[x].core
      {
        CacheTheorems.ResidentAfterInsert(s, k, core, x);
      }
    case RemoveOp(k) => RemoveConserves(s, k);
    case LookupOp(k) =>
    case DrainOp =>
  }

  lemma SignalsRefine(s: ShardState, t: ShardState, home: Key -> nat, i: nat, ref: map<Key, Core>)
    requires OnlySignalsDiffer(s, t) && ShardRefines(s, home, i, ref)
    ensures ShardRefines(t, home, i, ref)
  {
  }

  // What an event changes of the reference map is of the shard it writes to.
  lemma RefOfOtherShards(m: Machine, e: Event, home: Key -> nat, ref: map<Key, Core>, i: nat)
    requires HasShard(m, i) && RoutedEvent(e, home) && WriteOn(m, e, i).None?
    requires ShardRefines(m.shards[i], home, i, ref)
    ensures ShardRefines(m.shards[i], home, i, RefStep(m, e, home, ref))
  {
  }

  lemma RefOfThisShard(m: Machine, e: Event, home: Key -> nat, ref: map<Key, Core>, i: nat)
    requires HasShard(m, i) && RoutedEvent(e, home) && WriteOn(m, e, i).Some?
    requires ShardInv(m.shards[i]) && ShardRefines(m.shards[i], home, i, ref)
    ensures ShardRefines(StepShard(m.shards[i], WriteOn(m, e, i).value), home, i, RefStep(m, e, home, ref))
  {
    OpRefines(m.shards[i], WriteOn(m, e, i).value, home, i, ref, RefStep(m, e, home, ref));
  }

  lemma StepRefines(m: Machine, e: Event, home: Key -> nat, ref: map<Key, Core>)
    requires Refines(m, home, ref) && RoutedEvent(e, home)
    ensures Refines(Step(m, e), home, RefStep(m, e, home, ref))
  {
    var n, next := Step(m, e), RefStep(m, e, home, ref);
    assert |n.shards| == |m.shards| && |n.reading| == |m.reading|;
    forall i | 0 <= i < |m.shards|
      ensures ShardInv(n.shards[i]) && ShardRefines(n.shards[i], home, i, next)
    {
      StepOnShard(m, e, i);
      match WriteOn(m, e, i)
      case Some(op) =>
        StepKeepsInv(m.shards[i], op);
        RefOfThisShard(m, e, home, ref, i);
      case None =>
        RefOfOtherShards(m, e, home, ref, i);
        match ReadOn(m, e, i)
        case Some(move) =>
          Readers.MoveKeepsShard(PhaseOf(m, i), move);
          SignalsKeepInv(m.shards[i], n.shards[i]);
          SignalsRefine(m.shards[i], n.shards[i], home, i, next);
        case None => assert PhaseOf(n, i).state == PhaseOf(m, i).state;
    }
  }

  lemma {:induction false} RunRefines(m: Machine, events: seq<Event>, home: Key -> nat, ref: map<Key, Core>)
    requires Refines(m, home, ref) && RoutedEvents(events, home)
    ensures Refines(RunEvents(m, events), home, RefOf(m, events, home, ref))
    decreases |events|
  {
    if events != [] {
      StepRefines(m, events[0], home, ref);
      RunRefines(Step(m, events[0]), events[1..], home, RefStep(m, events[0], home, ref));
    }
  }

  // At any moment of any interleaving: a key is in no shard but its home, and what is there is
  // what was last inserted for it, in the order of the locks, and not removed or cleared since.
  // So a lookup, at whatever moment it comes in, finds that or nothing.
  lemma {:induction false} NeverStale(capacities: seq<nat>, threads: set<nat>, events: seq<Event>,
                                      home: Key -> nat, i: nat, k: Key)
    requires RoutedEvents(events, home)
    requires var m := RunEvents(Initial(capacities, threads), events);
             i < |m.shards| && k in m.shards[i].entries
    ensures var m := RunEvents(Initial(capacities, threads), events);
            var ref := RefOf(Initial(capacities, threads), events, home, map[]);
            home(k) == i && k in ref && m.shards[i].entries[k].core == ref[k]
  {
    InitialInv(capacities, threads);
    RunRefines(Initial(capacities, threads), events, home, map[]);
  }
}
