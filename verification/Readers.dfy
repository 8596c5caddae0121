// Lookups that race in one shard under its read lock. Each sets the clock bit of the entry it
// finds, loads the frequency and stores it increased by one, as three separate atomic accesses,
// so increments can be lost. The accesses are relaxed: a load may return any value the
// frequency has had since the first lookup came in, and a store may be ordered anywhere after
// the value it then had.
module Readers {
  import opened Types
  import opened ShardModel
  import opened ShardLaws

  // ----- one access to one entry -----

  datatype Progress = Starting | BitSet | Loaded(value: U8) | Done

  // The values the frequency has had, in the order that all threads agree on, and the clock bit.
  datatype Signals = Signals(history: seq<U8>, clockBit: bool)

  datatype Accessed = Accessed(signals: Signals, progress: Progress)

  // The next access of a lookup; `at` says which value it loads or where its store is ordered.
  function Access(s: Signals, progress: Progress, at: nat): Accessed {
    match progress
    case Starting => Accessed(s.(clockBit := true), BitSet)
    case BitSet => Accessed(s, if at < |s.history| then Loaded(s.history[at]) else BitSet)
    case Loaded(value) =>
      if value == 255 then
        Accessed(s, Done)
      else if 1 <= at <= |s.history| then
        Accessed(s.(history := s.history[..at] + [value + 1] + s.history[at..]), Done)
      else
        Accessed(s, progress)
    case Done => Accessed(s, Done)
  }

  // ----- the read phase of a shard -----

  datatype Lookup = Lookup(key: Key, progress: Progress)

  // The lookups inside, and the values that frequencies have had, for the keys looked up.
  datatype Reading = Reading(readers: map<nat, Lookup>, past: map<Key, seq<U8>>)

  const NOBODY := Reading(map[], map[])

  datatype Phase = Phase(state: ShardState, reading: Reading)

  datatype Move = Enter(t: nat, key: Key) | Next(t: nat, at: nat) | Leave(t: nat)

  function SignalsOf(p: Phase, k: Key): (s: Signals)
    requires k in p.state.entries
    ensures s.history != []
  {
    var e := p.state.entries[k];
    var looked := k in p.reading.past && p.reading.past[k] != [];
    Signals(if looked then p.reading.past[k] else [e.frequency], e.clockBit)
  }

  function Signalling(e: EntryData, s: Signals): EntryData
    requires s.history != []
  {
    e.(frequency := s.history[|s.history| - 1], clockBit := s.clockBit)
  }

  // The phase with other signals of the entry of k; the last of the values is the present one.
  function WithSignals(p: Phase, k: Key, s: Signals): Phase
    requires k in p.state.entries && s.history != []
  {
    Phase(p.state.(entries := p.state.entries[k := Signalling(p.state.entries[k], s)]),
          p.reading.(past := p.reading.past[k := s.history]))
  }

  // A move that is not possible changes nothing. A lookup that misses is done at once.
  function StepPhase(p: Phase, move: Move): Phase {
    match move
    case Enter(t, k) =>
      if t in p.reading.readers then p
      else
        var lookup := Lookup(k, if k in p.state.entries then Starting else Done);
        p.(reading := p.reading.(readers := p.reading.readers[t := lookup]))
    case Next(t, at) =>
      if t !in p.reading.readers || p.reading.readers[t].key !in p.state.entries
         || p.reading.readers[t].progress.Done? then p
      else
        var lookup := p.reading.readers[t];
        var a := Access(SignalsOf(p, lookup.key), lookup.progress, at);
        var q := WithSignals(p, lookup.key, a.signals);
        q.(reading := q.reading.(readers := q.reading.readers[t := lookup.(progress := a.progress)]))
    case Leave(t) =>
      if t in p.reading.readers && p.reading.readers[t].progress.Done?
      then p.(reading := p.reading.(readers := p.reading.readers - {t}))
      else p
  }

  function RunMoves(p: Phase, moves: seq<Move>): Phase
    decreases |moves|
  {
    if moves == [] then p else RunMoves(StepPhase(p, moves[0]), moves[1..])
  }

  // The keys that lookups have found, one for each lookup.
  function FoundBy(p: Phase, move: Move): multiset<Key> {
    if move.Enter? && move.t !in p.reading.readers && move.key in p.state.entries
    then multiset{move.key} else multiset{}
  }

  function Found(p: Phase, moves: seq<Move>): multiset<Key>
    decreases |moves|
  {
    if moves == [] then multiset{} else FoundBy(p, moves[0]) + Found(StepPhase(p, moves[0]), moves[1..])
  }

  // ----- what the accesses to one entry keep -----

  // n lookups have found an entry that had frequency f and clock bit b; u are not done with it.
  ghost predicate Counted(s: Signals, f: U8, b: bool, n: nat, u: nat) {
    && 1 <= |s.history| && |s.history| - 1 + u <= n
    && s.history[0] == f
    && (forall j {:trigger s.history[j]} :: 1 <= j < |s.history| ==> f + 1 <= s.history[j] <= f + |s.history| - 1)
    && (n == 0 ==> s.clockBit == b)
    && (u < n ==> s.clockBit && (f < 255 ==> |s.history| > 1))
  }

  ghost predicate InStep(s: Signals, f: U8, progress: Progress) {
    match progress
    case BitSet => s.clockBit
    case Loaded(v) => s.clockBit && f <= v < f + |s.history|
    case _ => true
  }

  predicate Grown(s: Signals, s': Signals) {
    |s.history| <= |s'.history| && (s.clockBit ==> s'.clockBit)
  }

  lemma AccessKeeps(s: Signals, f: U8, b: bool, n: nat, u: nat, progress: Progress, at: nat)
    requires Counted(s, f, b, n, u) && InStep(s, f, progress) && !progress.Done? && u >= 1
    ensures var a := Access(s, progress, at);
            && Counted(a.signals, f, b, n, if a.progress.Done? then u - 1 else u)
            && InStep(a.signals, f, a.progress) && Grown(s, a.signals)
  {
    var a := Access(s, progress, at);
    if progress.Loaded? && a.signals != s {
      var h, h' := s.history, a.signals.history;
      assert forall j {:trigger h'[j]} :: 0 <= j < |h'| ==>
        h'[j] == if j < at then h[j] else if j == at then progress.value + 1 else h[j - 1];
    }
  }

  // ----- what every move keeps -----

  function Unfinished(r: Reading, k: Key): set<nat> {
    set t | t in r.readers && Unfinishing(r.readers[t], k)
  }

  // The entry e' in the phase, with its signals s, as against the entry e before the phase.
  ghost predicate Fits(e: EntryData, e': EntryData, s: Signals, n: nat, u: nat) {
    && e'.core == e.core
    && Counted(s, e.frequency, e.clockBit, n, u)
    && e'.frequency == s.history[|s.history| - 1] && e'.clockBit == s.clockBit
  }

  ghost predicate EntryFits(before: ShardState, p: Phase, keys: multiset<Key>, k: Key)
    requires k in before.entries && k in p.state.entries
  {
    Fits(before.entries[k], p.state.entries[k], SignalsOf(p, k), keys[k], |Unfinished(p.reading, k)|)
  }

  ghost predicate ReaderFits(before: ShardState, p: Phase, lookup: Lookup) {
    !lookup.progress.Done? ==>
      lookup.key in before.entries && lookup.key in p.state.entries
      && InStep(SignalsOf(p, lookup.key), before.entries[lookup.key].frequency, lookup.progress)
  }

  ghost predicate EntriesFit(before: ShardState, p: Phase, keys: multiset<Key>)
    requires p.state.entries.Keys == before.entries.Keys
  {
    forall k {:trigger p.state.entries[k]} :: k in before.entries ==> EntryFits(before, p, keys, k)
  }

  ghost predicate ReadersFit(before: ShardState, p: Phase) {
    forall t {:trigger p.reading.readers[t]} :: t in p.reading.readers ==>
      ReaderFits(before, p, p.reading.readers[t])
  }

  // The phase began with the shard `before`, and lookups have found `keys` since.
  ghost predicate Inv(before: ShardState, p: Phase, keys: multiset<Key>) {
    && p.state == before.(entries := p.state.entries)
    && p.state.entries.Keys == before.entries.Keys
    && (forall k :: k in keys ==> k in before.entries)
    && EntriesFit(before, p, keys)
    && ReadersFit(before, p)
  }

  lemma Begins(s: ShardState)
    ensures Inv(s, Phase(s, NOBODY), multiset{})
  {
    forall k | k in s.entries
      ensures EntryFits(s, Phase(s, NOBODY), multiset{}, k)
    {
      assert Unfinished(NOBODY, k) == {};
    }
  }

  lemma WithSignalsAt(p: Phase, k: Key, s: Signals, x: Key)
    requires k in p.state.entries && x in p.state.entries && s.history != []
    ensures var q := WithSignals(p, k, s);
            && x in q.state.entries
            && SignalsOf(q, x) == (if x == k then s else SignalsOf(p, x))
            && q.state.entries[x] == (if x == k then Signalling(p.state.entries[k], s) else p.state.entries[x])
  {
  }

  predicate Unfinishing(lookup: Lookup, k: Key) {
    lookup.key == k && !lookup.progress.Done?
  }

  // How one lookup that gets somewhere changes how many are unfinished.
  lemma UnfinishedAfter(r: Reading, t: nat, lookup: Lookup, k: Key)
    ensures var next := r.(readers := r.readers[t := lookup]);
            |Unfinished(next, k)| == |Unfinished(r, k)|
              - (if t in r.readers && Unfinishing(r.readers[t], k) then 1 else 0)
              + (if Unfinishing(lookup, k) then 1 else 0)
    ensures t in r.readers && Unfinishing(r.readers[t], k) ==> |Unfinished(r, k)| >= 1
  {
    var next := r.(readers := r.readers[t := lookup]);
    var others := Unfinished(r, k) - {t};
    assert Unfinished(next, k) == if Unfinishing(lookup, k) then others + {t} else others;
  }

  lemma EnterKeepsEntry(before: ShardState, p: Phase, keys: multiset<Key>, t: nat, k: Key, x: Key)
    requires t !in p.reading.readers && x in before.entries && x in p.state.entries && EntryFits(before, p, keys, x)
    ensures EntryFits(before, StepPhase(p, Enter(t, k)), keys + FoundBy(p, Enter(t, k)), x)
  {
    UnfinishedAfter(p.reading, t, Lookup(k, if k in p.state.entries then Starting else Done), x);
    assert SignalsOf(StepPhase(p, Enter(t, k)), x) == SignalsOf(p, x);
  }

  lemma EnterKeepsEntries(before: ShardState, p: Phase, keys: multiset<Key>, t: nat, k: Key)
    requires t !in p.reading.readers && p.state.entries.Keys == before.entries.Keys && EntriesFit(before, p, keys)
    ensures var q := StepPhase(p, Enter(t, k));
            q.state == p.state && EntriesFit(before, q, keys + FoundBy(p, Enter(t, k)))
  {
    var q := StepPhase(p, Enter(t, k));
    var keys' := keys + FoundBy(p, Enter(t, k));
    forall x | x in before.entries
      ensures EntryFits(before, q, keys', x)
    {
      assert EntryFits(before, p, keys, x);
      EnterKeepsEntry(before, p, keys, t, k, x);
    }
  }

  lemma EnterKeepsReaders(before: ShardState, p: Phase, t: nat, k: Key)
    requires t !in p.reading.readers && p.state.entries.Keys == before.entries.Keys && ReadersFit(before, p)
    ensures ReadersFit(before, StepPhase(p, Enter(t, k)))
  {
    var q := StepPhase(p, Enter(t, k));
    forall u | u in q.reading.readers
      ensures ReaderFits(before, q, q.reading.readers[u])
    {
      if u != t {
        assert ReaderFits(before, p, p.reading.readers[u]);
      }
    }
  }

  lemma EnterKeepsInv(before: ShardState, p: Phase, keys: multiset<Key>, t: nat, k: Key)
    requires Inv(before, p, keys) && t !in p.reading.readers
    ensures Inv(before, StepPhase(p, Enter(t, k)), keys + FoundBy(p, Enter(t, k)))
  {
    EnterKeepsEntries(before, p, keys, t, k);
    EnterKeepsReaders(before, p, t, k);
  }

  lemma LeaveKeepsInv(before: ShardState, p: Phase, keys: multiset<Key>, t: nat)
    requires Inv(before, p, keys) && t in p.reading.readers && p.reading.readers[t].progress.Done?
    ensures Inv(before, StepPhase(p, Leave(t)), keys)
  {
    var q := StepPhase(p, Leave(t));
    forall x | x in before.entries
      ensures EntryFits(before, q, keys, x)
    {
      assert EntryFits(before, p, keys, x);
      assert Unfinished(q.reading, x) == Unfinished(p.reading, x);
    }
    forall u | u in q.reading.readers
      ensures ReaderFits(before, q, q.reading.readers[u])
    {
      assert ReaderFits(before, p, p.reading.readers[u]);
    }
  }

  // The entry that a lookup accesses, and the others.
  lemma NextKeepsItsEntry(before: ShardState, p: Phase, keys: multiset<Key>, t: nat, at: nat, k: Key)
    requires k in before.entries && k in p.state.entries && EntryFits(before, p, keys, k)
    requires t in p.reading.readers && Unfinishing(p.reading.readers[t], k)
    requires ReaderFits(before, p, p.reading.readers[t])
    ensures var q := StepPhase(p, Next(t, at));
            k in q.state.entries && EntryFits(before, q, keys, k) && Grown(SignalsOf(p, k), SignalsOf(q, k))
  {
    var lookup := p.reading.readers[t];
    var a := Access(SignalsOf(p, k), lookup.progress, at);
    WithSignalsAt(p, k, a.signals, k);
    UnfinishedAfter(p.reading, t, lookup.(progress := a.progress), k);
    AccessKeeps(SignalsOf(p, k), before.entries[k].frequency, before.entries[k].clockBit, keys[k],
                |Unfinished(p.reading, k)|, lookup.progress, at);
  }

  lemma NextKeepsOthers(before: ShardState, p: Phase, keys: multiset<Key>, t: nat, at: nat, x: Key)
    requires x in before.entries && x in p.state.entries && EntryFits(before, p, keys, x)
    requires t in p.reading.readers && p.reading.readers[t].key != x && p.reading.readers[t].key in p.state.entries
    ensures var q := StepPhase(p, Next(t, at));
            x in q.state.entries && EntryFits(before, q, keys, x) && SignalsOf(q, x) == SignalsOf(p, x)
  {
    var lookup := p.reading.readers[t];
    var a := Access(SignalsOf(p, lookup.key), lookup.progress, at);
    WithSignalsAt(p, lookup.key, a.signals, x);
    UnfinishedAfter(p.reading, t, lookup.(progress := a.progress), x);
  }

  lemma NextKeepsEntry(before: ShardState, p: Phase, keys: multiset<Key>, t: nat, at: nat, x: Key)
    requires Inv(before, p, keys) && t in p.reading.readers && !p.reading.readers[t].progress.Done?
    requires x in before.entries
    ensures var q := StepPhase(p, Next(t, at));
            x in q.state.entries && EntryFits(before, q, keys, x) && Grown(SignalsOf(p, x), SignalsOf(q, x))
  {
    assert ReaderFits(before, p, p.reading.readers[t]) && EntryFits(before, p, keys, x);
    if x == p.reading.readers[t].key {
      NextKeepsItsEntry(before, p, keys, t, at, x);
    } else {
      NextKeepsOthers(before, p, keys, t, at, x);
    }
  }

  lemma NextKeepsReader(before: ShardState, p: Phase, keys: multiset<Key>, t: nat, at: nat, k: Key)
    requires k in before.entries && k in p.state.entries && EntryFits(before, p, keys, k)
    requires t in p.reading.readers && Unfinishing(p.reading.readers[t], k)
    requires ReaderFits(before, p, p.reading.readers[t])
    ensures var q := StepPhase(p, Next(t, at));
            t in q.reading.readers && ReaderFits(before, q, q.reading.readers[t])
  {
    var lookup := p.reading.readers[t];
    UnfinishedAfter(p.reading, t, lookup, k);
    var a := Access(SignalsOf(p, k), lookup.progress, at);
    WithSignalsAt(p, k, a.signals, k);
    AccessKeeps(SignalsOf(p, k), before.entries[k].frequency, before.entries[k].clockBit, keys[k],
                |Unfinished(p.reading, k)|, lookup.progress, at);
  }

  lemma NextKeepsReaders(before: ShardState, p: Phase, keys: multiset<Key>, t: nat, at: nat, u: nat)
    requires Inv(before, p, keys) && t in p.reading.readers && !p.reading.readers[t].progress.Done?
    requires u in p.reading.readers
    ensures var q := StepPhase(p, Next(t, at));
            u in q.reading.readers && ReaderFits(before, q, q.reading.readers[u])
  {
    var lookup := p.reading.readers[u];
    assert ReaderFits(before, p, p.reading.readers[t]) && ReaderFits(before, p, lookup);
    if u == t {
      assert EntryFits(before, p, keys, lookup.key);
      NextKeepsReader(before, p, keys, t, at, lookup.key);
    } else if !lookup.progress.Done? {
      NextKeepsEntry(before, p, keys, t, at, lookup.key);
    }
  }

  lemma NextKeepsAllEntries(before: ShardState, p: Phase, keys: multiset<Key>, t: nat, at: nat)
    requires Inv(before, p, keys) && t in p.reading.readers && !p.reading.readers[t].progress.Done?
    ensures var q := StepPhase(p, Next(t, at));
            && q.state == before.(entries := q.state.entries) && q.state.entries.Keys == before.entries.Keys
            && EntriesFit(before, q, keys)
  {
    var q := StepPhase(p, Next(t, at));
    assert ReaderFits(before, p, p.reading.readers[t]);
    assert q.state.entries.Keys == p.state.entries.Keys;
    forall x | x in before.entries
      ensures EntryFits(before, q, keys, x)
    {
      NextKeepsEntry(before, p, keys, t, at, x);
    }
  }

  lemma NextKeepsAllReaders(before: ShardState, p: Phase, keys: multiset<Key>, t: nat, at: nat)
    requires Inv(before, p, keys) && t in p.reading.readers && !p.reading.readers[t].progress.Done?
    ensures ReadersFit(before, StepPhase(p, Next(t, at)))
  {
    var q := StepPhase(p, Next(t, at));
    forall u | u in q.reading.readers
      ensures ReaderFits(before, q, q.reading.readers[u])
    {
      NextKeepsReaders(before, p, keys, t, at, u);
    }
  }

  lemma NextKeepsInv(before: ShardState, p: Phase, keys: multiset<Key>, t: nat, at: nat)
    requires Inv(before, p, keys) && t in p.reading.readers && !p.reading.readers[t].progress.Done?
    ensures Inv(before, StepPhase(p, Next(t, at)), keys)
  {
    NextKeepsAllEntries(before, p, keys, t, at);
    NextKeepsAllReaders(before, p, keys, t, at);
  }

  lemma StepKeepsInv(before: ShardState, p: Phase, keys: multiset<Key>, move: Move)
    requires Inv(before, p, keys)
    ensures Inv(before, StepPhase(p, move), keys + FoundBy(p, move))
  {
    assert !move.Enter? ==> keys + FoundBy(p, move) == keys;
    match move
    case Enter(t, k) =>
      if t !in p.reading.readers {
        EnterKeepsInv(before, p, keys, t, k);
      } else {
        assert keys + FoundBy(p, move) == keys;
      }
    case Next(t, at) =>
      if t in p.reading.readers {
        if !p.reading.readers[t].progress.Done? {
          NextKeepsInv(before, p, keys, t, at);
        }
      }
    case Leave(t) =>
      if StepPhase(p, move) != p {
        LeaveKeepsInv(before, p, keys, t);
      }
  }

  lemma {:induction false} RunKeepsInv(before: ShardState, p: Phase, keys: multiset<Key>, moves: seq<Move>)
    requires Inv(before, p, keys)
    ensures Inv(before, RunMoves(p, moves), keys + Found(p, moves))
    decreases |moves|
  {
    if moves == [] {
      assert keys + Found(p, moves) == keys;
    } else {
      var now, later := FoundBy(p, moves[0]), Found(StepPhase(p, moves[0]), moves[1..]);
      StepKeepsInv(before, p, keys, moves[0]);
      RunKeepsInv(before, StepPhase(p, moves[0]), keys + now, moves[1..]);
      assert keys + (now + later) == keys + now + later;
    }
  }

  // ----- what a move leaves alone -----

  lemma MoveKeepsShard(p: Phase, move: Move)
    ensures OnlySignalsDiffer(p.state, StepPhase(p, move).state)
  {
  }

  // ----- the theorems -----

  function AtMost255(n: nat): U8 {
    if n < 255 then n else 255
  }

  // Once no lookup is inside, an entry is as before if no lookup has found it. If n have, its
  // clock bit is set and its frequency has gone up by at least one and at most n, saturating.
  lemma PhaseEnds(before: ShardState, p: Phase, keys: multiset<Key>, k: Key)
    requires Inv(before, p, keys) && p.reading.readers == map[] && k in before.entries
    ensures var n := keys[k];
            var e, e' := before.entries[k], p.state.entries[k];
            && e'.core == e.core
            && (n == 0 ==> e' == e)
            && (n >= 1 ==> e'.clockBit
                           && AtMost255(e.frequency + 1) <= e'.frequency <= AtMost255(e.frequency + n))
  {
    assert EntryFits(before, p, keys, k);
    assert Unfinished(p.reading, k) == {};
  }

  lemma {:induction false} RunFits(before: ShardState, moves: seq<Move>)
    ensures Inv(before, RunMoves(Phase(before, NOBODY), moves), Found(Phase(before, NOBODY), moves))
  {
    var found := Found(Phase(before, NOBODY), moves);
    Begins(before);
    RunKeepsInv(before, Phase(before, NOBODY), multiset{}, moves);
    assert multiset{} + found == found;
  }

  lemma {:induction false} RacingLookups(before: ShardState, moves: seq<Move>, k: Key)
    requires RunMoves(Phase(before, NOBODY), moves).reading.readers == map[] && k in before.entries
    ensures var p := RunMoves(Phase(before, NOBODY), moves);
            var n := Found(Phase(before, NOBODY), moves)[k];
            var e := before.entries[k];
            && p.state == before.(entries := p.state.entries) && p.state.entries.Keys == before.entries.Keys
            && p.state.entries[k].core == e.core
            && (n == 0 ==> p.state.entries[k] == e)
            && (n >= 1 ==>
                  p.state.entries[k].clockBit
                  && AtMost255(e.frequency + 1) <= p.state.entries[k].frequency <= AtMost255(e.frequency + n))
  {
    RunFits(before, moves);
    PhaseEnds(before, RunMoves(Phase(before, NOBODY), moves), Found(Phase(before, NOBODY), moves), k);
  }

  // At any moment of any phase a frequency is between what it was before and 255.
  lemma FrequencyNeverDrops(before: ShardState, moves: seq<Move>, k: Key)
    requires k in before.entries
    ensures var p := RunMoves(Phase(before, NOBODY), moves);
            k in p.state.entries && before.entries[k].frequency <= p.state.entries[k].frequency <= 255
  {
    var p := RunMoves(Phase(before, NOBODY), moves);
    RunFits(before, moves);
    assert EntryFits(before, p, Found(Phase(before, NOBODY), moves), k);
  }

  // ----- the bounds are met -----

  // Loads return the latest value, and stores are the latest in turn.
  predicate Latest(p: Phase, move: Move) {
    move.Next? && move.t in p.reading.readers && p.reading.readers[move.t].key in p.state.entries ==>
      var lookup := p.reading.readers[move.t];
      var h := SignalsOf(p, lookup.key).history;
      && (lookup.progress.BitSet? ==> move.at == |h| - 1)
      && (lookup.progress.Loaded? ==> move.at == |h|)
  }

  predicate InOrder(p: Phase, moves: seq<Move>)
    decreases |moves|
  {
    moves == [] || (Latest(p, moves[0]) && InOrder(StepPhase(p, moves[0]), moves[1..]))
  }

  predicate ComesFor(p: Phase, move: Move, k: Key) {
    move.Enter? && move.t !in p.reading.readers && move.key in p.state.entries && move.key == k
  }

  // The moves lead from p to q in order, and n lookups come in, all of them for k.
  ghost predicate Moved(p: Phase, moves: seq<Move>, k: Key, n: nat, q: Phase)
    decreases |moves|
  {
    if moves == [] then n == 0 && p == q
    else
      var comes := ComesFor(p, moves[0], k);
      && Latest(p, moves[0]) && (moves[0].Enter? ==> comes) && (comes ==> n > 0)
      && Moved(StepPhase(p, moves[0]), moves[1..], k, if comes then n - 1 else n, q)
  }

  lemma {:induction false} MovedMeans(p: Phase, moves: seq<Move>, k: Key, n: nat, q: Phase)
    requires Moved(p, moves, k, n, q)
    ensures RunMoves(p, moves) == q && InOrder(p, moves)
    ensures Found(p, moves) == multiset{}[k := n]
    decreases |moves|
  {
    if moves != [] {
      MovedMeans(StepPhase(p, moves[0]), moves[1..], k, if ComesFor(p, moves[0], k) then n - 1 else n, q);
    }
  }

  lemma {:induction false} MovedTwice(p: Phase, first: seq<Move>, k: Key, some: nat, q: Phase,
                                      rest: seq<Move>, more: nat, r: Phase)
    requires Moved(p, first, k, some, q) && Moved(q, rest, k, more, r)
    ensures Moved(p, first + rest, k, some + more, r)
    decreases |first|
  {
    if first == [] {
      assert first + rest == rest;
    } else {
      assert (first + rest)[0] == first[0] && (first + rest)[1..] == first[1..] + rest;
      MovedTwice(StepPhase(p, first[0]), first[1..], k, if ComesFor(p, first[0], k) then some - 1 else some,
                 q, rest, more, r);
    }
  }

  lemma OneMove(p: Phase, a: Move, k: Key, n: nat, q: Phase)
    requires StepPhase(p, a) == q && Latest(p, a)
    requires if a.Enter? then ComesFor(p, a, k) && n == 1 else n == 0
    ensures Moved(p, [a], k, n, q)
  {
    assert [a][1..] == [];
    assert Moved(q, [], k, 0, q);
  }

  // How many values the frequency of k has had; the last of them is the present one.
  function Values(p: Phase, k: Key): nat
    requires k in p.state.entries
  {
    |SignalsOf(p, k).history|
  }

  predicate Current(p: Phase, k: Key) {
    k in p.state.entries && p.state.entries[k].frequency == SignalsOf(p, k).history[Values(p, k) - 1]
  }

  // The phase p with the entry of k bumped to frequency v.
  ghost predicate BumpedTo(p: Phase, q: Phase, k: Key, v: U8)
    requires k in p.state.entries
  {
    var e := p.state.entries[k].(frequency := v, clockBit := true);
    Current(q, k) && q.state == p.state.(entries := p.state.entries[k := e])
  }

  lemma BumpedTwice(p: Phase, q: Phase, r: Phase, k: Key, v: U8, w: U8)
    requires k in p.state.entries && BumpedTo(p, q, k, v) && BumpedTo(q, r, k, w)
    ensures BumpedTo(p, r, k, w)
  {
    var e := p.state.entries[k].(frequency := v, clockBit := true);
    var e' := p.state.entries[k].(frequency := w, clockBit := true);
    assert p.state.entries[k := e][k := e'] == p.state.entries[k := e'];
  }

  lemma StoresLast(s: Signals, v: U8)
    requires s.history != []
    ensures Access(s, Loaded(v), |s.history|) ==
            Accessed(if v < 255 then s.(history := s.history + [v + 1]) else s, Done)
  {
    var h := s.history;
    if v < 255 {
      assert h[..|h|] + [v + 1] + h[|h|..] == h + [v + 1];
    }
  }

  // A lookup by t is inside and has got to `progress`.
  ghost predicate At(p: Phase, t: nat, k: Key, progress: Progress) {
    Current(p, k) && t in p.reading.readers && p.reading.readers[t] == Lookup(k, progress)
  }

  lemma ComesIn(p: Phase, t: nat, k: Key)
    requires k in p.state.entries && t !in p.reading.readers
    ensures StepPhase(p, Enter(t, k)) ==
            p.(reading := p.reading.(readers := p.reading.readers[t := Lookup(k, Starting)]))
    ensures ComesFor(p, Enter(t, k), k)
  {
  }

  lemma SetsBit(p: Phase, t: nat, k: Key)
    requires At(p, t, k, Starting)
    ensures var q := StepPhase(p, Next(t, 0));
            && BumpedTo(p, q, k, p.state.entries[k].frequency) && Values(q, k) == Values(p, k)
            && q.reading.readers == p.reading.readers[t := Lookup(k, BitSet)]
  {
  }

  lemma Loads(p: Phase, t: nat, k: Key)
    requires At(p, t, k, BitSet) && p.state.entries[k].clockBit
    ensures var f := p.state.entries[k].frequency;
            var q := StepPhase(p, Next(t, Values(p, k) - 1));
            && BumpedTo(p, q, k, f) && Values(q, k) == Values(p, k)
            && q.reading.readers == p.reading.readers[t := Lookup(k, Loaded(f))]
    ensures Latest(p, Next(t, Values(p, k) - 1))
  {
  }

  lemma Stores(p: Phase, t: nat, k: Key, v: U8)
    requires At(p, t, k, Loaded(v)) && p.state.entries[k].clockBit
    ensures var q := StepPhase(p, Next(t, Values(p, k)));
            && BumpedTo(p, q, k, if v < 255 then v + 1 else p.state.entries[k].frequency)
            && q.reading.readers == p.reading.readers[t := Lookup(k, Done)]
    ensures Latest(p, Next(t, Values(p, k)))
  {
    StoresLast(SignalsOf(p, k), v);
  }

  // A lookup that is inside sets the bit and loads the latest frequency.
  lemma MarksAndLoads(p: Phase, t: nat, k: Key) returns (moves: seq<Move>, q: Phase)
    requires At(p, t, k, Starting)
    ensures Moved(p, moves, k, 0, q)
    ensures BumpedTo(p, q, k, p.state.entries[k].frequency)
    ensures q.reading.readers == p.reading.readers[t := Lookup(k, Loaded(p.state.entries[k].frequency))]
  {
    var mark, load := Next(t, 0), Next(t, Values(p, k) - 1);
    var f := p.state.entries[k].frequency;
    var p1 := StepPhase(p, mark);
    SetsBit(p, t, k);
    OneMove(p, mark, k, 0, p1);
    q := StepPhase(p1, load);
    Loads(p1, t, k);
    OneMove(p1, load, k, 0, q);
    MovedTwice(p, [mark], k, 0, p1, [load], 0, q);
    BumpedTwice(p, p1, q, k, f, f);
    moves := [mark] + [load];
  }

  // The first half of a lookup by t: it comes in, sets the bit and loads the latest frequency.
  lemma Opened(p: Phase, t: nat, k: Key) returns (moves: seq<Move>, q: Phase)
    requires Current(p, k) && t !in p.reading.readers
    ensures Moved(p, moves, k, 1, q)
    ensures BumpedTo(p, q, k, p.state.entries[k].frequency)
    ensures q.reading.readers == p.reading.readers[t := Lookup(k, Loaded(p.state.entries[k].frequency))]
  {
    var p1 := StepPhase(p, Enter(t, k));
    ComesIn(p, t, k);
    OneMove(p, Enter(t, k), k, 1, p1);
    var rest;
    rest, q := MarksAndLoads(p1, t, k);
    MovedTwice(p, [Enter(t, k)], k, 1, p1, rest, 0, q);
    moves := [Enter(t, k)] + rest;
  }

  // The second half: it stores and leaves.
  lemma Closed(p: Phase, t: nat, k: Key, v: U8) returns (moves: seq<Move>, q: Phase)
    requires At(p, t, k, Loaded(v)) && p.state.entries[k].clockBit
    ensures Moved(p, moves, k, 0, q)
    ensures BumpedTo(p, q, k, if v < 255 then v + 1 else p.state.entries[k].frequency)
    ensures q.reading.readers == p.reading.readers - {t}
  {
    var store, leave := Next(t, Values(p, k)), Leave(t);
    var p1 := StepPhase(p, store);
    Stores(p, t, k, v);
    OneMove(p, store, k, 0, p1);
    q := StepPhase(p1, leave);
    Leaves(p1, t, k);
    OneMove(p1, leave, k, 0, q);
    MovedTwice(p, [store], k, 0, p1, [leave], 0, q);
    moves := [store] + [leave];
  }

  lemma Leaves(p: Phase, t: nat, k: Key)
    requires At(p, t, k, Done)
    ensures StepPhase(p, Leave(t)) == p.(reading := p.reading.(readers := p.reading.readers - {t}))
  {
  }

  // Lookups that all load before any of them stores count as one.
  lemma {:induction false} Nested(p: Phase, t: nat, n: nat, k: Key) returns (moves: seq<Move>, q: Phase)
    requires Current(p, k) && n >= 1 && forall u :: u in p.reading.readers ==> u < t
    ensures Moved(p, moves, k, n, q)
    ensures BumpedTo(p, q, k, AtMost255(p.state.entries[k].frequency + 1)) && q.reading.readers == p.reading.readers
    decreases n
  {
    var opening, p1 := Opened(p, t, k);
    var inner, p2 := [], p1;
    if n > 1 {
      inner, p2 := Nested(p1, t + 1, n - 1, k);
    }
    var closing;
    closing, q := NestedEnds(p, p1, p2, t, k, n);
    MovedTwice(p1, inner, k, n - 1, p2, closing, 0, q);
    MovedTwice(p, opening, k, 1, p1, inner + closing, n - 1, q);
    moves := opening + (inner + closing);
  }

  // The lookup that came in first stores last.
  lemma NestedEnds(p: Phase, p1: Phase, p2: Phase, t: nat, k: Key, n: nat) returns (closing: seq<Move>, q: Phase)
    requires Current(p, k) && n >= 1 && t !in p.reading.readers
    requires BumpedTo(p, p1, k, p.state.entries[k].frequency) && p2.reading.readers == p1.reading.readers
    requires p1.reading.readers == p.reading.readers[t := Lookup(k, Loaded(p.state.entries[k].frequency))]
    requires if n == 1 then p2 == p1 else BumpedTo(p1, p2, k, AtMost255(p.state.entries[k].frequency + 1))
    ensures Moved(p2, closing, k, 0, q)
    ensures BumpedTo(p, q, k, AtMost255(p.state.entries[k].frequency + 1)) && q.reading.readers == p.reading.readers
  {
    var f := p.state.entries[k].frequency;
    var g := if n == 1 then f else AtMost255(f + 1);
    if n > 1 {
      BumpedTwice(p, p1, p2, k, f, g);
    }
    closing, q := Closed(p2, t, k, f);
    BumpedTwice(p, p2, q, k, g, AtMost255(f + 1));
    assert q.reading.readers == p.reading.readers;
  }

  // Lookups that do not overlap count one each.
  lemma {:induction false} OneByOne(p: Phase, n: nat, k: Key) returns (moves: seq<Move>, q: Phase)
    requires Current(p, k) && p.reading.readers == map[]
    ensures Moved(p, moves, k, n, q)
    ensures k in q.state.entries && q.reading.readers == map[]
    ensures q.state.entries[k].frequency == AtMost255(p.state.entries[k].frequency + n)
    decreases n
  {
    if n == 0 {
      moves, q := [], p;
    } else {
      var first, p1 := Nested(p, 0, 1, k);
      var rest;
      rest, q := OneByOne(p1, n - 1, k);
      MovedTwice(p, first, k, 1, p1, rest, n - 1, q);
      moves := first + rest;
    }
  }

  // Every value within the bounds is what m racing lookups can leave, without any help from
  // relaxed ordering.
  lemma BoundsAreMet(before: ShardState, k: Key, m: nat, v: U8) returns (moves: seq<Move>)
    requires k in before.entries && m >= 1
    requires AtMost255(before.entries[k].frequency + 1) <= v <= AtMost255(before.entries[k].frequency + m)
    ensures InOrder(Phase(before, NOBODY), moves)
    ensures Found(Phase(before, NOBODY), moves) == multiset{}[k := m]
    ensures var p := RunMoves(Phase(before, NOBODY), moves);
            p.reading.readers == map[] && k in p.state.entries && p.state.entries[k].frequency == v
  {
    var p, f := Phase(before, NOBODY), before.entries[k].frequency;
    var counted := if v > f then v - f else 1;
    var first, p1 := Nested(p, 0, m - counted + 1, k);
    var rest, p2 := OneByOne(p1, counted - 1, k);
    MovedTwice(p, first, k, m - counted + 1, p1, rest, counted - 1, p2);
    moves := first + rest;
    MovedMeans(p, moves, k, m, p2);
  }

  // A lookup that nobody races is an ordinary one.
  lemma Alone(s: ShardState, t: nat, k: Key)
    requires k in s.entries
    ensures var p1 := StepPhase(Phase(s, NOBODY), Enter(t, k));
            var p2 := StepPhase(p1, Next(t, 0));
            var p3 := StepPhase(p2, Next(t, 0));
            var p4 := StepPhase(p3, Next(t, 1));
            && t in p1.reading.readers && t in p2.reading.readers && t in p3.reading.readers
            && p4.reading.readers == map[t := Lookup(k, Done)]
            && StepPhase(p4, Leave(t)).reading.readers == map[]
            && StepPhase(p4, Leave(t)).state == Touch(s, k)
  {
    var p := Phase(s, NOBODY);
    var p1 := StepPhase(p, Enter(t, k));
    var p2 := StepPhase(p1, Next(t, 0));
    var p3 := StepPhase(p2, Next(t, 0));
    var p4 := StepPhase(p3, Next(t, 1));
    ComesIn(p, t, k);
    SetsBit(p1, t, k);
    Loads(p2, t, k);
    BumpedTwice(p1, p2, p3, k, s.entries[k].frequency, s.entries[k].frequency);
    Stores(p3, t, k, s.entries[k].frequency);
    BumpedTwice(p1, p3, p4, k, s.entries[k].frequency, p4.state.entries[k].frequency);
    assert p4.reading.readers - {t} == map[];
  }

  // In particular two lookups can count as one.
  lemma UpdatesCanBeLost(before: ShardState, k: Key) returns (moves: seq<Move>)
    requires k in before.entries && before.entries[k].frequency < 255
    ensures Found(Phase(before, NOBODY), moves) == multiset{k, k} && InOrder(Phase(before, NOBODY), moves)
    ensures var p := RunMoves(Phase(before, NOBODY), moves);
            p.reading.readers == map[] && k in p.state.entries
            && p.state.entries[k].frequency == before.entries[k].frequency + 1
  {
    moves := BoundsAreMet(before, k, 2, before.entries[k].frequency + 1);
  }
}
