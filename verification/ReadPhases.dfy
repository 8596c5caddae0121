// What a read phase leaves in a shard is what some of its lookups leave one after the other.
module ReadPhases {
  import opened Types
  import opened ShardModel
  import opened ShardLaws
  import opened ShardRuns
  import Readers

  // ----- some of the lookups -----

  // Lookups one after the other: of the keys found at least one each, and none too many.
  ghost predicate SomeOf(found: multiset<Key>, ops: seq<ShardOp>) {
    && (forall op :: op in ops ==> op.LookupOp? && op.key in found)
    && (forall k :: k in found ==> 1 <= multiset(ops)[LookupOp(k)] <= found[k])
  }

  function Repeated(k: Key, n: nat): seq<ShardOp> {
    if n == 0 then [] else [LookupOp(k)] + Repeated(k, n - 1)
  }

  // What n lookups one after the other make of an entry.
  function Bumped(e: EntryData, n: nat): EntryData {
    e.(frequency := Readers.AtMost255(e.frequency + n), clockBit := e.clockBit || n > 0)
  }

  lemma {:induction false} RepeatedIs(k: Key, n: nat)
    ensures |Repeated(k, n)| == n && multiset(Repeated(k, n)) == multiset{}[LookupOp(k) := n]
    decreases n
  {
    if n > 0 {
      RepeatedIs(k, n - 1);
    }
  }

  // The shard with the entry of k bumped n times.
  function BumpedAt(s: ShardState, k: Key, n: nat): ShardState
    requires k in s.entries
  {
    s.(entries := s.entries[k := Bumped(s.entries[k], n)])
  }

  lemma TouchThenBump(s: ShardState, k: Key, n: nat)
    requires k in s.entries
    ensures if n == 0 then BumpedAt(s, k, n) == s else BumpedAt(Touch(s, k), k, n - 1) == BumpedAt(s, k, n)
  {
    if n == 0 {
      assert s.entries[k := s.entries[k]] == s.entries;
    } else {
      assert s.entries[k := s.entries[k].Touched()][k := Bumped(s.entries[k], n)] ==
        s.entries[k := Bumped(s.entries[k], n)];
    }
  }

  lemma LookupFirst(s: ShardState, k: Key, rest: seq<ShardOp>)
    requires ShardInv(s) && k in s.entries
    ensures ShardInv(Touch(s, k)) && k in Touch(s, k).entries
    ensures RunShard(s, [LookupOp(k)] + rest) == RunShard(Touch(s, k), rest)
    ensures TallyOfRun(s, [LookupOp(k)] + rest) == Both(Tally(0, 1, 0), TallyOfRun(Touch(s, k), rest))
  {
    TouchKeepsInv(s, k);
    RunFirst(s, LookupOp(k), rest);
    TallyFirst(s, LookupOp(k), rest);
  }

  lemma RepeatedFirst(s: ShardState, k: Key, n: nat)
    requires ShardInv(s) && k in s.entries && n > 0
    ensures ShardInv(Touch(s, k)) && k in Touch(s, k).entries
    ensures RunShard(s, Repeated(k, n)) == RunShard(Touch(s, k), Repeated(k, n - 1))
    ensures TallyOfRun(s, Repeated(k, n)) == Both(Tally(0, 1, 0), TallyOfRun(Touch(s, k), Repeated(k, n - 1)))
  {
    LookupFirst(s, k, Repeated(k, n - 1));
  }

  lemma {:induction false} RepeatedRuns(s: ShardState, k: Key, n: nat, t: ShardState)
    requires ShardInv(s) && k in s.entries && t == RunShard(s, Repeated(k, n))
    ensures t == BumpedAt(s, k, n)
    decreases n
  {
    TouchThenBump(s, k, n);
    if n > 0 {
      RepeatedFirst(s, k, n);
      RepeatedRuns(Touch(s, k), k, n - 1, t);
    }
  }

  lemma {:induction false} RepeatedTally(s: ShardState, k: Key, n: nat)
    requires ShardInv(s) && k in s.entries
    ensures TallyOfRun(s, Repeated(k, n)) == Tally(0, n, 0)
    decreases n
  {
    if n > 0 {
      RepeatedFirst(s, k, n);
      RepeatedTally(Touch(s, k), k, n - 1);
    }
  }

  // The entry e' that n racing lookups have left of e.
  predicate Between(e: EntryData, e': EntryData, n: nat) {
    && e'.core == e.core && e'.clockBit
    && Readers.AtMost255(e.frequency + 1) <= e'.frequency <= Readers.AtMost255(e.frequency + n)
  }

  // As many lookups one after the other as the frequency has gone up by, or one if it could not.
  function Increments(e: EntryData, e': EntryData): nat {
    if e'.frequency > e.frequency then e'.frequency - e.frequency else 1
  }

  lemma IncrementsMatch(e: EntryData, e': EntryData, n: nat)
    requires Between(e, e', n)
    ensures 1 <= Increments(e, e') <= n || n == 0
    ensures Bumped(e, Increments(e, e')) == e'
  {
  }

  // The entries of s, but those of the given keys as in `after`.
  ghost predicate Replaced(s: ShardState, t: ShardState, after: map<Key, EntryData>, keys: multiset<Key>)
    requires t.entries.Keys == s.entries.Keys
  {
    forall k {:trigger t.entries[k]} :: k in s.entries ==>
      t.entries[k] == if k in keys && k in after then after[k] else s.entries[k]
  }

  lemma {:induction false} Thin(s: ShardState, found: multiset<Key>, after: map<Key, EntryData>)
    returns (ops: seq<ShardOp>)
    requires ShardInv(s)
    requires forall k :: k in found ==> k in s.entries && k in after && Between(s.entries[k], after[k], found[k])
    ensures SomeOf(found, ops) && |ops| <= |found|
    ensures OnlySignalsDiffer(s, RunShard(s, ops)) && Replaced(s, RunShard(s, ops), after, found)
    ensures TallyOfRun(s, ops) == Tally(0, |ops|, 0)
    decreases |found|
  {
    if found == multiset{} {
      ops := [];
    } else {
      var k :| k in found;
      var others := found[k := 0];
      var n := Increments(s.entries[k], after[k]);
      var rest := Thin(s, others, after);
      ops := ThinOne(s, found, after, k, rest);
    }
  }

  lemma ThinOne(s: ShardState, found: multiset<Key>, after: map<Key, EntryData>, k: Key, rest: seq<ShardOp>)
    returns (ops: seq<ShardOp>)
    requires ShardInv(s) && k in found && k in s.entries && k in after
    requires Between(s.entries[k], after[k], found[k])
    requires SomeOf(found[k := 0], rest) && |rest| <= |found[k := 0]|
    requires OnlySignalsDiffer(s, RunShard(s, rest)) && Replaced(s, RunShard(s, rest), after, found[k := 0])
    requires TallyOfRun(s, rest) == Tally(0, |rest|, 0)
    ensures SomeOf(found, ops) && |ops| <= |found|
    ensures OnlySignalsDiffer(s, RunShard(s, ops)) && Replaced(s, RunShard(s, ops), after, found)
    ensures TallyOfRun(s, ops) == Tally(0, |ops|, 0)
  {
    var t := RunShard(s, rest);
    var n := Increments(s.entries[k], after[k]);
    assert t.entries[k] == s.entries[k];
    IncrementsMatch(s.entries[k], after[k], found[k]);
    ReplacedOne(s, t, after, found, k, n);
    RepeatedRuns(t, k, n, RunShard(t, Repeated(k, n)));
    RepeatedTally(t, k, n);
    RepeatedIs(k, n);
    RunInParts(s, rest, Repeated(k, n));
    TallyInParts(s, rest, Repeated(k, n));
    SomeMore(found, k, rest, n);
    ops := rest + Repeated(k, n);
  }

  lemma ReplacedOne(s: ShardState, t: ShardState, after: map<Key, EntryData>, found: multiset<Key>, k: Key, n: nat)
    requires OnlySignalsDiffer(s, t) && Replaced(s, t, after, found[k := 0])
    requires k in found && k in s.entries && k in after
    requires after[k].core == s.entries[k].core && Bumped(t.entries[k], n) == after[k]
    ensures OnlySignalsDiffer(s, BumpedAt(t, k, n)) && Replaced(s, BumpedAt(t, k, n), after, found)
  {
  }

  lemma SomeMore(found: multiset<Key>, k: Key, rest: seq<ShardOp>, n: nat)
    requires SomeOf(found[k := 0], rest) && 1 <= n <= found[k]
    requires multiset(Repeated(k, n)) == multiset{}[LookupOp(k) := n]
    ensures SomeOf(found, rest + Repeated(k, n))
  {
    var ops := rest + Repeated(k, n);
    assert multiset(ops) == multiset(rest) + multiset(Repeated(k, n));
    assert LookupOp(k) !in rest;
    forall op | op in ops
      ensures op.LookupOp? && op.key in found
    {
      if op !in rest {
        assert op in multiset(Repeated(k, n));
      }
    }
  }

  lemma PhaseReplaces(s: ShardState, p: Readers.Phase, found: multiset<Key>)
    requires Readers.Inv(s, p, found) && p.reading.readers == map[]
    ensures OnlySignalsDiffer(s, p.state) && forall k :: k in found ==> k in s.entries
    ensures forall k {:trigger p.state.entries[k]} :: k in s.entries ==>
              if k in found then Between(s.entries[k], p.state.entries[k], found[k])
              else p.state.entries[k] == s.entries[k]
  {
    forall k | k in s.entries
      ensures p.state.entries[k].core == s.entries[k].core
      ensures if k in found then Between(s.entries[k], p.state.entries[k], found[k])
              else p.state.entries[k] == s.entries[k]
    {
      Readers.PhaseEnds(s, p, found, k);
    }
  }

  lemma SameShard(s: ShardState, t: ShardState, u: ShardState, found: multiset<Key>)
    requires OnlySignalsDiffer(s, t) && OnlySignalsDiffer(s, u) && Replaced(s, t, u.entries, found)
    requires forall k {:trigger u.entries[k]} :: k in s.entries && k !in found ==> u.entries[k] == s.entries[k]
    ensures t == u
  {
    assert t.entries == u.entries;
  }

  // The lookups of a read phase that has ended have had the effect of some of them in turn.
  lemma PhaseIsThinned(s: ShardState, p: Readers.Phase, found: multiset<Key>) returns (ops: seq<ShardOp>)
    requires ShardInv(s) && Readers.Inv(s, p, found) && p.reading.readers == map[]
    ensures SomeOf(found, ops) && |ops| <= |found|
    ensures RunShard(s, ops) == p.state
    ensures TallyOfRun(s, ops) == Tally(0, |ops|, 0)
  {
    PhaseReplaces(s, p, found);
    ops := Thin(s, found, p.state.entries);
    SameShard(s, RunShard(s, ops), p.state, found);
  }
}
