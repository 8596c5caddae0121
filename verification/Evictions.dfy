// Eviction until there is room: what goes, in which order, when it stops, and what it costs.
module Evictions {
  import opened Types
  import opened ShardModel
  import opened Sweeps

  function KeysOf(ev: seq<Evicted>): set<Key> {
    set e | e in ev :: e.key
  }

  function BytesOf(ev: seq<Evicted>): int {
    if ev == [] then 0 else ev[0].entry.core.size + BytesOf(ev[1..])
  }

  // The first i + 1 evictions are the first one and i of the rest.
  lemma PrefixOfCons(first: Evicted, rest: seq<Evicted>, i: nat)
    requires i <= |rest|
    ensures ([first] + rest)[..i + 1] == [first] + rest[..i]
    ensures KeysOf([first] + rest[..i]) == {first.key} + KeysOf(rest[..i])
    ensures BytesOf([first] + rest[..i]) == first.entry.core.size + BytesOf(rest[..i])
  {
    var ev := [first] + rest[..i];
    assert ev[1..] == rest[..i];
    forall k | k in {first.key} + KeysOf(rest[..i])
      ensures k in KeysOf(ev)
    {
      if k == first.key {
        assert ev[0].key == k;
      } else {
        var j :| 0 <= j < i && rest[..i][j].key == k;
        assert ev[j + 1].key == k;
      }
    }
  }

  // The evictions stop with enough room, or with nothing left to evict.
  lemma {:induction false} EvictUntilAgrees(s: ShardState, needed: int, p: nat, out: set<Key>)
    requires Agrees(s, out) && p < 3
    ensures var t := EvictUntil(s, needed, p).after;
            && Agrees(t, out)
            && t.capacity == s.capacity
            && (t.size + needed <= t.capacity || forall q :: 0 <= q <= p ==> t.buckets[q].list == [])
            && (forall q :: p < q < 3 ==> t.buckets[q] == s.buckets[q])
    decreases p, |s.buckets[p].list|
  {
    if s.size + needed > s.capacity {
      if s.buckets[p].list != [] {
        var e := EvictFrom(s, p);
        EvictFromAgrees(s, p, out);
        EvictUntilAgrees(e.after, needed, p, out);
      } else if p > 0 {
        EvictUntilAgrees(s, needed, p - 1, out);
      }
    }
  }

  lemma {:induction false} EmptyBucketsAreSkipped(s: ShardState, needed: int, p: nat, q: nat)
    requires Filed(s) && p <= q < 3 && s.size + needed > s.capacity
    requires forall i :: p < i <= q ==> s.buckets[i].list == []
    ensures EvictUntil(s, needed, q) == EvictUntil(s, needed, p)
  {
    if p < q {
      EmptyBucketsAreSkipped(s, needed, p, q - 1);
    }
  }

  // Entries are only moved from the shard to the list of evicted ones: each at most once,
  // with its fixed part and its bytes, and none of the keys in `out`.
  ghost predicate Conserved(s: ShardState, ev: seq<Evicted>, t: ShardState, out: set<Key>) {
    && (forall e {:trigger e in ev} :: e in ev ==>
          e.key in s.entries && e.key !in out && e.entry.core == s.entries[e.key].core)
    && |KeysOf(ev)| == |ev|
    && t.entries.Keys == s.entries.Keys - KeysOf(ev)
    && (forall k :: k in t.entries ==> t.entries[k].core == s.entries[k].core)
    && s.size == t.size + BytesOf(ev)
  }

  lemma OneEvictionMore(first: Evicted, ev: seq<Evicted>)
    ensures forall e {:trigger e in [first] + ev} :: e in [first] + ev <==> e == first || e in ev
    ensures KeysOf([first] + ev) == {first.key} + KeysOf(ev)
    ensures BytesOf([first] + ev) == first.entry.core.size + BytesOf(ev)
  {
    PrefixOfCons(first, ev, |ev|);
    assert ev[..|ev|] == ev;
  }

  lemma ConservedStep(s: ShardState, first: Evicted, t: ShardState, ev: seq<Evicted>, u: ShardState, out: set<Key>)
    requires first.key in s.entries && first.key !in out && first.entry.core == s.entries[first.key].core
    requires t.entries.Keys == s.entries.Keys - {first.key}
    requires forall k :: k in t.entries ==> t.entries[k].core == s.entries[k].core
    requires t.size == s.size - first.entry.core.size
    requires Conserved(t, ev, u, out)
    ensures Conserved(s, [first] + ev, u, out)
  {
    OneEvictionMore(first, ev);
    assert forall e {:trigger e in ev} :: e in ev ==> e.key in t.entries;
    assert first.key !in KeysOf(ev);
  }

  lemma {:induction false} EvictUntilConserves(s: ShardState, needed: int, p: nat, out: set<Key>)
    requires Agrees(s, out) && p < 3
    ensures Conserved(s, EvictUntil(s, needed, p).evicted, EvictUntil(s, needed, p).after, out)
    decreases p, |s.buckets[p].list|
  {
    if s.size + needed > s.capacity {
      if s.buckets[p].list != [] {
        var e := EvictFrom(s, p);
        EvictFromAgrees(s, p, out);
        EvictUntilConserves(e.after, needed, p, out);
        var r := EvictUntil(e.after, needed, p);
        ConservedStep(s, e.victim, e.after, r.evicted, r.after, out);
      } else if p > 0 {
        EvictUntilConserves(s, needed, p - 1, out);
      }
    }
  }

  // Critical entries outrank standard ones, and those volatile ones.
  predicate Outranks(core: Core, other: Core) {
    match core.policy
    case Critical => !other.policy.Critical?
    case Standard => other.policy.Volatile?
    case Volatile => false
  }

  // Whatever an evicted entry outranks was evicted before it.
  ghost predicate Stratified(s: ShardState, ev: seq<Evicted>, out: set<Key>) {
    forall i, k {:trigger ev[i], s.entries[k]} ::
      0 <= i < |ev| && k in s.entries && k !in out && Outranks(ev[i].entry.core, s.entries[k].core)
      ==> k in KeysOf(ev[..i])
  }

  lemma StratifiedStep(s: ShardState, p: nat, first: Evicted, t: ShardState, rest: seq<Evicted>, out: set<Key>)
    requires Agrees(s, out) && p < 3 && TakenOut(s, p, first.key, t)
    requires first.entry.core.policy.Index() == p
    requires forall q :: p < q < 3 ==> s.buckets[q].list == []
    requires Stratified(t, rest, out)
    ensures Stratified(s, [first] + rest, out)
  {
    var ev := [first] + rest;
    forall i, k | 0 <= i < |ev| && k in s.entries && k !in out && Outranks(ev[i].entry.core, s.entries[k].core)
      ensures k in KeysOf(ev[..i])
    {
      assert InItsBucket(s, k);
      if i > 0 {
        assert ev[i] == rest[i - 1];
        PrefixOfCons(first, rest, i - 1);
        if k != first.key {
          assert k in t.entries;
          assert k in KeysOf(rest[..i - 1]);
        }
      } else {
        assert false;
      }
    }
  }

  lemma {:induction false} EvictUntilIsStratified(s: ShardState, needed: int, p: nat, out: set<Key>)
    requires Agrees(s, out) && p < 3
    requires forall q :: p < q < 3 ==> s.buckets[q].list == []
    ensures Stratified(s, EvictUntil(s, needed, p).evicted, out)
    decreases p, |s.buckets[p].list|, 1
  {
    if s.size + needed > s.capacity {
      if s.buckets[p].list != [] {
        SweepThenStratified(s, needed, p, out);
      } else if p > 0 {
        EvictUntilIsStratified(s, needed, p - 1, out);
      }
    }
  }

  lemma {:induction false} SweepThenStratified(s: ShardState, needed: int, p: nat, out: set<Key>)
    requires Agrees(s, out) && p < 3 && s.buckets[p].list != []
    requires forall q :: p < q < 3 ==> s.buckets[q].list == []
    requires s.size + needed > s.capacity
    ensures Stratified(s, EvictUntil(s, needed, p).evicted, out)
    decreases p, |s.buckets[p].list|, 0
  {
    var e := EvictFrom(s, p);
    EvictFromAgrees(s, p, out);
    EvictUntilIsStratified(e.after, needed, p, out);
    StratifiedStep(s, p, e.victim, e.after, EvictUntil(e.after, needed, p).evicted, out);
  }

  // No eviction happens once the new bytes fit.
  lemma {:induction false} EvictUntilIsMinimal(s: ShardState, needed: int, p: nat, i: nat)
    requires Filed(s) && p < 3 && i < |EvictUntil(s, needed, p).evicted|
    ensures s.size - BytesOf(EvictUntil(s, needed, p).evicted[..i]) + needed > s.capacity
    decreases p, |s.buckets[p].list|
  {
    if s.buckets[p].list != [] {
      var e := EvictFrom(s, p);
      EvictFromTakesOut(s, p);
      if i > 0 {
        EvictUntilIsMinimal(e.after, needed, p, i - 1);
        PrefixOfCons(e.victim, EvictUntil(e.after, needed, p).evicted, i - 1);
      }
    } else if p > 0 {
      EvictUntilIsMinimal(s, needed, p - 1, i);
    }
  }

  // The bucket that the next eviction is from: volatile entries first, critical ones last.
  function NextBucket(s: ShardState): nat
    requires |s.buckets| == 3
  {
    if s.buckets[2].list != [] then 2 else if s.buckets[1].list != [] then 1 else 0
  }

  // The run goes from state to state by one sweep at a time, of the lowest bucket that holds
  // anything, as long as the new bytes do not fit and there is anything to evict.
  ghost predicate InTurn(states: seq<ShardState>, needed: int, r: EvictionRun) {
    && |states| == |r.evicted| + 1 && r.after == states[|r.evicted|]
    && (forall j {:trigger r.evicted[j]} :: 0 <= j < |r.evicted| ==>
          EvictedNext(states[j], needed, r.evicted[j], states[j + 1]))
    && |r.after.buckets| == 3
    && (r.after.size + needed <= r.after.capacity || r.after.buckets[NextBucket(r.after)].list == [])
  }

  ghost predicate EvictedNext(s: ShardState, needed: int, x: Evicted, t: ShardState) {
    && Filed(s) && s.size + needed > s.capacity && s.buckets[NextBucket(s)].list != []
    && x == EvictFrom(s, NextBucket(s)).victim && t == EvictFrom(s, NextBucket(s)).after
  }

  lemma OneInFront(s: ShardState, x: Evicted, states: seq<ShardState>, needed: int, rest: EvictionRun, r: EvictionRun)
    requires InTurn(states, needed, rest) && EvictedNext(s, needed, x, states[0])
    requires r.evicted == [x] + rest.evicted && r.after == rest.after
    ensures InTurn([s] + states, needed, r)
  {
    forall j {:trigger r.evicted[j]} | 0 <= j < |r.evicted|
      ensures EvictedNext(([s] + states)[j], needed, r.evicted[j], ([s] + states)[j + 1])
    {
      if j > 0 {
        LaterInFront(s, states, x, rest.evicted, j);
        assert EvictedNext(states[j - 1], needed, rest.evicted[j - 1], states[j - 1 + 1]);
      }
    }
  }

  lemma LaterInFront(s: ShardState, states: seq<ShardState>, x: Evicted, rest: seq<Evicted>, j: nat)
    requires |states| == |rest| + 1 && 0 < j <= |rest|
    ensures ([s] + states)[j] == states[j - 1] && ([s] + states)[j + 1] == states[j - 1 + 1]
    ensures ([x] + rest)[j] == rest[j - 1]
  {
  }

  lemma {:induction false} EvictUntilGoesInTurn(s: ShardState, needed: int, p: nat) returns (states: seq<ShardState>)
    requires Filed(s) && p < 3 && forall q :: p < q < 3 ==> s.buckets[q].list == []
    ensures InTurn(states, needed, EvictUntil(s, needed, p)) && states[0] == s
    decreases p, |s.buckets[p].list|
  {
    states := [s];
    if s.size + needed > s.capacity {
      if s.buckets[p].list != [] {
        var e := EvictFrom(s, p);
        EvictFromTakesOut(s, p);
        var later := EvictUntilGoesInTurn(e.after, needed, p);
        OneInFront(s, e.victim, later, needed, EvictUntil(e.after, needed, p), EvictUntil(s, needed, p));
        states := [s] + later;
      } else if p > 0 {
        states := EvictUntilGoesInTurn(s, needed, p - 1);
      }
    }
  }

  // Every entry examined is an evicted one or is paid for by lost heat.
  lemma {:induction false} EvictUntilCost(s: ShardState, needed: int, p: nat)
    requires Filed(s) && p < 3
    ensures var r := EvictUntil(s, needed, p);
            r.examined + Heat(r.after.entries) <= Heat(s.entries) + |r.evicted|
    decreases p, |s.buckets[p].list|
  {
    if s.size + needed > s.capacity {
      if s.buckets[p].list != [] {
        EvictFromTakesOut(s, p);
        SweepCost(s, p);
        EvictUntilCost(EvictFrom(s, p).after, needed, p);
      } else if p > 0 {
        EvictUntilCost(s, needed, p - 1);
      }
    }
  }

  lemma {:induction false} BytesOfAppend(ev: seq<Evicted>, e: Evicted)
    ensures BytesOf(ev + [e]) == BytesOf(ev) + e.entry.core.size
  {
    if ev == [] {
      assert BytesOf([e]) == e.entry.core.size + BytesOf([]);
    } else {
      assert (ev + [e])[1..] == ev[1..] + [e];
      BytesOfAppend(ev[1..], e);
    }
  }

  // ----- part way through an eviction run -----

  // The run `whole` has got to s, in bucket p, with ev evicted and `examined` spent.
  ghost predicate GotTo(whole: EvictionRun, needed: int, p: nat, ev: seq<Evicted>, examined: int, s: ShardState)
    requires Filed(s) && p < 3
  {
    var rest := EvictUntil(s, needed, p);
    && whole.evicted == ev + rest.evicted
    && whole.after == rest.after
    && whole.examined == examined + rest.examined
  }

  lemma GotToOneMore(whole: EvictionRun, needed: int, p: nat, ev: seq<Evicted>, examined: int, s: ShardState)
    requires Filed(s) && p < 3 && GotTo(whole, needed, p, ev, examined, s)
    requires s.size + needed > s.capacity && s.buckets[p].list != []
    ensures var e := EvictFrom(s, p);
            && Filed(e.after)
            && GotTo(whole, needed, p, ev + [e.victim], examined + e.examined, e.after)
  {
    EvictFromTakesOut(s, p);
    var e := EvictFrom(s, p);
    OneAfterAnother(ev, e.victim, EvictUntil(e.after, needed, p).evicted);
  }

  lemma OneAfterAnother(ev: seq<Evicted>, x: Evicted, rest: seq<Evicted>)
    ensures ev + ([x] + rest) == ev + [x] + rest
  {
  }

  lemma GotToNextBucket(whole: EvictionRun, needed: int, p: nat, ev: seq<Evicted>, examined: int, s: ShardState)
    requires Filed(s) && p < 3 && GotTo(whole, needed, p, ev, examined, s)
    requires s.size + needed > s.capacity && s.buckets[p].list == [] && p > 0
    ensures GotTo(whole, needed, p - 1, ev, examined, s)
  {
  }

  lemma GotToEnd(whole: EvictionRun, needed: int, p: nat, ev: seq<Evicted>, examined: int, s: ShardState)
    requires Filed(s) && p < 3 && GotTo(whole, needed, p, ev, examined, s)
    requires s.size + needed <= s.capacity || (p == 0 && s.buckets[p].list == [])
    ensures whole == EvictionRun(ev, s, examined)
  {
    assert EvictUntil(s, needed, p).evicted == [];
  }

  // What a sweep may rely on part way through a run.
  lemma SweepableAt(s: ShardState, p: nat, out: set<Key>)
    requires Agrees(s, out) && p < 3
    ensures forall k :: k in s.buckets[p].list ==> k in s.entries && s.entries[k].core.size <= s.size
  {
    BytesPositive(s.entries, out);
    assert forall k :: k in s.buckets[p].list ==> k in s.entries && (InItsBucket(s, k) <==> k !in out);
  }

  // A sweep takes a key out of a bucket, and its bytes, which the bucket accounts for.
  lemma EvictFromShrinks(s: ShardState, p: nat, out: set<Key>)
    requires Agrees(s, out) && p < 3 && s.buckets[p].list != []
    ensures var e := EvictFrom(s, p);
            && Agrees(e.after, out)
            && |e.after.buckets[p].list| < |s.buckets[p].list|
            && e.after.size == s.size - e.victim.entry.core.size
            && e.victim.entry.core.size <= s.size
            && e.after.capacity == s.capacity
  {
    EvictFromAgrees(s, p, out);
    SweepableAt(s, p, out);
  }

  // The run `whole` is under way in bucket p: `ev` is evicted, of `total` bytes at first.
  ghost predicate UnderWay(whole: EvictionRun, needed: int, out: set<Key>, p: nat, examined: int, total: int,
                           ev: seq<Evicted>, evictedSize: int, s: ShardState)
  {
    && Agrees(s, out) && p < 3
    && GotTo(whole, needed, p, ev, examined, s)
    && evictedSize == BytesOf(ev)
    && evictedSize + s.size == total
  }

  lemma UnderWayOneMore(whole: EvictionRun, needed: int, out: set<Key>, p: nat, examined: int, total: int,
                        ev: seq<Evicted>, evictedSize: int, s: ShardState,
                        e: Eviction, examined': int, evictedSize': int)
    requires UnderWay(whole, needed, out, p, examined, total, ev, evictedSize, s)
    requires s.size + needed > s.capacity && s.buckets[p].list != [] && e == EvictFrom(s, p)
    requires examined' == examined + e.examined && evictedSize' == evictedSize + e.victim.entry.core.size
    ensures UnderWay(whole, needed, out, p, examined', total, ev + [e.victim], evictedSize', e.after)
    ensures |e.after.buckets[p].list| < |s.buckets[p].list|
    ensures evictedSize' <= total
  {
    EvictFromShrinks(s, p, out);
    GotToOneMore(whole, needed, p, ev, examined, s);
    BytesOfAppend(ev, e.victim);
  }
}
