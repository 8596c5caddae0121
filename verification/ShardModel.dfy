// What a shard holds and what its operations do to it, as functions on values.
// The classes in Shard.dfy are proved against these functions.
module ShardModel {
  import opened Types
  import opened Sums
  import opened Buckets

  datatype ShardState = ShardState(
    entries: map<Key, EntryData>,
    buckets: seq<Bucket>,   // indexed by Policy.Index()
    size: int,
    capacity: int)

  datatype Evicted = Evicted(key: Key, entry: EntryData)

  // Buckets are well formed and hold only keys whose entry has the bucket's policy.
  predicate Filed(s: ShardState) {
    && |s.buckets| == 3
    && (forall p :: 0 <= p < 3 ==> s.buckets[p].Valid())
    && (forall p, k {:trigger k in s.buckets[p].list} :: 0 <= p < 3 && k in s.buckets[p].list ==>
          k in s.entries && s.entries[k].core.policy.Index() == p)
  }

  function Cores(m: map<Key, EntryData>): map<Key, Core> {
    map k | k in m :: m[k].core
  }

  function Sizes(m: map<Key, EntryData>): map<Key, int> {
    map k | k in m :: m[k].core.size
  }

  function Heats(m: map<Key, EntryData>): map<Key, int> {
    map k | k in m :: m[k].Heat()
  }

  // The bytes of all entries but those of the keys in `out`.
  ghost function Bytes(m: map<Key, EntryData>, out: set<Key>): int {
    Sum(m.Keys - out, Sizes(m))
  }

  ghost function Heat(m: map<Key, EntryData>): int {
    Sum(m.Keys, Heats(m))
  }

  predicate InItsBucket(s: ShardState, k: Key)
    requires |s.buckets| == 3 && k in s.entries
  {
    k in s.buckets[s.entries[k].core.policy.Index()].list
  }

  // Every entry is in the bucket of its policy, except those of the keys in `out`.
  ghost predicate Indexed(s: ShardState, out: set<Key>)
    requires |s.buckets| == 3
  {
    forall k {:trigger InItsBucket(s, k)} :: k in s.entries ==> (InItsBucket(s, k) <==> k !in out)
  }

  // The three structures agree, except that the keys in `out` are in no bucket and not in
  // the byte count. `out` is empty between operations; inside an update it is the updated key.
  ghost predicate Agrees(s: ShardState, out: set<Key>) {
    Filed(s) && Indexed(s, out) && s.size == Bytes(s.entries, out)
  }

  function New(capacity: int): ShardState {
    ShardState(map[], [EMPTY_BUCKET, EMPTY_BUCKET, EMPTY_BUCKET], 0, capacity)
  }

  // ----- one sweep of one bucket -----

  // How many steps ahead of the hand, from step d on, the first cold entry is;
  // the length of the bucket if there is none.
  function FirstCold(entries: map<Key, EntryData>, b: Bucket, d: nat): (r: nat)
    requires b.hand < |b.list| && d <= |b.list|
    requires forall k :: k in b.list ==> k in entries
    ensures d <= r <= |b.list|
    decreases |b.list| - d
  {
    if d == |b.list| || entries[b.At(d)].Cold() then d else FirstCold(entries, b, d + 1)
  }

  lemma {:induction false} FirstColdIsFirst(entries: map<Key, EntryData>, b: Bucket, d: nat)
    requires b.hand < |b.list| && d <= |b.list|
    requires forall k :: k in b.list ==> k in entries
    ensures var r := FirstCold(entries, b, d);
            && (forall j :: d <= j < r ==> !entries[b.At(j)].Cold())
            && (r < |b.list| ==> entries[b.At(r)].Cold())
    decreases |b.list| - d
  {
    if d < |b.list| && !entries[b.At(d)].Cold() {
      FirstColdIsFirst(entries, b, d + 1);
    }
  }

  // The entries once those of the given keys are aged.
  function AgedIn(entries: map<Key, EntryData>, keys: set<Key>): map<Key, EntryData> {
    map k | k in entries :: if k in keys then entries[k].Aged() else entries[k]
  }

  datatype Eviction = Eviction(victim: Evicted, after: ShardState, examined: nat)

  function EvictFrom(s: ShardState, p: nat): Eviction
    requires Filed(s) && p < 3 && s.buckets[p].list != []
  {
    var b := s.buckets[p];
    var d := FirstCold(s.entries, b, 0);
    var aged := AgedIn(s.entries, b.Passed(d));
    var key := b.At(d);
    Eviction(
      Evicted(key, aged[key]),
      ShardState(aged - {key},
                 s.buckets[p := Bucket(b.list, b.Pos(d)).Removed(key)],
                 s.size - aged[key].core.size,
                 s.capacity),
      if d < |b.list| then d + 1 else d)
  }

  predicate SlotHasEntry(s: ShardState, p: nat, i: nat) {
    && p < 3 && |s.buckets| == 3 && i < |s.buckets[p].list|
    && s.buckets[p].list[i] in s.entries
  }

  datatype SlotEviction = SlotEviction(victim: Evicted, after: ShardState)

  // Puts the hand of bucket p on slot i and evicts the entry there.
  function EvictSlot(s: ShardState, p: nat, i: nat): SlotEviction
    requires SlotHasEntry(s, p, i)
  {
    var list := s.buckets[p].list;
    var key := list[i];
    SlotEviction(
      Evicted(key, s.entries[key]),
      ShardState(s.entries - {key},
                 s.buckets[p := Bucket(list, i).Removed(key)],
                 s.size - s.entries[key].core.size,
                 s.capacity))
  }

  // t is s without the key k of bucket p; other entries keep their fixed part.
  ghost predicate TakenOut(s: ShardState, p: nat, k: Key, t: ShardState)
    requires |s.buckets| == 3 && p < 3
  {
    && k in s.entries && k in s.buckets[p].list
    && t.entries.Keys == s.entries.Keys - {k}
    && (forall x :: x in t.entries ==> t.entries[x].core == s.entries[x].core)
    && |t.buckets| == 3
    && (forall q :: 0 <= q < 3 && q != p ==> t.buckets[q] == s.buckets[q])
    && t.buckets[p].Valid()
    && (forall x :: x in t.buckets[p].list <==> x in s.buckets[p].list && x != k)
    && |t.buckets[p].list| < |s.buckets[p].list|
    && t.size == s.size - s.entries[k].core.size
    && t.capacity == s.capacity
  }

  lemma TakenOutIsFiled(s: ShardState, p: nat, k: Key, t: ShardState)
    requires Filed(s) && p < 3 && TakenOut(s, p, k, t)
    ensures Filed(t)
  {
    forall q, x | 0 <= q < 3 && x in t.buckets[q].list
      ensures x in t.entries && t.entries[x].core.policy.Index() == q
    {
      assert x in s.buckets[q].list;
    }
  }

  lemma AgedInKeepsCores(entries: map<Key, EntryData>, keys: set<Key>)
    ensures AgedIn(entries, keys).Keys == entries.Keys
    ensures forall k :: k in entries ==> AgedIn(entries, keys)[k].core == entries[k].core
  {
  }

  lemma EvictFromTakesOut(s: ShardState, p: nat)
    requires Filed(s) && p < 3 && s.buckets[p].list != []
    ensures TakenOut(s, p, EvictFrom(s, p).victim.key, EvictFrom(s, p).after)
    ensures Filed(EvictFrom(s, p).after)
    ensures EvictFrom(s, p).victim.entry.core == s.entries[EvictFrom(s, p).victim.key].core
  {
    var b := s.buckets[p];
    var d := FirstCold(s.entries, b, 0);
    RemovedKeeps(Bucket(b.list, b.Pos(d)), b.At(d));
    AgedInKeepsCores(s.entries, b.Passed(d));
    TakenOutIsFiled(s, p, b.At(d), EvictFrom(s, p).after);
  }

  // ----- eviction until there is room -----

  datatype EvictionRun = EvictionRun(evicted: seq<Evicted>, after: ShardState, examined: nat)

  // Empties bucket p, then p - 1, and so on, one sweep at a time, and stops once `needed` fits.
  function EvictUntil(s: ShardState, needed: int, p: nat): EvictionRun
    requires Filed(s) && p < 3
    decreases p, |s.buckets[p].list|
  {
    if s.size + needed <= s.capacity then
      EvictionRun([], s, 0)
    else if s.buckets[p].list != [] then
      var e := EvictFrom(s, p);
      EvictFromTakesOut(s, p);
      var r := EvictUntil(e.after, needed, p);
      EvictionRun([e.victim] + r.evicted, r.after, e.examined + r.examined)
    else if p > 0 then
      EvictUntil(s, needed, p - 1)
    else
      EvictionRun([], s, 0)
  }

  // ----- the operations -----

  // First half of an update: the key leaves its bucket and the byte count, not the entries.
  function Detached(s: ShardState, k: Key): ShardState
    requires |s.buckets| == 3
  {
    if k in s.entries then
      var core := s.entries[k].core;
      var p := core.policy.Index();
      s.(buckets := s.buckets[p := s.buckets[p].Removed(k)], size := s.size - core.size)
    else s
  }

  lemma DetachedIsFiled(s: ShardState, k: Key)
    requires Filed(s)
    ensures Filed(Detached(s, k))
    ensures forall p, x :: 0 <= p < 3 ==>
              (x in Detached(s, k).buckets[p].list <==> x in s.buckets[p].list && x != k)
  {
    if k in s.entries {
      RemovedKeeps(s.buckets[s.entries[k].core.policy.Index()], k);
    }
  }

  // Second half of an insert: the key enters the entries, its bucket and the byte count.
  function Attached(s: ShardState, k: Key, e: EntryData): ShardState
    requires |s.buckets| == 3
  {
    var p := e.core.policy.Index();
    s.(entries := s.entries[k := e],
       buckets := s.buckets[p := s.buckets[p].Inserted(k)],
       size := s.size + e.core.size)
  }

  datatype InsertResult = InsertResult(
    replaced: Option<EntryData>, evicted: seq<Evicted>, after: ShardState, examined: nat)

  // The evictions an insert of k asks for.
  function MakeRoom(s: ShardState, k: Key, e: EntryData): EvictionRun
    requires Filed(s)
  {
    DetachedIsFiled(s, k);
    EvictUntil(Detached(s, k), e.core.size, 2)
  }

  lemma {:induction false} EvictUntilIsFiled(s: ShardState, needed: int, p: nat)
    requires Filed(s) && p < 3
    ensures Filed(EvictUntil(s, needed, p).after)
    ensures EvictUntil(s, needed, p).after.capacity == s.capacity
    ensures forall k :: k in EvictUntil(s, needed, p).after.entries ==> k in s.entries
    decreases p, |s.buckets[p].list|
  {
    if s.size + needed > s.capacity {
      if s.buckets[p].list != [] {
        EvictFromTakesOut(s, p);
        EvictUntilIsFiled(EvictFrom(s, p).after, needed, p);
      } else if p > 0 {
        EvictUntilIsFiled(s, needed, p - 1);
      }
    }
  }

  function Insert(s: ShardState, k: Key, e: EntryData): InsertResult
    requires Filed(s)
  {
    var room := MakeRoom(s, k, e);
    DetachedIsFiled(s, k);
    EvictUntilIsFiled(Detached(s, k), e.core.size, 2);
    InsertResult(if k in room.after.entries then Some(room.after.entries[k]) else None,
                 room.evicted,
                 Attached(room.after, k, e),
                 room.examined)
  }

  function Remove(s: ShardState, k: Key): ShardState
    requires |s.buckets| == 3
  {
    var d := Detached(s, k);
    d.(entries := s.entries - {k})
  }

  function Touch(s: ShardState, k: Key): ShardState {
    if k in s.entries then s.(entries := s.entries[k := s.entries[k].Touched()]) else s
  }

  function Drained(s: ShardState): ShardState {
    New(s.capacity)
  }
}
