// The size of a value with everything it owns: a walk over a graph that may share and cycle.
module DeepSize {
  import opened Sums

  // A counted pointer, known by the address of what it points to.
  datatype Pointer = ArcPointer(address: nat) | RcPointer(address: nat)

  // What a value owns on the heap, as far as the walk can see. Sizes are in bytes.
  datatype Owned =
    | Plain                                                      // no heap storage
    | Borrowed                                                   // a reference: not owned
    | Boxed(size: nat, inner: Owned)
    | Vector(capacity: nat, elementSize: nat, items: seq<Owned>)
    | Slice(items: seq<Owned>)                                   // also the fields of a struct
    | Shared(pointer: Pointer)

  // What a counted pointer leads to.
  datatype Cell = Cell(size: nat, content: Owned)

  type Heap = map<Pointer, Cell>

  // ----- the pointers of a value -----

  function Pointers(v: Owned): set<Pointer> {
    match v
    case Plain => {}
    case Borrowed => {}
    case Boxed(_, inner) => Pointers(inner)
    case Vector(_, _, items) => PointersOf(items)
    case Slice(items) => PointersOf(items)
    case Shared(p) => {p}
  }

  function PointersOf(items: seq<Owned>): set<Pointer> {
    if items == [] then {} else Pointers(items[0]) + PointersOf(items[1..])
  }

  // Counted pointers never dangle.
  ghost predicate Closed(h: Heap) {
    forall p :: p in h ==> Pointers(h[p].content) <= h.Keys
  }

  // ----- the walk, as a function -----

  datatype Walked = Walked(size: nat, visited: set<Pointer>)

  function Walk(v: Owned, h: Heap, visited: set<Pointer>): (r: Walked)
    requires Closed(h) && Pointers(v) <= h.Keys
    ensures visited <= r.visited
    decreases h.Keys - visited, v
  {
    match v
    case Plain => Walked(0, visited)
    case Borrowed => Walked(0, visited)
    case Boxed(size, inner) =>
      var r := Walk(inner, h, visited);
      Walked(size + r.size, r.visited)
    case Vector(capacity, elementSize, items) =>
      var r := WalkAll(items, h, visited);
      Walked(r.size + capacity * elementSize, r.visited)
    case Slice(items) => WalkAll(items, h, visited)
    case Shared(p) =>
      if p in visited then Walked(0, visited)
      else
        var r := Walk(h[p].content, h, visited + {p});
        Walked(h[p].size + r.size, r.visited)
  }

  function WalkAll(items: seq<Owned>, h: Heap, visited: set<Pointer>): (r: Walked)
    requires Closed(h) && PointersOf(items) <= h.Keys
    ensures visited <= r.visited
    decreases h.Keys - visited, items
  {
    if items == [] then Walked(0, visited)
    else
      var first := Walk(items[0], h, visited);
      var rest := WalkAll(items[1..], h, first.visited);
      Walked(first.size + rest.size, rest.visited)
  }

  // ----- what the walk visits and adds up -----

  // The bytes a value owns without those behind counted pointers.
  function OwnBytes(v: Owned): nat {
    match v
    case Plain => 0
    case Borrowed => 0
    case Boxed(size, inner) => size + OwnBytes(inner)
    case Vector(capacity, elementSize, items) => OwnBytesOf(items) + capacity * elementSize
    case Slice(items) => OwnBytesOf(items)
    case Shared(_) => 0
  }

  function OwnBytesOf(items: seq<Owned>): nat {
    if items == [] then 0 else OwnBytes(items[0]) + OwnBytesOf(items[1..])
  }

  // The bytes behind each counted pointer, without those behind further ones.
  function CellBytes(h: Heap): map<Pointer, int> {
    map p | p in h :: h[p].size + OwnBytes(h[p].content)
  }

  ghost predicate Reaches(h: Heap, from: set<Pointer>, p: Pointer, steps: nat)
    requires Closed(h) && from <= h.Keys
    decreases steps
  {
    p in from || (steps > 0 && exists q :: q in h && Reaches(h, from, q, steps - 1) && p in Pointers(h[q].content))
  }

  // Reachable from the counted pointers of a value through those of what they lead to.
  ghost predicate Reachable(h: Heap, from: set<Pointer>, p: Pointer)
    requires Closed(h) && from <= h.Keys
  {
    exists steps: nat :: Reaches(h, from, p, steps)
  }

  // What a walk from `visited` to r has done: all it came upon is new and reachable, what it
  // left open was open before, and each new pointer was paid for once.
  ghost predicate Accounts(h: Heap, from: set<Pointer>, ownBytes: nat, visited: set<Pointer>, r: Walked)
    requires Closed(h) && from <= h.Keys
  {
    && visited <= r.visited
    && from <= r.visited
    && r.visited - visited <= h.Keys
    && (forall p :: p in r.visited - visited ==> Reachable(h, from, p) && Pointers(h[p].content) <= r.visited)
    && r.size == ownBytes + Sum(r.visited - visited, CellBytes(h))
  }

  lemma ReachableFromMore(h: Heap, some: set<Pointer>, more: set<Pointer>, p: Pointer)
    requires Closed(h) && some <= more <= h.Keys && Reachable(h, some, p)
    ensures Reachable(h, more, p)
  {
    var steps: nat :| Reaches(h, some, p, steps);
    ReachesFromMore(h, some, more, p, steps);
  }

  lemma {:induction false} ReachesFromMore(h: Heap, some: set<Pointer>, more: set<Pointer>, p: Pointer, steps: nat)
    requires Closed(h) && some <= more <= h.Keys && Reaches(h, some, p, steps)
    ensures Reaches(h, more, p, steps)
    decreases steps
  {
    if p !in some {
      var q :| q in h && Reaches(h, some, q, steps - 1) && p in Pointers(h[q].content);
      ReachesFromMore(h, some, more, q, steps - 1);
    }
  }

  // What is reachable from behind a pointer is reachable from the pointer.
  lemma {:induction false} ReachesThrough(h: Heap, p: Pointer, q: Pointer, steps: nat)
    requires Closed(h) && p in h && Reaches(h, Pointers(h[p].content), q, steps)
    ensures Reaches(h, {p}, q, steps + 1)
    decreases steps
  {
    if q in Pointers(h[p].content) {
      assert Reaches(h, {p}, p, steps);
    } else {
      var m :| m in h && Reaches(h, Pointers(h[p].content), m, steps - 1) && q in Pointers(h[m].content);
      ReachesThrough(h, p, m, steps - 1);
    }
  }

  lemma {:induction false} WalkAccounts(v: Owned, h: Heap, visited: set<Pointer>)
    requires Closed(h) && Pointers(v) <= h.Keys
    ensures Accounts(h, Pointers(v), OwnBytes(v), visited, Walk(v, h, visited))
    decreases h.Keys - visited, v
  {
    match v
    case Plain =>
    case Borrowed =>
    case Boxed(size, inner) => WalkAccounts(inner, h, visited);
    case Vector(_, _, items) => WalkAllAccounts(items, h, visited);
    case Slice(items) => WalkAllAccounts(items, h, visited);
    case Shared(p) =>
      if p !in visited {
        WalkAccounts(h[p].content, h, visited + {p});
        SharedAccounts(p, h, visited);
      } else {
        assert visited - visited == {};
      }
  }

  lemma ReachableThrough(h: Heap, p: Pointer, q: Pointer)
    requires Closed(h) && p in h && (q == p || Reachable(h, Pointers(h[p].content), q))
    ensures Reachable(h, {p}, q)
  {
    if q == p {
      assert Reaches(h, {p}, p, 0);
    } else {
      var steps: nat :| Reaches(h, Pointers(h[p].content), q, steps);
      ReachesThrough(h, p, q, steps);
    }
  }

  lemma SharedAccounts(p: Pointer, h: Heap, visited: set<Pointer>)
    requires Closed(h) && p in h && p !in visited
    requires Accounts(h, Pointers(h[p].content), OwnBytes(h[p].content), visited + {p},
                      Walk(h[p].content, h, visited + {p}))
    ensures Accounts(h, {p}, 0, visited, Walk(Shared(p), h, visited))
  {
    var inner := Walk(h[p].content, h, visited + {p});
    var r := Walk(Shared(p), h, visited);
    SumSplit(r.visited - visited, CellBytes(h), p);
    assert r.visited - visited - {p} == inner.visited - (visited + {p});
    forall q | q in r.visited - visited
      ensures Reachable(h, {p}, q)
    {
      ReachableThrough(h, p, q);
    }
  }

  lemma {:induction false} WalkAllAccounts(items: seq<Owned>, h: Heap, visited: set<Pointer>)
    requires Closed(h) && PointersOf(items) <= h.Keys
    ensures Accounts(h, PointersOf(items), OwnBytesOf(items), visited, WalkAll(items, h, visited))
    decreases h.Keys - visited, items
  {
    if items == [] {
      assert visited - visited == {};
    } else {
      var first := Walk(items[0], h, visited);
      WalkAccounts(items[0], h, visited);
      WalkAllAccounts(items[1..], h, first.visited);
      InSequence(h, Pointers(items[0]), PointersOf(items[1..]), visited, first, WalkAll(items[1..], h, first.visited),
                 OwnBytes(items[0]), OwnBytesOf(items[1..]));
    }
  }

  lemma InSequence(h: Heap, from1: set<Pointer>, from2: set<Pointer>, visited: set<Pointer>,
                   first: Walked, rest: Walked, bytes1: nat, bytes2: nat)
    requires Closed(h) && from1 <= h.Keys && from2 <= h.Keys
    requires Accounts(h, from1, bytes1, visited, first)
    requires Accounts(h, from2, bytes2, first.visited, rest)
    ensures Accounts(h, from1 + from2, bytes1 + bytes2, visited, Walked(first.size + rest.size, rest.visited))
  {
    var new1, new2 := first.visited - visited, rest.visited - first.visited;
    assert rest.visited - visited == new1 + new2;
    SumUnion(new1, new2, CellBytes(h));
    forall p | p in rest.visited - visited
      ensures Reachable(h, from1 + from2, p) && Pointers(h[p].content) <= rest.visited
    {
      if p in new1 {
        ReachableFromMore(h, from1, from1 + from2, p);
      } else {
        ReachableFromMore(h, from2, from1 + from2, p);
      }
    }
  }

  lemma {:induction false} ClosedUnderReach(h: Heap, from: set<Pointer>, visited: set<Pointer>, p: Pointer, steps: nat)
    requires Closed(h) && from <= h.Keys && from <= visited
    requires forall q :: q in visited ==> q in h && Pointers(h[q].content) <= visited
    requires Reaches(h, from, p, steps)
    ensures p in visited
    decreases steps
  {
    if p !in from {
      var q :| q in h && Reaches(h, from, q, steps - 1) && p in Pointers(h[q].content);
      ClosedUnderReach(h, from, visited, q, steps - 1);
    }
  }

  // A walk from scratch visits exactly what is reachable, and counts each of it once.
  lemma WalkVisitsReachable(v: Owned, h: Heap)
    requires Closed(h) && Pointers(v) <= h.Keys
    ensures forall p :: p in Walk(v, h, {}).visited <==> Reachable(h, Pointers(v), p)
    ensures Walk(v, h, {}).visited <= h.Keys
    ensures Walk(v, h, {}).size == OwnBytes(v) + Sum(Walk(v, h, {}).visited, CellBytes(h))
  {
    WalkAccounts(v, h, {});
    var r := Walk(v, h, {});
    assert r.visited - {} == r.visited;
    forall p | Reachable(h, Pointers(v), p)
      ensures p in r.visited
    {
      var steps: nat :| Reaches(h, Pointers(v), p, steps);
      ClosedUnderReach(h, Pointers(v), r.visited, p, steps);
    }
  }

  // Two heaps whose cells own as much and lead on to the same, whatever is inside them.
  ghost predicate SameCells(h: Heap, g: Heap) {
    && h.Keys == g.Keys
    && forall p {:trigger h[p]} {:trigger g[p]} :: p in h ==>
         && Pointers(h[p].content) == Pointers(g[p].content)
         && h[p].size + OwnBytes(h[p].content) == g[p].size + OwnBytes(g[p].content)
  }

  lemma SameCellsAreSymmetric(h: Heap, g: Heap)
    requires SameCells(h, g)
    ensures SameCells(g, h) && CellBytes(h) == CellBytes(g)
  {
    assert forall p :: p in g ==> p in h && h[p].size >= 0;
  }

  lemma {:induction false} ReachesAlike(h: Heap, g: Heap, from: set<Pointer>, p: Pointer, steps: nat)
    requires Closed(h) && Closed(g) && SameCells(h, g) && from <= h.Keys
    requires Reaches(h, from, p, steps)
    ensures Reaches(g, from, p, steps)
    decreases steps
  {
    if p !in from {
      var q :| q in h && Reaches(h, from, q, steps - 1) && p in Pointers(h[q].content);
      ReachesAlike(h, g, from, q, steps - 1);
      assert q in g && p in Pointers(g[q].content);
    }
  }

  lemma VisitedInBoth(v: Owned, h: Heap, w: Owned, g: Heap)
    requires Closed(h) && Closed(g) && SameCells(h, g)
    requires Pointers(v) == Pointers(w) <= h.Keys
    ensures Walk(v, h, {}).visited <= Walk(w, g, {}).visited
  {
    WalkVisitsReachable(v, h);
    WalkVisitsReachable(w, g);
    forall p | p in Walk(v, h, {}).visited
      ensures p in Walk(w, g, {}).visited
    {
      var steps: nat :| Reaches(h, Pointers(v), p, steps);
      ReachesAlike(h, g, Pointers(v), p, steps);
    }
  }

  // The total depends on what is owned and on what that leads to, not on the order in which it is
  // come upon: not in the value, and not behind any counted pointer.
  lemma SameOwnershipSameSize(v: Owned, h: Heap, w: Owned, g: Heap)
    requires Closed(h) && Closed(g) && SameCells(h, g)
    requires Pointers(v) == Pointers(w) <= h.Keys && OwnBytes(v) == OwnBytes(w)
    ensures Walk(v, h, {}) == Walk(w, g, {})
  {
    SameCellsAreSymmetric(h, g);
    VisitedInBoth(v, h, w, g);
    VisitedInBoth(w, g, v, h);
    assert Walk(v, h, {}).visited == Walk(w, g, {}).visited;
    WalkVisitsReachable(v, h);
    WalkVisitsReachable(w, g);
  }

  // A vector of n boxes of m bytes each takes what its capacity takes, used or not, and n * m.
  lemma VectorOfBoxes(capacity: nat, elementSize: nat, items: seq<Owned>, m: nat, h: Heap, visited: set<Pointer>)
    requires Closed(h) && forall i :: 0 <= i < |items| ==> items[i] == Boxed(m, Plain)
    ensures PointersOf(items) == {}
    ensures Walk(Vector(capacity, elementSize, items), h, visited) ==
            Walked(capacity * elementSize + |items| * m, visited)
  {
    Boxes(items, m, h, visited);
  }

  lemma {:induction false} Boxes(items: seq<Owned>, m: nat, h: Heap, visited: set<Pointer>)
    requires Closed(h) && forall i :: 0 <= i < |items| ==> items[i] == Boxed(m, Plain)
    ensures PointersOf(items) == {} && WalkAll(items, h, visited) == Walked(|items| * m, visited)
    decreases |items|
  {
    if items != [] {
      Boxes(items[1..], m, h, visited);
      assert items[0] == Boxed(m, Plain) && Pointers(Plain) == {};
      assert Walk(Plain, h, visited) == Walked(0, visited);
      assert Walk(items[0], h, visited) == Walked(m, visited);
      assert |items| * m == m + |items[1..]| * m;
    }
  }

  // What two counted pointers share is counted once.
  lemma SharedIsCountedOnce(p: Pointer, h: Heap)
    requires Closed(h) && p in h
    ensures PointersOf([Shared(p), Shared(p)]) == {p}
    ensures Walk(Slice([Shared(p), Shared(p)]), h, {}) == Walk(Shared(p), h, {})
    ensures Walk(Shared(p), h, {}).size >= h[p].size
  {
    var two := [Shared(p), Shared(p)];
    assert two[1..] == [Shared(p)] && [Shared(p)][1..] == [];
    assert PointersOf([Shared(p)]) == {p};
    var first := Walk(Shared(p), h, {});
    assert WalkAll([Shared(p)], h, first.visited) == Walked(0, first.visited);
  }

  // ----- order -----

  // The same value up to the order of the items, at every depth.
  ghost predicate Rearranged(v: Owned, w: Owned) {
    match v
    case Plain => w == Plain
    case Borrowed => w == Borrowed
    case Boxed(size, inner) => w.Boxed? && w.size == size && Rearranged(inner, w.inner)
    case Vector(capacity, elementSize, items) =>
      w.Vector? && w.capacity == capacity && w.elementSize == elementSize && RearrangedAll(items, w.items)
    case Slice(items) => w.Slice? && RearrangedAll(items, w.items)
    case Shared(_) => w == v
  }

  ghost predicate RearrangedAll(a: seq<Owned>, b: seq<Owned>) {
    if a == [] then b == []
    else exists i: nat :: i < |b| && Rearranged(a[0], b[i]) && RearrangedAll(a[1..], Others(b, i))
  }

  function Others(items: seq<Owned>, i: nat): seq<Owned>
    requires i < |items|
  {
    items[..i] + items[i + 1..]
  }

  lemma {:induction false} ItemOutOfOrder(items: seq<Owned>, i: nat)
    requires i < |items|
    ensures PointersOf(items) == Pointers(items[i]) + PointersOf(Others(items, i))
    ensures OwnBytesOf(items) == OwnBytes(items[i]) + OwnBytesOf(Others(items, i))
  {
    var others := Others(items, i);
    if i == 0 {
      assert others == items[1..];
    } else {
      ItemOutOfOrder(items[1..], i - 1);
      assert others[0] == items[0];
      assert others[1..] == Others(items[1..], i - 1);
    }
  }

  lemma {:induction false} RearrangedOwnsTheSame(v: Owned, w: Owned)
    requires Rearranged(v, w)
    ensures Pointers(v) == Pointers(w) && OwnBytes(v) == OwnBytes(w)
    decreases v
  {
    match v
    case Plain =>
    case Borrowed =>
    case Boxed(_, inner) => RearrangedOwnsTheSame(inner, w.inner);
    case Vector(_, _, items) => RearrangedAllOwnTheSame(items, w.items);
    case Slice(items) => RearrangedAllOwnTheSame(items, w.items);
    case Shared(_) =>
  }

  lemma {:induction false} RearrangedAllOwnTheSame(a: seq<Owned>, b: seq<Owned>)
    requires RearrangedAll(a, b)
    ensures PointersOf(a) == PointersOf(b) && OwnBytesOf(a) == OwnBytesOf(b)
    decreases a
  {
    if a != [] {
      var i: nat :| i < |b| && Rearranged(a[0], b[i]) && RearrangedAll(a[1..], Others(b, i));
      RearrangedOwnsTheSame(a[0], b[i]);
      RearrangedAllOwnTheSame(a[1..], Others(b, i));
      ItemOutOfOrder(b, i);
    }
  }

  lemma {:induction false} RearrangedInNoWay(v: Owned)
    ensures Rearranged(v, v)
    decreases v
  {
    match v
    case Plain =>
    case Borrowed =>
    case Boxed(_, inner) => RearrangedInNoWay(inner);
    case Vector(_, _, items) => AllRearrangedInNoWay(items);
    case Slice(items) => AllRearrangedInNoWay(items);
    case Shared(_) =>
  }

  lemma {:induction false} AllRearrangedInNoWay(items: seq<Owned>)
    ensures RearrangedAll(items, items)
    decreases items
  {
    if items != [] {
      RearrangedInNoWay(items[0]);
      AllRearrangedInNoWay(items[1..]);
      assert Others(items, 0) == items[1..];
    }
  }

  // Every permutation of the items is such a rearrangement.
  lemma {:induction false} ShuffledIsRearranged(items: seq<Owned>, shuffled: seq<Owned>)
    requires multiset(items) == multiset(shuffled)
    ensures RearrangedAll(items, shuffled)
    decreases |items|
  {
    assert |items| == |multiset(items)| == |multiset(shuffled)| == |shuffled|;
    if items != [] {
      assert items == [items[0]] + items[1..];
      assert items[0] in multiset(shuffled);
      var i: nat :| i < |shuffled| && shuffled[i] == items[0];
      assert shuffled == shuffled[..i] + [shuffled[i]] + shuffled[i + 1..];
      assert multiset(Others(shuffled, i)) == multiset(shuffled) - multiset{items[0]};
      assert multiset(items[1..]) == multiset(items) - multiset{items[0]};
      RearrangedInNoWay(items[0]);
      ShuffledIsRearranged(items[1..], Others(shuffled, i));
    }
  }

  // Two heaps that differ in the order of the items in their cells.
  ghost predicate CellsRearranged(h: Heap, g: Heap) {
    && h.Keys == g.Keys
    && forall p {:trigger h[p]} {:trigger g[p]} :: p in h ==>
         h[p].size == g[p].size && Rearranged(h[p].content, g[p].content)
  }

  lemma RearrangedCellsAreTheSame(h: Heap, g: Heap)
    requires CellsRearranged(h, g)
    ensures SameCells(h, g)
  {
    forall p | p in h
      ensures Pointers(h[p].content) == Pointers(g[p].content) && OwnBytes(h[p].content) == OwnBytes(g[p].content)
    {
      RearrangedOwnsTheSame(h[p].content, g[p].content);
    }
  }

  // In particular items may be walked in any order, in the value and behind every counted pointer.
  lemma ItemsInAnyOrder(v: Owned, h: Heap, w: Owned, g: Heap)
    requires Closed(h) && Pointers(v) <= h.Keys
    requires Rearranged(v, w) && CellsRearranged(h, g)
    ensures Closed(g) && Pointers(w) <= g.Keys
    ensures Walk(v, h, {}) == Walk(w, g, {})
  {
    RearrangedOwnsTheSame(v, w);
    RearrangedCellsAreTheSame(h, g);
    assert forall p :: p in g ==> p in h && Pointers(g[p].content) == Pointers(h[p].content);
    SameOwnershipSameSize(v, h, w, g);
  }

  // The same for the children of one value alone.
  lemma ChildrenInAnyOrder(items: seq<Owned>, shuffled: seq<Owned>, h: Heap)
    requires Closed(h) && PointersOf(items) <= h.Keys
    requires multiset(items) == multiset(shuffled)
    ensures PointersOf(shuffled) <= h.Keys
    ensures Walk(Slice(items), h, {}) == Walk(Slice(shuffled), h, {})
  {
    ShuffledIsRearranged(items, shuffled);
    forall p | p in h
      ensures Rearranged(h[p].content, h[p].content)
    {
      RearrangedInNoWay(h[p].content);
    }
    ItemsInAnyOrder(Slice(items), h, Slice(shuffled), h);
  }

  // ----- the walk, as the program does it -----

  class Context {
    var arcs: set<nat>
    var rcs: set<nat>

    ghost function Visited(): set<Pointer>
      reads this
    {
      (set a | a in arcs :: ArcPointer(a)) + (set a | a in rcs :: RcPointer(a))
    }

    constructor ()
      ensures Visited() == {}
    {
      arcs := {};
      rcs := {};
    }

    method Add(p: Pointer)
      modifies this
      ensures Visited() == old(Visited()) + {p}
    {
      match p
      case ArcPointer(a) => arcs := arcs + {a};
      case RcPointer(a) => rcs := rcs + {a};
    }

    method Contains(p: Pointer) returns (b: bool)
      ensures b == (p in Visited())
    {
      match p
      case ArcPointer(a) => b := a in arcs;
      case RcPointer(a) => b := a in rcs;
    }
  }

  method DeepSizeOfChildren(v: Owned, h: Heap, context: Context) returns (size: nat)
    requires Closed(h) && Pointers(v) <= h.Keys
    modifies context
    ensures Walked(size, context.Visited()) == Walk(v, h, old(context.Visited()))
    decreases h.Keys - context.Visited(), v
  {
    match v
    case Plain => size := 0;
    case Borrowed => size := 0;
    case Boxed(boxed, inner) =>
      size := DeepSizeOfChildren(inner, h, context);
      size := boxed + size;
    case Vector(capacity, elementSize, items) =>
      size := DeepSizeOfItems(items, h, context);
      size := size + capacity * elementSize;
    case Slice(items) =>
      size := DeepSizeOfItems(items, h, context);
    case Shared(p) =>
      var seen := context.Contains(p);
      if seen {
        size := 0;
      } else {
        context.Add(p);
        size := DeepSizeOfChildren(h[p].content, h, context);
        size := h[p].size + size;
      }
  }

  method DeepSizeOfItems(items: seq<Owned>, h: Heap, context: Context) returns (size: nat)
    requires Closed(h) && PointersOf(items) <= h.Keys
    modifies context
    ensures Walked(size, context.Visited()) == WalkAll(items, h, old(context.Visited()))
    decreases h.Keys - context.Visited(), items
  {
    size := 0;
    ghost var whole := WalkAll(items, h, context.Visited());
    var i := 0;
    while i < |items|
      invariant 0 <= i <= |items|
      invariant PointersOf(items[i..]) <= h.Keys
      invariant old(context.Visited()) <= context.Visited()
      invariant whole.size == size + WalkAll(items[i..], h, context.Visited()).size
      invariant whole.visited == WalkAll(items[i..], h, context.Visited()).visited
    {
      assert items[i..][0] == items[i] && items[i..][1..] == items[i + 1..];
      var child := DeepSizeOfChildren(items[i], h, context);
      size := size + child;
      i := i + 1;
    }
  }

  // The value's own bytes, what it owns without counted pointers, and once each what is behind
  // the counted pointers that are reachable from it.
  method MeasureDeepSize(size: nat, v: Owned, h: Heap) returns (total: nat)
    requires Closed(h) && Pointers(v) <= h.Keys
    ensures var reachable := set p | p in h && Reachable(h, Pointers(v), p);
            total == size + OwnBytes(v) + Sum(reachable, CellBytes(h))
  {
    var context := new Context();
    total := DeepSizeOfChildren(v, h, context);
    total := size + total;
    WalkVisitsReachable(v, h);
    assert Walk(v, h, {}).visited == set p | p in h && Reachable(h, Pointers(v), p);
  }
}
