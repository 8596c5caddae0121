// Sums of weights over a finite set, and the few laws the proofs need.
module Sums {

  function WeightOf<K>(w: map<K, int>, k: K): int {
    if k in w then w[k] else 0
  }

  ghost function Sum<K>(s: set<K>, w: map<K, int>): int {
    if s == {} then 0
    else
      var k :| k in s;
      WeightOf(w, k) + Sum(s - {k}, w)
  }

  // The element that is split off first does not matter.
  lemma {:induction false} SumSplit<K>(s: set<K>, w: map<K, int>, k: K)
    requires k in s
    ensures Sum(s, w) == WeightOf(w, k) + Sum(s - {k}, w)
  {
    var j :| j in s && Sum(s, w) == WeightOf(w, j) + Sum(s - {j}, w);
    if j != k {
      SumSplit(s - {j}, w, k);
      SumSplit(s - {k}, w, j);
      assert s - {j} - {k} == s - {k} - {j};
    }
  }

  // The sum looks at the weights of the set only.
  lemma {:induction false} SumSame<K>(s: set<K>, w: map<K, int>, v: map<K, int>)
    requires forall k :: k in s ==> WeightOf(w, k) == WeightOf(v, k)
    ensures Sum(s, w) == Sum(s, v)
  {
    if s != {} {
      var k :| k in s;
      SumSplit(s, w, k);
      SumSplit(s, v, k);
      SumSame(s - {k}, w, v);
    }
  }

  lemma {:induction false} SumUnion<K>(s: set<K>, t: set<K>, w: map<K, int>)
    requires s !! t
    ensures Sum(s + t, w) == Sum(s, w) + Sum(t, w)
  {
    if s == {} {
      assert s + t == t;
    } else {
      var k :| k in s;
      SumSplit(s, w, k);
      SumSplit(s + t, w, k);
      assert s + t - {k} == (s - {k}) + t;
      SumUnion(s - {k}, t, w);
    }
  }

  lemma TimesSuccessor(a: int, n: int)
    ensures a * (n + 1) == a * n + a
  {
  }

  lemma {:induction false} SumNonNegative<K>(s: set<K>, w: map<K, int>)
    requires forall k :: k in s ==> 0 <= WeightOf(w, k)
    ensures 0 <= Sum(s, w)
  {
    if s != {} {
      var k :| k in s;
      SumSplit(s, w, k);
      SumNonNegative(s - {k}, w);
    }
  }

  // ----- counting -----

  // The size of a set, kept apart from the built-in one, which drags in much else about maps.
  ghost function Count<K>(s: set<K>): nat {
    if s == {} then 0
    else
      var k :| k in s;
      1 + Count(s - {k})
  }

  lemma {:induction false} CountIsSize<K>(s: set<K>)
    ensures Count(s) == |s|
  {
    if s != {} {
      var k :| k in s && Count(s) == 1 + Count(s - {k});
      CountIsSize(s - {k});
    }
  }

  lemma CountAdd<K>(s: set<K>, k: K)
    ensures Count(s + {k}) == Count(s) + if k in s then 0 else 1
  {
    CountIsSize(s);
    CountIsSize(s + {k});
    if k in s {
      assert s + {k} == s;
    }
  }

  lemma CountRemove<K>(s: set<K>, k: K)
    requires k in s
    ensures Count(s) == 1 + Count(s - {k})
  {
    CountIsSize(s);
    CountIsSize(s - {k});
  }

  lemma {:induction false} SumAtMost<K>(s: set<K>, w: map<K, int>, hi: int)
    requires forall k :: k in s ==> WeightOf(w, k) <= hi
    ensures Sum(s, w) <= hi * Count(s)
  {
    if s != {} {
      var k :| k in s;
      SumSplit(s, w, k);
      SumAtMost(s - {k}, w, hi);
      CountRemove(s, k);
      TimesSuccessor(hi, Count(s - {k}));
    }
  }
}
