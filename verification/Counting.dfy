/** Counting lemmas: ranges of numbers, subsets, injections and packed intervals. */
module Counting {

  function Range(lo: nat, hi: nat): (r: set<nat>)
    ensures forall x :: x in r <==> lo <= x < hi
    decreases hi
  {
    if lo >= hi then {} else Range(lo, hi - 1) + {hi - 1}
  }

  lemma {:induction false} RangeCount(lo: nat, hi: nat)
    requires lo <= hi
    ensures |Range(lo, hi)| == hi - lo
    decreases hi
  {
    if lo < hi {
      RangeCount(lo, hi - 1);
    }
  }

  lemma {:induction false} SubsetCount<T>(a: set<T>, b: set<T>)
    requires a <= b
    ensures |a| <= |b|
    decreases |a|
  {
    if a != {} {
      var x :| x in a;
      SubsetCount(a - {x}, b - {x});
    }
  }

  /** The pigeonhole principle: an injection into `b` needs at least as many places as pigeons. */
  lemma {:induction false} InjectionCount<S, T>(f: map<S, T>, b: set<T>)
    requires forall x <- f :: f[x] in b
    requires forall x, y :: x in f && y in f && f[x] == f[y] ==> x == y
    ensures |f.Keys| <= |b|
    decreases |f.Keys|
  {
    if f.Keys != {} {
      var x :| x in f.Keys;
      var rest := map y | y in f && y != x :: f[y];
      assert rest.Keys == f.Keys - {x};
      InjectionCount(rest, b - {f[x]});
    }
  }

  /** The numbers from `lo` up to but not including `hi`. */
  datatype Interval = Interval(lo: nat, hi: nat)

  predicate Apart(x: Interval, y: Interval) {
    x.hi <= y.lo || y.hi <= x.lo
  }

  predicate PairwiseApart(xs: seq<Interval>) {
    forall j, k :: 0 <= j < k < |xs| ==> Apart(xs[j], xs[k])
  }

  function Total(xs: seq<Interval>): int {
    if xs == [] then 0 else xs[0].hi - xs[0].lo + Total(xs[1..])
  }

  function Union(xs: seq<Interval>): (r: set<nat>)
    ensures forall x :: x in r <==> exists i <- xs :: i.lo <= x < i.hi
  {
    if xs == [] then {} else Range(xs[0].lo, xs[0].hi) + Union(xs[1..])
  }

  lemma {:induction false} UnionCount(xs: seq<Interval>)
    requires PairwiseApart(xs)
    requires forall x <- xs :: x.lo <= x.hi
    ensures |Union(xs)| == Total(xs)
  {
    if xs != [] {
      FirstApart(xs);
      UnionCount(xs[1..]);
      RangeCount(xs[0].lo, xs[0].hi);
    }
  }

  lemma FirstApart(xs: seq<Interval>)
    requires PairwiseApart(xs) && xs != []
    ensures PairwiseApart(xs[1..])
    ensures Range(xs[0].lo, xs[0].hi) !! Union(xs[1..])
  {
    forall j, k | 0 <= j < k < |xs[1..]| ensures Apart(xs[1..][j], xs[1..][k]) {
      assert Apart(xs[j + 1], xs[k + 1]);
    }
    forall x | x in Range(xs[0].lo, xs[0].hi) ensures x !in Union(xs[1..]) {
      forall i | i in xs[1..] ensures !(i.lo <= x < i.hi) {
        var k :| 0 <= k < |xs[1..]| && xs[1..][k] == i;
        assert Apart(xs[0], xs[k + 1]);
      }
    }
  }

  /** Disjoint intervals inside `[lo, hi)` fill at most `hi - lo` places. */
  lemma PackedCount(xs: seq<Interval>, lo: nat, hi: nat)
    requires PairwiseApart(xs) && lo <= hi
    requires forall x <- xs :: lo <= x.lo <= x.hi <= hi
    ensures Total(xs) <= hi - lo
  {
    UnionCount(xs);
    RangeCount(lo, hi);
    SubsetCount(Union(xs), Range(lo, hi));
  }
}
