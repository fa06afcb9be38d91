/** List comprehensions: what `f` makes of each element, or of those it makes something of. */
module Lists {
  import opened Wrappers

  function FilterMap<S, T>(xs: seq<S>, f: S -> Option<T>): seq<T> {
    if xs == [] then []
    else FilterMap(xs[..|xs| - 1], f) + Listed(f(xs[|xs| - 1]))
  }

  function Each<S, T>(xs: seq<S>, f: S -> T): (r: seq<T>)
    ensures |r| == |xs|
    ensures forall k | 0 <= k < |r| :: r[k] == f(xs[k])
  {
    if xs == [] then [] else Each(xs[..|xs| - 1], f) + [f(xs[|xs| - 1])]
  }

  lemma Associate<T>(a: seq<T>, b: seq<T>, c: seq<T>)
    ensures (a + b) + c == a + (b + c)
  {
  }

  function Listed<T>(x: Option<T>): seq<T> {
    if x.Some? then [x.value] else []
  }

  lemma {:induction false} FilterMapMember<S, T>(xs: seq<S>, f: S -> Option<T>, y: T)
    ensures y in FilterMap(xs, f) <==> exists x <- xs :: f(x) == Some(y)
  {
    if xs != [] {
      var front, last := xs[..|xs| - 1], xs[|xs| - 1];
      FilterMapMember(front, f, y);
      if x :| x in xs && f(x) == Some(y) {
        assert x in front || x == last;
      }
      if x :| x in front && f(x) == Some(y) {
        assert x in xs;
      }
    }
  }

  lemma FilterMapStep<S, T>(xs: seq<S>, k: nat, f: S -> Option<T>)
    requires k < |xs|
    ensures FilterMap(xs[..k + 1], f) == FilterMap(xs[..k], f) + Listed(f(xs[k]))
  {
    assert xs[..k + 1][..k] == xs[..k];
  }

  lemma {:induction false} FilterMapEmpty<S, T>(xs: seq<S>, f: S -> Option<T>)
    ensures FilterMap(xs, f) == [] <==> forall x <- xs :: f(x).None?
  {
    if xs != [] {
      FilterMapEmpty(xs[..|xs| - 1], f);
      assert forall x :: x in xs <==> x in xs[..|xs| - 1] || x == xs[|xs| - 1];
    }
  }
}
