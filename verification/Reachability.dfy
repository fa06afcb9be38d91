/** Walks through a finite directed graph given by its successor sets. */
module Reachability {

  type Graph<T> = map<T, set<T>>

  predicate Step<T(!new)>(g: Graph<T>, a: T, b: T) {
    a in g && b in g[a]
  }

  ghost predicate IsWalk<T(!new)>(g: Graph<T>, p: seq<T>, a: T, b: T) {
    && p != [] && p[0] == a && p[|p| - 1] == b
    && forall i :: 0 <= i < |p| - 1 ==> Step(g, p[i], p[i + 1])
  }

  /** Some walk, possibly of no steps, leads from `a` to `b`. */
  ghost predicate Reaches<T(!new)>(g: Graph<T>, a: T, b: T) {
    exists p :: IsWalk(g, p, a, b)
  }

  lemma ReachesSelf<T(!new)>(g: Graph<T>, a: T)
    ensures Reaches(g, a, a)
  {
    assert IsWalk(g, [a], a, a);
  }

  lemma StepReaches<T(!new)>(g: Graph<T>, a: T, b: T)
    requires Step(g, a, b)
    ensures Reaches(g, a, b)
  {
    assert IsWalk(g, [a, b], a, b);
  }

  lemma ReachesTransitive<T(!new)>(g: Graph<T>, a: T, b: T, c: T)
    requires Reaches(g, a, b) && Reaches(g, b, c)
    ensures Reaches(g, a, c)
  {
    var p :| IsWalk(g, p, a, b);
    var q :| IsWalk(g, q, b, c);
    var r := p + q[1..];
    forall i | 0 <= i < |r| - 1 ensures Step(g, r[i], r[i + 1]) {
      if i >= |p| - 1 {
        var j := i - (|p| - 1);
        assert r[i] == q[j] && r[i + 1] == q[j + 1];
      }
    }
    assert IsWalk(g, r, a, c);
  }

  lemma {:induction false} WalkStaysInside<T(!new)>(g: Graph<T>, inside: set<T>, p: seq<T>, a: T, b: T)
    requires IsWalk(g, p, a, b) && a in inside
    requires forall u, w :: u in inside && Step(g, u, w) ==> w in inside
    ensures b in inside
    decreases |p|
  {
    if |p| > 1 {
      var front := p[..|p| - 1];
      WalkStaysInside(g, inside, front, a, front[|front| - 1]);
      assert Step(g, p[|p| - 2], p[|p| - 2 + 1]);
    }
  }

  /** A set closed under steps holds whatever its members reach. */
  lemma ClosedUnderReaches<T(!new)>(g: Graph<T>, inside: set<T>, a: T, b: T)
    requires a in inside && Reaches(g, a, b)
    requires forall u, w :: u in inside && Step(g, u, w) ==> w in inside
    ensures b in inside
  {
    var p :| IsWalk(g, p, a, b);
    WalkStaysInside(g, inside, p, a, b);
  }

  /** No step lies on a cycle. */
  ghost predicate Acyclic<T(!new)>(g: Graph<T>) {
    forall a, b :: Step(g, a, b) ==> !Reaches(g, b, a)
  }
}
