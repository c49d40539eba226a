/** Walks over a relation: the declarative side of every graph search in the model. */
module Walks {

  ghost predicate IsWalk<T(!new)>(edge: (T, T) -> bool, p: seq<T>) {
    && |p| > 0
    && forall i :: 0 <= i < |p| - 1 ==> edge(p[i], p[i + 1])
  }

  ghost predicate WalkFromTo<T(!new)>(edge: (T, T) -> bool, p: seq<T>, a: T, b: T) {
    IsWalk(edge, p) && p[0] == a && p[|p| - 1] == b
  }

  ghost predicate Reaches<T(!new)>(edge: (T, T) -> bool, a: T, b: T) {
    exists p :: WalkFromTo(edge, p, a, b)
  }

  lemma ReachesSelf<T(!new)>(edge: (T, T) -> bool, a: T)
    ensures Reaches(edge, a, a)
  {
    assert WalkFromTo(edge, [a], a, a);
  }

  lemma ReachesThen<T(!new)>(edge: (T, T) -> bool, a: T, b: T, c: T)
    requires Reaches(edge, a, b) && edge(b, c)
    ensures Reaches(edge, a, c)
  {
    var p :| WalkFromTo(edge, p, a, b);
    assert WalkFromTo(edge, p + [c], a, c);
  }

  lemma ReachesTransitive<T(!new)>(edge: (T, T) -> bool, a: T, b: T, c: T)
    requires Reaches(edge, a, b) && Reaches(edge, b, c)
    ensures Reaches(edge, a, c)
  {
    var p :| WalkFromTo(edge, p, a, b);
    var q :| WalkFromTo(edge, q, b, c);
    var r := p + q[1..];
    forall i | 0 <= i < |r| - 1
      ensures edge(r[i], r[i + 1])
    {
      if i < |p| - 1 {
        assert edge(p[i], p[i + 1]);
      } else {
        assert r[i] == q[i - |p| + 1];
        assert edge(q[i - |p| + 1], q[i - |p| + 2]);
      }
    }
    assert WalkFromTo(edge, r, a, c);
  }

  lemma WalkEndsWithEdge<T(!new)>(edge: (T, T) -> bool, p: seq<T>, a: T, b: T)
    requires WalkFromTo(edge, p, a, b) && |p| > 1
    ensures edge(p[|p| - 2], b)
  {
  }

  lemma SameEdgesSameReach<T(!new)>(e: (T, T) -> bool, f: (T, T) -> bool, a: T, b: T)
    requires forall x, y :: e(x, y) <==> f(x, y)
    ensures Reaches(e, a, b) <==> Reaches(f, a, b)
  {
    if Reaches(e, a, b) {
      var p :| WalkFromTo(e, p, a, b);
      assert WalkFromTo(f, p, a, b);
    }
    if Reaches(f, a, b) {
      var p :| WalkFromTo(f, p, a, b);
      assert WalkFromTo(e, p, a, b);
    }
  }

  /** A set closed under the relation keeps every walk that starts inside it. */
  lemma {:induction false} StaysInside<T(!new)>(edge: (T, T) -> bool, inside: iset<T>, p: seq<T>)
    requires IsWalk(edge, p) && p[0] in inside
    requires forall x, y :: x in inside && edge(x, y) ==> y in inside
    ensures forall i :: 0 <= i < |p| ==> p[i] in inside
  {
    if |p| > 1 {
      var q := p[..|p| - 1];
      StaysInside(edge, inside, q);
      assert q[|q| - 1] in inside;
      assert edge(p[|p| - 2], p[|p| - 1]);
    }
  }
}
