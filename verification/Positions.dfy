/** Ascending lists of positions. */
module Positions {
  import opened Basics

  ghost predicate StrictlyAscending(xs: seq<nat>) {
    forall j, k :: 0 <= j < k < |xs| ==> xs[j] < xs[k]
  }

  /** The positions in [from, bound) that satisfy `at`, in order. */
  function Where(at: nat -> bool, from: nat, bound: nat): (r: seq<nat>)
    requires from <= bound
    ensures forall i :: i in r <==> from <= i < bound && at(i)
    ensures forall k :: 0 <= k < |r| ==> from <= r[k] < bound && at(r[k])
    ensures StrictlyAscending(r)
    decreases bound - from
  {
    if from == bound then [] else if at(from) then [from] + Where(at, from + 1, bound) else Where(at, from + 1, bound)
  }

  function First(at: nat -> bool, from: nat, bound: nat): (r: Option<nat>)
    requires from <= bound
    ensures r.Some? ==> from <= r.value < bound && at(r.value) && forall j :: from <= j < r.value ==> !at(j)
    ensures r == None ==> forall j :: from <= j < bound ==> !at(j)
    decreases bound - from
  {
    if from == bound then None else if at(from) then Some(from) else First(at, from + 1, bound)
  }

  function Select(xs: seq<nat>, keep: nat -> bool): (r: seq<nat>)
    ensures forall x :: x in r <==> x in xs && keep(x)
    ensures forall k :: 0 <= k < |r| ==> r[k] in xs && keep(r[k])
    ensures StrictlyAscending(xs) ==> StrictlyAscending(r)
  {
    if xs == [] then []
    else
      assert xs == [xs[0]] + xs[1..];
      assert StrictlyAscending(xs) ==> StrictlyAscending(xs[1..]) && forall k :: 0 <= k < |xs[1..]| ==> xs[0] < xs[1..][k];
      if keep(xs[0]) then [xs[0]] + Select(xs[1..], keep) else Select(xs[1..], keep)
  }

  /** A strictly ascending list is determined by its elements. */
  lemma {:induction false} AscendingUnique(p: seq<nat>, q: seq<nat>)
    requires StrictlyAscending(p) && StrictlyAscending(q) && forall i :: i in p <==> i in q
    ensures p == q
  {
    assert p != [] ==> p[|p| - 1] in q;
    assert q != [] ==> q[|q| - 1] in p;
    if p != [] && q != [] {
      var a, b := p[|p| - 1], q[|q| - 1];
      LastIsGreatest(p);
      LastIsGreatest(q);
      var p', q' := p[..|p| - 1], q[..|q| - 1];
      assert forall i :: i in p' <==> i in p && i != a;
      assert forall i :: i in q' <==> i in q && i != b;
      AscendingUnique(p', q');
    }
  }

  lemma LastIsGreatest(p: seq<nat>)
    requires StrictlyAscending(p) && p != []
    ensures StrictlyAscending(p[..|p| - 1])
    ensures forall i :: i in p ==> i <= p[|p| - 1]
    ensures forall i :: i in p[..|p| - 1] <==> i in p && i != p[|p| - 1]
  {
  }

  /** A list with one element, told by its elements. */
  lemma SingletonIff(xs: seq<nat>, x: nat)
    requires StrictlyAscending(xs)
    ensures xs == [x] <==> forall y :: y in xs <==> y == x
  {
    if forall y :: y in xs <==> y == x {
      AscendingUnique(xs, [x]);
    }
  }
}
