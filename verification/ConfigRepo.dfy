/** The configuration repository: a commit graph whose branches move by compare-and-swap. */
module ConfigRepo {
  import opened Basics
  import opened ConfigTree
  import opened Walks

  type CommitId = nat
  type Branch = string

  datatype Commit = Commit(tree: Tree, parents: seq<CommitId>)
  type Graph = seq<Commit>

  const MAIN: Branch := "main"

  ghost predicate WellFormed(g: Graph) {
    forall c :: 0 <= c < |g| ==> NoShadow(g[c].tree.Keys) && forall k :: 0 <= k < |g[c].parents| ==> g[c].parents[k] < c
  }

  /** `merge-base --is-ancestor`. */
  predicate IsAncestor(g: Graph, a: CommitId, d: CommitId)
    decreases d
  {
    d < |g| && (a == d || exists k :: 0 <= k < |g[d].parents| && g[d].parents[k] < d && IsAncestor(g, a, g[d].parents[k]))
  }

  ghost function Parents(g: Graph): (CommitId, CommitId) -> bool {
    (d: CommitId, a: CommitId) => d < |g| && a in g[d].parents
  }

  /** An ancestor is what following parents leads to. */
  lemma {:induction false} AncestorIff(g: Graph, a: CommitId, d: CommitId)
    requires WellFormed(g) && d < |g|
    ensures IsAncestor(g, a, d) <==> Reaches(Parents(g), d, a)
  {
    if IsAncestor(g, a, d) { AncestorIsReached(g, a, d); }
    if Reaches(Parents(g), d, a) {
      var p :| WalkFromTo(Parents(g), p, d, a);
      ReachedIsAncestor(g, p);
    }
  }

  lemma {:induction false} AncestorIsReached(g: Graph, a: CommitId, d: CommitId)
    requires IsAncestor(g, a, d)
    ensures Reaches(Parents(g), d, a)
    decreases d
  {
    ReachesSelf(Parents(g), d);
    if a != d {
      var k :| 0 <= k < |g[d].parents| && g[d].parents[k] < d && IsAncestor(g, a, g[d].parents[k]);
      var parent := g[d].parents[k];
      AncestorIsReached(g, a, parent);
      assert Parents(g)(d, parent);
      ReachesThen(Parents(g), d, d, parent);
      ReachesTransitive(Parents(g), d, parent, a);
    }
  }

  lemma {:induction false} ReachedIsAncestor(g: Graph, p: seq<CommitId>)
    requires WellFormed(g) && IsWalk(Parents(g), p) && p[0] < |g|
    ensures IsAncestor(g, p[|p| - 1], p[0])
    decreases |p|
  {
    if |p| > 1 {
      assert Parents(g)(p[0], p[1]);
      var k :| 0 <= k < |g[p[0]].parents| && g[p[0]].parents[k] == p[1];
      forall i | 0 <= i < |p[1..]| - 1 ensures Parents(g)(p[1..][i], p[1..][i + 1]) {
        assert Parents(g)(p[i + 1], p[i + 2]);
      }
      ReachedIsAncestor(g, p[1..]);
    }
  }

  lemma {:induction false} AncestorTransitive(g: Graph, a: CommitId, b: CommitId, c: CommitId)
    requires IsAncestor(g, a, b) && IsAncestor(g, b, c)
    ensures IsAncestor(g, a, c)
    decreases c
  {
    if b != c {
      var k :| 0 <= k < |g[c].parents| && g[c].parents[k] < c && IsAncestor(g, b, g[c].parents[k]);
      AncestorTransitive(g, a, b, g[c].parents[k]);
    }
  }

  /** Committing never changes what came before. */
  lemma {:induction false} AncestorStable(g: Graph, h: Graph, a: CommitId, d: CommitId)
    requires g <= h && IsAncestor(g, a, d)
    ensures IsAncestor(h, a, d)
    decreases d
  {
    if a != d {
      var k :| 0 <= k < |g[d].parents| && g[d].parents[k] < d && IsAncestor(g, a, g[d].parents[k]);
      AncestorStable(g, h, a, g[d].parents[k]);
    }
  }

  lemma ParentIsAncestor(g: Graph, d: CommitId, k: nat)
    requires WellFormed(g) && d < |g| && k < |g[d].parents|
    ensures IsAncestor(g, g[d].parents[k], d)
  {
    assert IsAncestor(g, g[d].parents[k], g[d].parents[k]);
  }

  function Listed(parent: Option<CommitId>): seq<CommitId> {
    if parent.Some? then [parent.value] else []
  }

  datatype Merged = MergedAt(commit: CommitId) | Conflict

  class Repo {
    var graph: Graph
    var refs: map<Branch, CommitId>

    ghost predicate Valid()
      reads this
    {
      WellFormed(graph) && forall b :: b in refs ==> refs[b] < |graph|
    }

    constructor (initial: Tree)
      requires NoShadow(initial.Keys)
      ensures Valid() && graph == [Commit(initial, [])] && refs == map[MAIN := 0]
    {
      graph := [Commit(initial, [])];
      refs := map[MAIN := 0];
    }

    /** The commit a new commit on `branch` builds on. */
    function ParentFor(branch: Branch, base: Option<CommitId>): Option<CommitId>
      reads this
    {
      if branch in refs then Some(refs[branch]) else if base.Some? then base else if MAIN in refs then Some(refs[MAIN]) else None
    }

    function ParentTree(branch: Branch, base: Option<CommitId>): Tree
      reads this
      requires Valid() && (base.Some? ==> base.value < |graph|)
    {
      if ParentFor(branch, base).Some? then graph[ParentFor(branch, base).value].tree else map[]
    }

    /** Commit `changes` on a branch, creating it at `base` (or main) when it does not exist. */
    method CommitChanges(branch: Branch, base: Option<CommitId>, changes: seq<Change>) returns (r: Option<CommitId>)
      requires Valid() && (base.Some? ==> base.value < |graph|)
      modifies this
      ensures Valid()
      ensures r == None <==> BuildTree(old(ParentTree(branch, base)), changes) == None
      ensures r == None ==> graph == old(graph) && refs == old(refs)
      ensures r.Some? ==>
        && r.value == |old(graph)| == |graph| - 1 && refs == old(refs)[branch := r.value]
        && graph == old(graph) + [Commit(BuildTree(old(ParentTree(branch, base)), changes).value, Listed(old(ParentFor(branch, base))))]
        && graph[r.value].parents == (if branch in old(refs) then [old(refs)[branch]] else if base.Some? then [base.value]
                                      else if MAIN in old(refs) then [old(refs)[MAIN]] else [])
        && Some(graph[r.value].tree) ==
           BuildTree(if graph[r.value].parents == [] then map[] else old(graph)[graph[r.value].parents[0]].tree, changes)
        && (old(ParentFor(branch, base)).Some? ==> IsAncestor(graph, old(ParentFor(branch, base)).value, r.value))
    {
      var parent := ParentFor(branch, base);
      var tree := BuildIndex(ParentTree(branch, base), changes);
      if tree == None { return None; }
      BuildKeepsTreesWellFormed(ParentTree(branch, base), changes);
      graph := graph + [Commit(tree.value, Listed(parent))];
      refs := refs[branch := |graph| - 1];
      if parent.Some? { ParentIsAncestor(graph, |graph| - 1, 0); }
      return Some(|graph| - 1);
    }

    /** Commit a tree git made, on top of main. */
    method CommitTree(tree: Tree) returns (c: CommitId)
      requires Valid() && MAIN in refs && NoShadow(tree.Keys)
      modifies this
      ensures Valid() && c == |old(graph)|
      ensures graph == old(graph) + [Commit(tree, [old(refs[MAIN])])] && refs == old(refs)[MAIN := c]
    {
      c := |graph|;
      graph := graph + [Commit(tree, [refs[MAIN]])];
      refs := refs[MAIN := c];
    }

    /** Refused for main; a branch that does not exist is no error. */
    method DeleteBranch(branch: Branch) returns (ok: bool)
      requires Valid()
      modifies this`refs
      ensures Valid() && ok == (branch != MAIN)
      ensures refs == if ok then old(refs) - {branch} else old(refs)
    {
      if branch == MAIN { return false; }
      refs := refs - {branch};
      return true;
    }

    /** Merge a branch into main; `threeWay` is whatever tree git's three-way merge yields, None on conflict. */
    method Merge(branch: Branch, threeWay: Option<Tree>) returns (r: Merged)
      requires Valid() && branch in refs && MAIN in refs
      requires threeWay.Some? ==> NoShadow(threeWay.value.Keys)
      modifies this
      ensures Valid() && old(graph) <= graph
      ensures IsAncestor(old(graph), old(refs[branch]), old(refs[MAIN])) ==>
        r == MergedAt(old(refs[MAIN])) && graph == old(graph) && refs == old(refs)
      ensures !IsAncestor(old(graph), old(refs[branch]), old(refs[MAIN])) && IsAncestor(old(graph), old(refs[MAIN]), old(refs[branch])) ==>
        r == MergedAt(old(refs[branch])) && graph == old(graph) && refs == old(refs)[MAIN := old(refs[branch])]
      ensures !IsAncestor(old(graph), old(refs[branch]), old(refs[MAIN])) && !IsAncestor(old(graph), old(refs[MAIN]), old(refs[branch])) ==>
        if threeWay == None then r == Conflict && graph == old(graph) && refs == old(refs)
        else
          && r == MergedAt(|old(graph)|) && refs == old(refs)[MAIN := |old(graph)|]
          && graph == old(graph) + [Commit(threeWay.value, [old(refs[MAIN]), old(refs[branch])])]
      ensures r.MergedAt? ==> IsAncestor(graph, old(refs[MAIN]), r.commit) && IsAncestor(graph, old(refs[branch]), r.commit)
    {
      var head, target := refs[branch], refs[MAIN];
      if head == target || IsAncestor(graph, head, target) {
        return MergedAt(target);
      }
      if IsAncestor(graph, target, head) {
        refs := refs[MAIN := head];
        return MergedAt(head);
      }
      if threeWay == None { return Conflict; }
      graph := graph + [Commit(threeWay.value, [target, head])];
      ParentIsAncestor(graph, |graph| - 1, 0);
      ParentIsAncestor(graph, |graph| - 1, 1);
      refs := refs[MAIN := |graph| - 1];
      return MergedAt(|graph| - 1);
    }
  }
}
