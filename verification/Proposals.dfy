/** Propose-review-commit: every write holds the service's write lock, so each method is one atomic step. */
module Proposals {
  import opened Basics
  import opened ConfigTree
  import opened ConfigRepo

  type ProposalId = string

  datatype Status = Draft | Open | Merged | Discarded
  datatype Row = Row(base: CommitId, head: CommitId, status: Status, merged: Option<CommitId>)

  predicate Live(s: Status) {
    s == Draft || s == Open
  }

  function BranchOf(id: ProposalId): Branch {
    "proposals/" + id
  }

  lemma BranchesDistinct(a: ProposalId, b: ProposalId)
    ensures BranchOf(a) == BranchOf(b) ==> a == b
    ensures BranchOf(a) != MAIN
  {
    assert BranchOf(a)[10..] == a && BranchOf(b)[10..] == b;
    assert BranchOf(a)[0] == 'p';
  }

  /** The validator and the index renderer, as functions of a tree. */
  datatype Rules = Rules(
    strict: Tree -> bool,
    workInProgress: Tree -> bool,
    /** A definition would vanish without an explicit delete, or is deleted while referenced. */
    vanishes: (Tree, seq<Change>) -> bool,
    index: Tree -> string)

  /** Validation and the rendering of the index skip INDEX.md itself. */
  function Body(t: Tree): Tree {
    t - {INDEX}
  }

  predicate Strict(rules: Rules, t: Tree) {
    rules.strict(Body(t))
  }

  function Index(rules: Rules, t: Tree): string {
    rules.index(Body(t))
  }

  function WithIndex(t: Tree, content: string): (r: Tree)
    ensures Body(r) == Body(t)
  {
    t[INDEX := content]
  }

  predicate OverlayOk(rules: Rules, base: Tree, changes: seq<Change>, nonMain: bool) {
    var t := Overlay(base, changes);
    (if nonMain then rules.workInProgress(Body(t)) else Strict(rules, t)) && !rules.vanishes(base, changes)
  }

  lemma RulesSkipIndex(rules: Rules, t: Tree)
    ensures Strict(rules, t) <==> rules.strict(t - {INDEX})
    ensures Index(rules, t) == rules.index(t - {INDEX})
  {
  }

  /** What validation asks of the overlay, INDEX.md apart: all of it on main, less on a branch, and never a vanished definition. */
  lemma ValidationMeans(rules: Rules, base: Tree, changes: seq<Change>)
    ensures OverlayOk(rules, base, changes, true) <==>
            rules.workInProgress(Overlay(base, changes) - {INDEX}) && !rules.vanishes(base, changes)
    ensures OverlayOk(rules, base, changes, false) <==>
            rules.strict(Overlay(base, changes) - {INDEX}) && !rules.vanishes(base, changes)
  {
  }

  /** The INDEX.md change for a tree, none when the file is already current. */
  function IndexChange(rules: Rules, t: Tree): seq<Change> {
    if INDEX in t && t[INDEX] == Index(rules, t) then [] else [Change(INDEX, Some(Index(rules, t)))]
  }

  // ---- Snapshots at the release of the write lock --------------------------------------------

  datatype Snapshot = Snapshot(graph: Graph, refs: map<Branch, CommitId>, rows: map<ProposalId, Row>)

  ghost predicate Consistent(s: Snapshot) {
    && WellFormed(s.graph)
    && (forall b :: b in s.refs ==> s.refs[b] < |s.graph|)
    && MAIN in s.refs
    && (forall b :: b in s.refs ==> b == MAIN || exists id :: id in s.rows && b == BranchOf(id))
    && (forall id :: id in s.rows ==> s.rows[id].base < |s.graph| && s.rows[id].head < |s.graph|)
    && (forall id :: id in s.rows && Live(s.rows[id].status) ==> BranchOf(id) in s.refs && s.refs[BranchOf(id)] == s.rows[id].head)
  }

  function MainTree(s: Snapshot): Tree
    requires MAIN in s.refs && s.refs[MAIN] < |s.graph|
  {
    s.graph[s.refs[MAIN]].tree
  }

  ghost predicate RowStep(r: Row, r': Row) {
    && r'.base == r.base
    && (r'.status == r.status || (r.status == Draft && r'.status == Open) || (Live(r.status) && r'.status == Discarded) || (r.status == Open && r'.status == Merged))
    && (!Live(r.status) ==> r' == r)
    && (r'.status != r.status ==> r'.head == r.head)
  }

  ghost predicate Step(s: Snapshot, t: Snapshot)
    requires Consistent(s) && Consistent(t)
  {
    && s.graph <= t.graph
    && IsAncestor(t.graph, s.refs[MAIN], t.refs[MAIN])
    && s.rows.Keys <= t.rows.Keys
    && forall id :: id in s.rows ==> RowStep(s.rows[id], t.rows[id])
  }

  function Rank(s: Status): nat {
    match s case Draft => 0 case Open => 1 case Merged => 2 case Discarded => 2
  }

  /** What a later moment of a run owes to an earlier one. */
  ghost predicate Later(s: Snapshot, t: Snapshot)
    requires Consistent(s) && Consistent(t)
  {
    && s.graph <= t.graph && IsAncestor(t.graph, s.refs[MAIN], t.refs[MAIN])
    && forall id :: id in s.rows ==> id in t.rows && LaterRow(s.rows[id], t.rows[id])
  }

  ghost predicate LaterRow(r: Row, r': Row) {
    r'.base == r.base && Rank(r.status) <= Rank(r'.status) && (!Live(r.status) ==> r' == r)
  }

  lemma LaterStep(s: Snapshot, t: Snapshot, u: Snapshot)
    requires Consistent(s) && Consistent(t) && Consistent(u) && Later(s, t) && Step(t, u)
    ensures Later(s, u)
  {
    AncestorStable(t.graph, u.graph, s.refs[MAIN], t.refs[MAIN]);
    AncestorTransitive(u.graph, s.refs[MAIN], t.refs[MAIN], u.refs[MAIN]);
    forall id | id in s.rows ensures id in u.rows && LaterRow(s.rows[id], u.rows[id]) {
      assert LaterRow(s.rows[id], t.rows[id]) && RowStep(t.rows[id], u.rows[id]);
    }
  }

  // ---- What each operation does to a snapshot ------------------------------------------------

  /**
   * `threeWay` is whatever git's three-way merge yields, `reverted` the tree it makes of a revert, if any;
   * `branchKept`: deleting a merged branch failed, which is only logged.
   */
  datatype Operation =
    | DirectCommit(changes: seq<Change>)
    | Proposing(id: ProposalId, base: Option<CommitId>, changes: seq<Change>, draft: bool)
    | Amending(id: ProposalId, changes: seq<Change>)
    | Submitting(id: ProposalId)
    | Discarding(id: ProposalId)
    | Merging(id: ProposalId, threeWay: Option<Tree>, branchKept: bool)
    | Reverting(reverted: Option<Tree>)

  /** New proposal ids are freshly minted, and git only makes well-formed trees. */
  ghost predicate Allowed(s: Snapshot, op: Operation) {
    match op
    case Proposing(id, base, _, _) => id !in s.rows && (base.Some? ==> base.value < |s.graph|)
    case Merging(_, threeWay, _) => threeWay.Some? ==> NoShadow(threeWay.value.Keys)
    case Reverting(reverted) => reverted.Some? ==> NoShadow(reverted.value.Keys)
    case _ => true
  }

  ghost function Extended(s: Snapshot, branch: Branch, tree: Tree, parents: seq<CommitId>): Snapshot {
    s.(graph := s.graph + [Commit(tree, parents)], refs := s.refs[branch := |s.graph|])
  }

  /** A commit of `changes` over `from`, or nothing when git refuses. */
  ghost function TryCommit(s: Snapshot, branch: Branch, from: CommitId, changes: seq<Change>): Snapshot
    requires from < |s.graph|
  {
    match BuildTree(s.graph[from].tree, changes)
    case None => s
    case Some(tree) => Extended(s, branch, tree, [from])
  }

  function WithIndexChange(rules: Rules, t: Tree, changes: seq<Change>): seq<Change> {
    changes + IndexChange(rules, Overlay(t, changes))
  }

  ghost function DirectResult(rules: Rules, s: Snapshot, changes: seq<Change>): Snapshot
    requires Consistent(s)
  {
    var t := MainTree(s);
    var all := WithIndexChange(rules, t, changes);
    if !OverlayOk(rules, t, changes, false) || all == [] then s else TryCommit(s, MAIN, s.refs[MAIN], all)
  }

  ghost function ProposeResult(rules: Rules, s: Snapshot, id: ProposalId, base: Option<CommitId>, changes: seq<Change>, draft: bool): Snapshot
    requires Consistent(s) && (base.Some? ==> base.value < |s.graph|)
  {
    var from := if base.Some? then base.value else s.refs[MAIN];
    var t := s.graph[from].tree;
    if !OverlayOk(rules, t, changes, true) || changes == [] || BuildTree(t, changes) == None then s
    else TryCommit(s, BranchOf(id), from, changes).(rows := s.rows[id := Row(from, |s.graph|, if draft then Draft else Open, None)])
  }

  ghost function AmendResult(rules: Rules, s: Snapshot, id: ProposalId, changes: seq<Change>): Snapshot
    requires Consistent(s)
  {
    if id !in s.rows || !Live(s.rows[id].status) then s
    else
      var head := s.rows[id].head;
      var t := s.graph[head].tree;
      if !OverlayOk(rules, t, changes, true) || BuildTree(t, changes) == None then s
      else TryCommit(s, BranchOf(id), head, changes).(rows := s.rows[id := s.rows[id].(head := |s.graph|)])
  }

  ghost function SubmitResult(s: Snapshot, id: ProposalId): Snapshot {
    if id in s.rows && s.rows[id].status == Draft then s.(rows := s.rows[id := s.rows[id].(status := Open)]) else s
  }

  ghost function DiscardResult(s: Snapshot, id: ProposalId): Snapshot {
    if id in s.rows && Live(s.rows[id].status)
    then s.(rows := s.rows[id := s.rows[id].(status := Discarded)], refs := s.refs - {BranchOf(id)})
    else s
  }

  /** Git's merge of a branch into main; None for a conflict. */
  ghost function MergedMain(s: Snapshot, branch: Branch, threeWay: Option<Tree>): Option<Snapshot>
    requires Consistent(s) && branch in s.refs
  {
    var head, main := s.refs[branch], s.refs[MAIN];
    if IsAncestor(s.graph, head, main) then Some(s)
    else if IsAncestor(s.graph, main, head) then Some(s.(refs := s.refs[MAIN := head]))
    else if threeWay == None then None
    else Some(Extended(s, MAIN, threeWay.value, [main, head]))
  }

  ghost function RolledBackTo(s: Snapshot, before: CommitId): Snapshot
    requires Consistent(s) && before < |s.graph|
  {
    if FileOverDirectory(MainTree(s), s.graph[before].tree) then s
    else Extended(s, MAIN, s.graph[before].tree, [s.refs[MAIN]])
  }

  ghost predicate IndexFits(rules: Rules, t: Tree) {
    BuildTree(t, IndexChange(rules, t)).Some?
  }

  ghost function IndexRenewed(rules: Rules, s: Snapshot): Snapshot
    requires Consistent(s)
  {
    if IndexChange(rules, MainTree(s)) == [] then s else TryCommit(s, MAIN, s.refs[MAIN], IndexChange(rules, MainTree(s)))
  }

  ghost function ClosedAs(s: Snapshot, id: ProposalId, branchKept: bool): Snapshot
    requires Consistent(s) && id in s.rows
  {
    s.(rows := s.rows[id := s.rows[id].(status := Merged, merged := Some(s.refs[MAIN]))],
       refs := if branchKept then s.refs else s.refs - {BranchOf(id)})
  }

  /**
   * The check before the merge: main has not moved from the base, or is the head, or is strictly valid with
   * the branch's own changes put over it, and loses no definition by them.
   */
  ghost predicate Rechecked(rules: Rules, s: Snapshot, row: Row, ok: bool)
    requires Consistent(s) && row.base < |s.graph| && row.head < |s.graph|
  {
    if s.refs[MAIN] in {row.base, row.head} then ok
    else
      var base, head := s.graph[row.base].tree, s.graph[row.head].tree;
      exists paths ::
        && IsDiff(base, head, paths)
        && ok == (rules.strict(Rebased(MainTree(s), base, head) - {INDEX}) && !rules.vanishes(MainTree(s), Replay(head, paths)))
  }

  /** After git's merge: put the tree of `before` back, or renew the index and close the proposal. */
  ghost function Settled(rules: Rules, m: Snapshot, id: ProposalId, before: CommitId, branchKept: bool): Snapshot
    requires Consistent(m) && id in m.rows && before < |m.graph|
  {
    if !Strict(rules, MainTree(m)) then RolledBackTo(m, before)
    else
      IndexMoves(rules, m);
      if IndexFits(rules, MainTree(m)) then ClosedAs(IndexRenewed(rules, m), id, branchKept) else m
  }

  ghost predicate Mergeable(rules: Rules, s: Snapshot, id: ProposalId)
    requires Consistent(s)
  {
    id in s.rows && s.rows[id].status == Open && Strict(rules, s.graph[s.rows[id].head].tree)
  }

  ghost function MergeResult(rules: Rules, s: Snapshot, id: ProposalId, threeWay: Option<Tree>, branchKept: bool, ok: bool): Snapshot
    requires Consistent(s) && Allowed(s, Merging(id, threeWay, branchKept))
  {
    if !Mergeable(rules, s, id) || !ok then s
    else
      match MergedMain(s, BranchOf(id), threeWay)
      case None => s
      case Some(m) =>
        MergedMainMoves(s, BranchOf(id), threeWay);
        Settled(rules, m, id, s.refs[MAIN], branchKept)
  }

  /** A revert is committed whatever its tree, and then the index is renewed. */
  ghost function RevertResult(rules: Rules, s: Snapshot, reverted: Option<Tree>): Snapshot
    requires Consistent(s) && Allowed(s, Reverting(reverted))
  {
    match reverted
    case None => s
    case Some(tree) =>
      MainExtends(s, tree, [s.refs[MAIN]]);
      IndexRenewed(rules, Extended(s, MAIN, tree, [s.refs[MAIN]]))
  }

  /** `t` is what an operation may leave of `s`. */
  ghost predicate Performs(rules: Rules, s: Snapshot, op: Operation, t: Snapshot)
    requires Consistent(s)
  {
    Allowed(s, op) &&
    match op
    case DirectCommit(changes) => t == DirectResult(rules, s, changes)
    case Proposing(id, base, changes, draft) => t == ProposeResult(rules, s, id, base, changes, draft)
    case Amending(id, changes) => t == AmendResult(rules, s, id, changes)
    case Submitting(id) => t == SubmitResult(s, id)
    case Discarding(id) => t == DiscardResult(s, id)
    case Reverting(reverted) => t == RevertResult(rules, s, reverted)
    case Merging(id, threeWay, kept) =>
      exists ok ::
        && (Mergeable(rules, s, id) ==> Rechecked(rules, s, s.rows[id], ok))
        && t == MergeResult(rules, s, id, threeWay, kept, ok)
  }

  // ---- What each operation keeps -------------------------------------------------------------

  lemma StaysPut(s: Snapshot)
    requires Consistent(s)
    ensures Step(s, s)
  {
  }

  lemma {:induction false} ExtendedWellFormed(s: Snapshot, branch: Branch, tree: Tree, parents: seq<CommitId>)
    requires Consistent(s) && NoShadow(tree.Keys) && forall k :: 0 <= k < |parents| ==> parents[k] < |s.graph|
    ensures WellFormed(Extended(s, branch, tree, parents).graph)
    ensures forall k :: 0 <= k < |parents| ==> IsAncestor(Extended(s, branch, tree, parents).graph, parents[k], |s.graph|)
  {
    var g := Extended(s, branch, tree, parents).graph;
    assert forall c :: 0 <= c < |s.graph| ==> g[c] == s.graph[c];
    forall k | 0 <= k < |parents| ensures IsAncestor(g, parents[k], |s.graph|) {
      ParentIsAncestor(g, |s.graph|, k);
    }
  }

  /** A new commit on main with main among its parents. */
  lemma {:induction false} MainExtends(s: Snapshot, tree: Tree, parents: seq<CommitId>)
    requires Consistent(s) && NoShadow(tree.Keys) && forall k :: 0 <= k < |parents| ==> parents[k] < |s.graph|
    requires parents != [] && parents[0] == s.refs[MAIN]
    ensures var t := Extended(s, MAIN, tree, parents);
            Consistent(t) && Step(s, t) && MainTree(t) == tree && t.rows == s.rows && s.graph <= t.graph
  {
    hide NoShadow;
    var t := Extended(s, MAIN, tree, parents);
    ExtendedWellFormed(s, MAIN, tree, parents);
    hide WellFormed, IsAncestor;
    MainMoves(s, t);
  }

  lemma {:induction false} MergedMainMoves(s: Snapshot, branch: Branch, threeWay: Option<Tree>)
    requires Consistent(s) && branch in s.refs && (threeWay.Some? ==> NoShadow(threeWay.value.Keys))
    requires MergedMain(s, branch, threeWay).Some?
    ensures var m := MergedMain(s, branch, threeWay).value;
            && Consistent(m) && Step(s, m) && m.rows == s.rows && s.graph <= m.graph
            && IsAncestor(m.graph, s.refs[branch], m.refs[MAIN])
            && s.refs[MAIN] < |m.graph| && m.graph[s.refs[MAIN]] == s.graph[s.refs[MAIN]]
            && (MainTree(m) == MainTree(s) || MainTree(m) == s.graph[s.refs[branch]].tree || (threeWay.Some? && MainTree(m) == threeWay.value))
  {
    var head, main := s.refs[branch], s.refs[MAIN];
    if IsAncestor(s.graph, head, main) {
      StaysPut(s);
    } else if IsAncestor(s.graph, main, head) {
      MainMoves(s, s.(refs := s.refs[MAIN := head]));
    } else if threeWay.Some? {
      MainExtends(s, threeWay.value, [main, head]);
      ExtendedWellFormed(s, MAIN, threeWay.value, [main, head]);
      assert [main, head][1] == head;
    }
  }

  lemma {:induction false} RollbackMoves(s: Snapshot, before: CommitId)
    requires Consistent(s) && before < |s.graph|
    ensures var t := RolledBackTo(s, before);
            && Consistent(t) && Step(s, t) && t.rows == s.rows
            && (!FileOverDirectory(MainTree(s), s.graph[before].tree) ==> MainTree(t) == s.graph[before].tree)
  {
    if FileOverDirectory(MainTree(s), s.graph[before].tree) {
      StaysPut(s);
    } else {
      MainExtends(s, s.graph[before].tree, [s.refs[MAIN]]);
    }
  }

  lemma {:induction false} IndexMoves(rules: Rules, s: Snapshot)
    requires Consistent(s)
    ensures var t := IndexRenewed(rules, s);
            && Consistent(t) && Step(s, t) && t.rows == s.rows && Strict(rules, MainTree(t)) == Strict(rules, MainTree(s))
            && (IndexFits(rules, MainTree(s)) ==> MainTree(t) == WithIndex(MainTree(s), Index(rules, MainTree(s))))
  {
    var t := MainTree(s);
    var changes := IndexChange(rules, t);
    StaysPut(s);
    if changes == [] {
      assert WithIndex(t, Index(rules, t)) == t;
    } else if BuildTree(t, changes).Some? {
      assert changes[..0] == [] && changes[..|changes| - 1] == changes[..0] && BuildTree(t, []) == Some(t);
      NothingAboveIndex(t);
      assert BuildTree(t, changes) == Some(WithIndex(t, Index(rules, t)));
      BuildKeepsTreesWellFormed(t, changes);
      hide NoShadow, BuildTree, WellFormed, IsAncestor;
      MainExtends(s, BuildTree(t, changes).value, [s.refs[MAIN]]);
      assert Body(MainTree(IndexRenewed(rules, s))) == Body(t);
    }
  }

  lemma {:induction false} CloseMoves(s: Snapshot, id: ProposalId, branchKept: bool)
    requires Consistent(s) && id in s.rows && s.rows[id].status == Open
    ensures var t := ClosedAs(s, id, branchKept); Consistent(t) && Step(s, t) && t.graph == s.graph && t.refs[MAIN] == s.refs[MAIN]
  {
    BranchesDistinct(id, id);
    BranchesStayApart(s, ClosedAs(s, id, branchKept), id);
  }

  lemma {:induction false} DirectKeeps(rules: Rules, s: Snapshot, changes: seq<Change>)
    requires Consistent(s)
    ensures var t := DirectResult(rules, s, changes); Consistent(t) && Step(s, t)
  {
    var tree, all := MainTree(s), WithIndexChange(rules, MainTree(s), changes);
    StaysPut(s);
    if BuildTree(tree, all).Some? {
      BuildKeepsTreesWellFormed(tree, all);
      MainExtends(s, BuildTree(tree, all).value, [s.refs[MAIN]]);
    }
  }

  /** A proposal's new commit and row, on its own branch. */
  lemma {:induction false} BranchExtends(s: Snapshot, id: ProposalId, from: CommitId, changes: seq<Change>, row: Row)
    requires Consistent(s) && from < |s.graph| && BuildTree(s.graph[from].tree, changes).Some?
    requires row.head == |s.graph| && row.base < |s.graph| && Live(row.status)
    requires id in s.rows ==> RowStep(s.rows[id], row)
    ensures var t := TryCommit(s, BranchOf(id), from, changes).(rows := s.rows[id := row]);
            Consistent(t) && Step(s, t) && t.refs[MAIN] == s.refs[MAIN] && IsAncestor(t.graph, from, |s.graph|)
  {
    var tree := BuildTree(s.graph[from].tree, changes).value;
    var t := TryCommit(s, BranchOf(id), from, changes).(rows := s.rows[id := row]);
    BuildKeepsTreesWellFormed(s.graph[from].tree, changes);
    ExtendedWellFormed(s, BranchOf(id), tree, [from]);
    assert [from][0] == from;
    hide BuildTree, NoShadow, IsAncestor, WellFormed;
    BranchesStayApart(s, t, id);
  }

  lemma {:induction false} ProposeKeeps(rules: Rules, s: Snapshot, id: ProposalId, base: Option<CommitId>, changes: seq<Change>, draft: bool)
    requires Consistent(s) && id !in s.rows && (base.Some? ==> base.value < |s.graph|)
    ensures var t := ProposeResult(rules, s, id, base, changes, draft); Consistent(t) && Step(s, t) && t.refs[MAIN] == s.refs[MAIN]
  {
    StaysPut(s);
    var from := if base.Some? then base.value else s.refs[MAIN];
    if BuildTree(s.graph[from].tree, changes).Some? {
      BranchExtends(s, id, from, changes, Row(from, |s.graph|, if draft then Draft else Open, None));
    }
  }

  lemma {:induction false} AmendKeeps(rules: Rules, s: Snapshot, id: ProposalId, changes: seq<Change>)
    requires Consistent(s)
    ensures var t := AmendResult(rules, s, id, changes); Consistent(t) && Step(s, t) && t.refs[MAIN] == s.refs[MAIN]
  {
    StaysPut(s);
    if id in s.rows && Live(s.rows[id].status) && BuildTree(s.graph[s.rows[id].head].tree, changes).Some? {
      BranchExtends(s, id, s.rows[id].head, changes, s.rows[id].(head := |s.graph|));
    }
  }

  lemma {:induction false} RowsKeep(s: Snapshot, id: ProposalId)
    requires Consistent(s)
    ensures Consistent(SubmitResult(s, id)) && Step(s, SubmitResult(s, id))
    ensures Consistent(DiscardResult(s, id)) && Step(s, DiscardResult(s, id)) && DiscardResult(s, id).refs[MAIN] == s.refs[MAIN]
  {
    StaysPut(s);
    BranchesDistinct(id, id);
    if id in s.rows && s.rows[id].status == Draft {
      BranchesStayApart(s, SubmitResult(s, id), id);
    }
    if id in s.rows && Live(s.rows[id].status) {
      BranchesStayApart(s, DiscardResult(s, id), id);
    }
  }

  /** The stages of a merge, each keeping what a step keeps. */
  lemma {:induction false} MergeKeeps(rules: Rules, s: Snapshot, id: ProposalId, threeWay: Option<Tree>, kept: bool, ok: bool)
    requires Consistent(s) && Allowed(s, Merging(id, threeWay, kept))
    ensures var t := MergeResult(rules, s, id, threeWay, kept, ok); Consistent(t) && Step(s, t)
  {
    StaysPut(s);
    if Mergeable(rules, s, id) && MergedMain(s, BranchOf(id), threeWay).Some? {
      var m := MergedMain(s, BranchOf(id), threeWay).value;
      MergedMainMoves(s, BranchOf(id), threeWay);
      RollbackMoves(m, s.refs[MAIN]);
      IndexMoves(rules, m);
      CloseMoves(IndexRenewed(rules, m), id, kept);
      hide Consistent, Step, MergedMain, RolledBackTo, IndexRenewed, ClosedAs;
      StepThenRowStep(s, m, RolledBackTo(m, s.refs[MAIN]));
      StepThenRowStep(s, m, IndexRenewed(rules, m));
      StepThenRowStep(s, IndexRenewed(rules, m), ClosedAs(IndexRenewed(rules, m), id, kept));
    }
  }

  /** A revert leaves main valid exactly when the reverted tree is. */
  lemma {:induction false} RevertKeeps(rules: Rules, s: Snapshot, reverted: Option<Tree>)
    requires Consistent(s) && Allowed(s, Reverting(reverted))
    ensures var t := RevertResult(rules, s, reverted);
            && Consistent(t) && Step(s, t)
            && (Strict(rules, MainTree(t)) <==> Strict(rules, if reverted.Some? then reverted.value else MainTree(s)))
  {
    StaysPut(s);
    if reverted.Some? {
      var m := Extended(s, MAIN, reverted.value, [s.refs[MAIN]]);
      MainExtends(s, reverted.value, [s.refs[MAIN]]);
      IndexMoves(rules, m);
      hide Consistent, Step, IndexRenewed, Extended;
      StepThenRowStep(s, m, IndexRenewed(rules, m));
    }
  }

  lemma {:induction false} PerformKeeps(rules: Rules, s: Snapshot, op: Operation, t: Snapshot)
    requires Consistent(s) && Performs(rules, s, op, t)
    ensures Consistent(t) && Step(s, t)
  {
    hide Consistent, Step, DirectResult, ProposeResult, AmendResult, SubmitResult, DiscardResult, MergeResult, RevertResult, Rechecked;
    match op
    case DirectCommit(changes) => DirectKeeps(rules, s, changes);
    case Proposing(id, base, changes, draft) => ProposeKeeps(rules, s, id, base, changes, draft);
    case Amending(id, changes) => AmendKeeps(rules, s, id, changes);
    case Submitting(id) => RowsKeep(s, id);
    case Discarding(id) => RowsKeep(s, id);
    case Reverting(reverted) => RevertKeeps(rules, s, reverted);
    case Merging(id, threeWay, kept) =>
      var ok :| t == MergeResult(rules, s, id, threeWay, kept, ok);
      MergeKeeps(rules, s, id, threeWay, kept, ok);
  }

  // ---- Main stays valid ----------------------------------------------------------------------

  /**
   * The three ways to leave main invalid, as a caller can test them beforehand: a direct commit that uses an
   * entry it keeps as a directory, a merge to an invalid tree with a directory where main has a file, and a
   * revert to an invalid tree.
   */
  ghost predicate Safe(rules: Rules, s: Snapshot, op: Operation)
    requires Consistent(s)
  {
    match op
    case DirectCommit(changes) => NothingLost(MainTree(s), changes)
    case Merging(_, threeWay, _) => threeWay.Some? ==> Strict(rules, threeWay.value) || !FileOverDirectory(threeWay.value, MainTree(s))
    case Reverting(reverted) => reverted.Some? ==> Strict(rules, reverted.value)
    case _ => true
  }

  lemma {:induction false} DirectKeepsStrict(rules: Rules, s: Snapshot, changes: seq<Change>)
    requires Consistent(s) && Strict(rules, MainTree(s)) && NothingLost(MainTree(s), changes)
    ensures Consistent(DirectResult(rules, s, changes)) && Strict(rules, MainTree(DirectResult(rules, s, changes)))
  {
    DirectKeeps(rules, s, changes);
    DirectCommitWrites(rules, MainTree(s), changes);
    hide NothingLost, NoShadow, BuildTree, Overlay, WithIndexChange, WithIndex, Strict, Index, WellFormed, IsAncestor, Step;
    var tree, all := MainTree(s), WithIndexChange(rules, MainTree(s), changes);
    if OverlayOk(rules, tree, changes, false) && all != [] && BuildTree(tree, all).Some? {
      var t := DirectResult(rules, s, changes);
      assert t.graph[|s.graph|].tree == BuildTree(tree, all).value;
    }
  }

  /** The merge goes ahead, its tree is invalid, and git refuses to put the old tree back. */
  ghost predicate RollbackStuck(rules: Rules, s: Snapshot, id: ProposalId, threeWay: Option<Tree>, ok: bool)
    requires Consistent(s) && (threeWay.Some? ==> NoShadow(threeWay.value.Keys))
  {
    Mergeable(rules, s, id) && ok &&
    match MergedMain(s, BranchOf(id), threeWay)
    case None => false
    case Some(m) =>
      MergedMainMoves(s, BranchOf(id), threeWay);
      !Strict(rules, MainTree(m)) && FileOverDirectory(MainTree(m), MainTree(s))
  }

  /** Exactly when a merge leaves a valid main valid. */
  lemma {:induction false} MergeKeepsStrictIff(rules: Rules, s: Snapshot, id: ProposalId, threeWay: Option<Tree>, kept: bool, ok: bool)
    requires Consistent(s) && Allowed(s, Merging(id, threeWay, kept)) && Strict(rules, MainTree(s))
    ensures var t := MergeResult(rules, s, id, threeWay, kept, ok);
            Consistent(t) && (Strict(rules, MainTree(t)) <==> !RollbackStuck(rules, s, id, threeWay, ok))
    ensures Safe(rules, s, Merging(id, threeWay, kept)) ==> !RollbackStuck(rules, s, id, threeWay, ok)
  {
    MergeKeeps(rules, s, id, threeWay, kept, ok);
    if Mergeable(rules, s, id) && MergedMain(s, BranchOf(id), threeWay).Some? {
      var m := MergedMain(s, BranchOf(id), threeWay).value;
      MergedMainMoves(s, BranchOf(id), threeWay);
      RollbackMoves(m, s.refs[MAIN]);
      IndexMoves(rules, m);
      CloseMoves(IndexRenewed(rules, m), id, kept);
      hide Step, MergedMain, IndexRenewed, FileOverDirectory, Strict, ClosedAs, WellFormed, IsAncestor, NoShadow;
    }
  }

  /** Each operation keeps main strictly valid, but for the three excluded cases. */
  lemma {:induction false} PerformKeepsStrict(rules: Rules, s: Snapshot, op: Operation, t: Snapshot)
    requires Consistent(s) && Performs(rules, s, op, t) && Safe(rules, s, op) && Strict(rules, MainTree(s))
    ensures Consistent(t) && Strict(rules, MainTree(t))
  {
    PerformKeeps(rules, s, op, t);
    match op
    case DirectCommit(changes) => DirectKeepsStrict(rules, s, changes);
    case Proposing(id, base, changes, draft) => ProposeKeeps(rules, s, id, base, changes, draft);
    case Amending(id, changes) => AmendKeeps(rules, s, id, changes);
    case Submitting(id) => RowsKeep(s, id);
    case Discarding(id) => RowsKeep(s, id);
    case Reverting(reverted) => RevertKeeps(rules, s, reverted);
    case Merging(id, threeWay, kept) =>
      var ok :| t == MergeResult(rules, s, id, threeWay, kept, ok);
      MergeKeepsStrictIff(rules, s, id, threeWay, kept, ok);
  }

  // ---- Every run -----------------------------------------------------------------------------

  /** Operations one after the other, each on what the one before left. */
  ghost predicate IsRun(rules: Rules, run: seq<Snapshot>, ops: seq<Operation>) {
    && |run| == |ops| + 1
    && forall i :: 0 <= i < |ops| ==> Consistent(run[i]) ==> Performs(rules, run[i], ops[i], run[i + 1])
  }

  ghost predicate AllSafe(rules: Rules, run: seq<Snapshot>, ops: seq<Operation>) {
    forall i :: 0 <= i < |ops| && i < |run| ==> Consistent(run[i]) ==> Safe(rules, run[i], ops[i])
  }

  /**
   * Every run of these operations: main descends from every earlier main, a closed proposal is never
   * touched again, statuses only move forward, and a live proposal's head is its branch.
   */
  lemma {:induction false} RunsMoveForward(rules: Rules, run: seq<Snapshot>, ops: seq<Operation>, i: nat, j: nat)
    requires IsRun(rules, run, ops) && Consistent(run[0]) && i <= j < |run|
    ensures Consistent(run[i]) && Consistent(run[j]) && Later(run[i], run[j])
    decreases j
  {
    hide Performs;
    if j == 0 {
      StaysPut(run[0]);
    } else {
      RunsMoveForward(rules, run, ops, if i == j then i - 1 else i, j - 1);
      PerformKeeps(rules, run[j - 1], ops[j - 1], run[j - 1 + 1]);
      if i < j { LaterStep(run[i], run[j - 1], run[j]); } else { StaysPut(run[j]); }
    }
  }

  /** And over every run that avoids the three unsafe cases, from a valid main, main is strictly valid at each release of the lock. */
  lemma {:induction false} RunsKeepMainValid(rules: Rules, run: seq<Snapshot>, ops: seq<Operation>, j: nat)
    requires IsRun(rules, run, ops) && AllSafe(rules, run, ops) && j < |run|
    requires Consistent(run[0]) && rules.strict(MainTree(run[0]) - {INDEX})
    ensures Consistent(run[j]) && rules.strict(MainTree(run[j]) - {INDEX})
  {
    hide Performs, Safe, Consistent;
    if j > 0 {
      RunsKeepMainValid(rules, run, ops, j - 1);
      PerformKeepsStrict(rules, run[j - 1], ops[j - 1], run[j - 1 + 1]);
    }
  }

  // ---- The service ---------------------------------------------------------------------------

  datatype Failure =
    | NotFound | InvalidState | FailsValidation | Empty | Stale | Conflicting
    | GitRefused
    | RolledBack
    | RollbackRefused
  datatype Outcome = Done(commit: CommitId) | Failed(why: Failure)

  class ConfigService {
    const repo: Repo
    const rules: Rules
    var rows: map<ProposalId, Row>

    ghost function Snap(): Snapshot
      reads this, repo
    {
      Snapshot(repo.graph, repo.refs, rows)
    }

    ghost predicate Valid()
      reads this, repo
    {
      Consistent(Snap())
    }

    function Tip(): Tree
      reads this, repo
      requires Valid()
    {
      repo.graph[repo.refs[MAIN]].tree
    }

    constructor (rules: Rules, initial: Tree)
      requires NoShadow(initial.Keys)
      ensures Valid() && fresh(repo) && Tip() == initial && rows == map[]
    {
      this.rules := rules;
      repo := new Repo(initial);
      rows := map[];
    }

    /** Commit to main after strict validation of the overlay. */
    method CommitDirect(changes: seq<Change>) returns (r: Outcome)
      requires Valid()
      modifies repo
      ensures Valid() && Performs(rules, old(Snap()), DirectCommit(changes), Snap())
      ensures r.Failed? ==> Snap() == old(Snap())
      ensures r == Failed(FailsValidation) <==>
                !rules.strict(Overlay(old(Tip()), changes) - {INDEX}) || rules.vanishes(old(Tip()), changes)
      ensures r == Failed(GitRefused) <==> r != Failed(FailsValidation) && BuildTree(old(Tip()), WithIndexChange(rules, old(Tip()), changes)) == None
      ensures r.Done? ==>
        && r.commit == repo.refs[MAIN] && repo.refs == old(repo.refs)[MAIN := r.commit]
        && BuildTree(old(Tip()), WithIndexChange(rules, old(Tip()), changes)) == Some(Tip())
        && (changes == [] && INDEX in old(Tip()) && old(Tip())[INDEX] == rules.index(old(Tip()) - {INDEX}) ==> Snap() == old(Snap()))
      // What was validated is what main now holds, with a current index, unless an entry it keeps is used as a directory.
      ensures r.Done? && NothingLost(old(Tip()), changes) ==>
        && rules.strict(Tip() - {INDEX})
        && Tip() == Overlay(old(Tip()), changes)[INDEX := rules.index(Overlay(old(Tip()), changes) - {INDEX})]
      ensures NoShadow(old(Tip()).Keys + Added(changes) + {INDEX}) && r != Failed(FailsValidation) ==>
                r.Done? && NothingLost(old(Tip()), changes)
    {
      DirectKeeps(rules, Snap(), changes);
      ValidationMeans(rules, Tip(), changes);
      DirectCommitWrites(rules, Tip(), changes);
      hide OverlayOk, NothingLost, NoShadow, Step, IsAncestor, WellFormed, BuildTree, Overlay, IndexChange;
      var main := repo.refs[MAIN];
      var tree := repo.graph[main].tree;
      if !OverlayOk(rules, tree, changes, false) { return Failed(FailsValidation); }
      var all := changes + IndexChange(rules, Overlay(tree, changes));
      if all == [] {
        return Done(main);
      }
      var c := repo.CommitChanges(MAIN, None, all);
      if c == None { return Failed(GitRefused); }
      return Done(c.value);
    }

    /** Open (or draft) a proposal; `id` is freshly minted. */
    method Propose(id: ProposalId, base: Option<CommitId>, changes: seq<Change>, draft: bool) returns (r: Outcome)
      requires Valid() && id !in rows && (base.Some? ==> base.value < |repo.graph|)
      modifies this`rows, repo
      ensures Valid() && Performs(rules, old(Snap()), Proposing(id, base, changes, draft), Snap())
      ensures r.Failed? ==> Snap() == old(Snap())
      ensures repo.refs[MAIN] == old(repo.refs[MAIN])
      ensures
        var t := old(repo.graph)[if base.Some? then base.value else old(repo.refs[MAIN])].tree;
        r == Failed(FailsValidation) <==> !rules.workInProgress(Overlay(t, changes) - {INDEX}) || rules.vanishes(t, changes)
      ensures r.Done? ==>
        var from := if base.Some? then base.value else old(repo.refs[MAIN]);
        && changes != []
        && rows == old(rows)[id := Row(from, r.commit, if draft then Draft else Open, None)]
        && repo.refs == old(repo.refs)[BranchOf(id) := r.commit] && r.commit < |repo.graph|
        && BuildTree(old(repo.graph)[from].tree, changes) == Some(repo.graph[r.commit].tree)
        && IsAncestor(repo.graph, from, r.commit)
    {
      ProposeKeeps(rules, Snap(), id, base, changes, draft);
      ValidationMeans(rules, repo.graph[if base.Some? then base.value else repo.refs[MAIN]].tree, changes);
      BranchIsFresh(Snap(), id);
      hide OverlayOk, NoShadow, Step, BuildTree;
      var from := if base.Some? then base.value else repo.refs[MAIN];
      if !OverlayOk(rules, repo.graph[from].tree, changes, true) { return Failed(FailsValidation); }
      if changes == [] { return Failed(Empty); }
      var head := repo.CommitChanges(BranchOf(id), Some(from), changes);
      if head == None { return Failed(GitRefused); }
      rows := rows[id := Row(from, head.value, if draft then Draft else Open, None)];
      return Done(head.value);
    }

    method AmendProposal(id: ProposalId, changes: seq<Change>) returns (r: Outcome)
      requires Valid()
      modifies this`rows, repo
      ensures Valid() && Performs(rules, old(Snap()), Amending(id, changes), Snap())
      ensures r.Failed? ==> Snap() == old(Snap())
      ensures repo.refs[MAIN] == old(repo.refs[MAIN])
      ensures r == Failed(NotFound) <==> id !in old(rows)
      ensures r == Failed(InvalidState) <==> id in old(rows) && old(rows)[id].status in {Merged, Discarded}
      ensures
        r == Failed(FailsValidation) <==>
        && id in old(rows) && old(rows)[id].status in {Draft, Open}
        && var t := old(repo.graph)[old(rows)[id].head].tree;
           !rules.workInProgress(Overlay(t, changes) - {INDEX}) || rules.vanishes(t, changes)
      ensures r.Done? ==>
        && rows == old(rows)[id := old(rows)[id].(head := r.commit)]
        && repo.refs == old(repo.refs)[BranchOf(id) := r.commit] && r.commit < |repo.graph|
        && BuildTree(old(repo.graph)[old(rows)[id].head].tree, changes) == Some(repo.graph[r.commit].tree)
        && IsAncestor(repo.graph, old(rows)[id].head, r.commit)
    {
      if id !in rows { return Failed(NotFound); }
      var row := rows[id];
      if !Live(row.status) { return Failed(InvalidState); }
      ValidationMeans(rules, repo.graph[row.head].tree, changes);
      if !OverlayOk(rules, repo.graph[row.head].tree, changes, true) { return Failed(FailsValidation); }
      var head := repo.CommitChanges(BranchOf(id), None, changes);
      if head == None { return Failed(GitRefused); }
      rows := rows[id := row.(head := head.value)];
      BranchesStayApart(old(Snap()), Snap(), id);
      return Done(head.value);
    }

    method SubmitProposal(id: ProposalId) returns (r: Outcome)
      requires Valid()
      modifies this`rows
      ensures Valid() && Performs(rules, old(Snap()), Submitting(id), Snap())
      ensures r.Done? <==> id in old(rows) && old(rows)[id].status == Draft
      ensures rows == if r.Done? then old(rows)[id := old(rows)[id].(status := Open)] else old(rows)
    {
      if id !in rows { return Failed(NotFound); }
      if rows[id].status != Draft { return Failed(InvalidState); }
      RowsKeep(Snap(), id);
      rows := rows[id := rows[id].(status := Open)];
      return Done(rows[id].head);
    }

    method DiscardProposal(id: ProposalId) returns (r: Outcome)
      requires Valid()
      modifies this`rows, repo
      ensures Valid() && Performs(rules, old(Snap()), Discarding(id), Snap())
      ensures r.Done? <==> id in old(rows) && old(rows)[id].status in {Draft, Open}
      ensures r.Failed? ==> Snap() == old(Snap())
      ensures r.Done? ==>
        && rows == old(rows)[id := old(rows)[id].(status := Discarded)]
        && repo.graph == old(repo.graph) && repo.refs == old(repo.refs) - {BranchOf(id)}
    {
      if id !in rows { return Failed(NotFound); }
      if !Live(rows[id].status) { return Failed(InvalidState); }
      BranchesDistinct(id, id);
      var _ := repo.DeleteBranch(BranchOf(id));
      rows := rows[id := rows[id].(status := Discarded)];
      BranchesStayApart(old(Snap()), Snap(), id);
      return Done(rows[id].head);
    }

    /** A forward commit on main that puts the tree of `wanted` back. */
    method RestoreTree(wanted: CommitId) returns (r: Option<CommitId>)
      requires Valid() && wanted < |repo.graph|
      modifies repo
      ensures Valid() && Snap() == RolledBackTo(old(Snap()), wanted)
      ensures r == None <==> FileOverDirectory(old(Tip()), old(repo.graph[wanted].tree))
      ensures r == None ==> Snap() == old(Snap())
      ensures r.Some? ==>
        && r.value == repo.refs[MAIN] == |old(repo.graph)| && Tip() == old(repo.graph[wanted].tree)
        && IsAncestor(repo.graph, old(repo.refs[MAIN]), r.value)
    {
      RollbackMoves(Snap(), wanted);
      hide Step, IsAncestor, NoShadow, FileOverDirectory;
      var current, target := repo.graph[repo.refs[MAIN]].tree, repo.graph[wanted].tree;
      var paths := Diff(current, target);
      ReplayGivesTarget(current, target, paths);
      r := repo.CommitChanges(MAIN, None, Replay(target, paths));
    }

    /** Bring INDEX.md on main up to date. */
    method RegenerateIndex() returns (r: Option<CommitId>)
      requires Valid()
      modifies repo
      ensures Valid() && Snap() == IndexRenewed(rules, old(Snap()))
      ensures r == None <==> HoldsDirectory(old(Tip()), INDEX)
      ensures INDEX in old(Tip()) && old(Tip())[INDEX] == rules.index(old(Tip()) - {INDEX}) ==> Snap() == old(Snap())
      ensures (r == None <==> !IndexFits(rules, old(Tip()))) && (r == None ==> Snap() == old(Snap()))
      ensures r.Some? ==>
        && r.value == repo.refs[MAIN] && Tip() == old(Tip())[INDEX := rules.index(old(Tip()) - {INDEX})]
        && IsAncestor(repo.graph, old(repo.refs[MAIN]), r.value)
    {
      IndexMoves(rules, Snap());
      IndexFitsIff(rules, Tip());
      hide Step, NoShadow, Strict, HoldsDirectory;
      var t := repo.graph[repo.refs[MAIN]].tree;
      var changes := IndexChange(rules, t);
      if changes == [] {
        return Some(repo.refs[MAIN]);
      }
      r := repo.CommitChanges(MAIN, None, changes);
    }

    /** Commit what git makes of a revert, None when it refuses; an invalid tree is only logged. */
    method Revert(reverted: Option<Tree>) returns (r: Outcome)
      requires Valid() && (reverted.Some? ==> NoShadow(reverted.value.Keys))
      modifies repo
      ensures Valid() && Performs(rules, old(Snap()), Reverting(reverted), Snap()) && rows == old(rows)
      ensures r == Failed(Conflicting) <==> reverted == None
      ensures r == Failed(Conflicting) ==> Snap() == old(Snap())
      ensures r == Failed(GitRefused) <==> reverted.Some? && HoldsDirectory(reverted.value, INDEX)
      ensures r == Failed(GitRefused) ==> Tip() == reverted.value
      ensures r.Done? ==> r.commit == repo.refs[MAIN] && Tip() == reverted.value[INDEX := rules.index(reverted.value - {INDEX})]
    {
      RevertKeeps(rules, Snap(), reverted);
      if reverted == None { return Failed(Conflicting); }
      MainExtends(Snap(), reverted.value, [repo.refs[MAIN]]);
      hide Step, NoShadow, IsAncestor, HoldsDirectory, Strict, IndexRenewed;
      var c := repo.CommitTree(reverted.value);
      var final := RegenerateIndex();
      if final == None { return Failed(GitRefused); }
      return Done(final.value);
    }

    /** The branch's own changes, replayed over current main, still validate. */
    method StillValidates(row: Row) returns (ok: bool)
      requires Valid() && row.base < |repo.graph| && row.head < |repo.graph|
      ensures Rechecked(rules, Snap(), row, ok)
    {
      var main := repo.refs[MAIN];
      if main == row.base || main == row.head { return true; }
      var paths := Diff(repo.graph[row.base].tree, repo.graph[row.head].tree);
      ReplayRebases(repo.graph[main].tree, repo.graph[row.base].tree, repo.graph[row.head].tree, paths);
      ValidationMeans(rules, repo.graph[main].tree, Replay(repo.graph[row.head].tree, paths));
      return OverlayOk(rules, repo.graph[main].tree, Replay(repo.graph[row.head].tree, paths), false);
    }

    /** Git's merge; main moves forward or stays, and no proposal notices. */
    method MergeIntoMain(id: ProposalId, threeWay: Option<Tree>) returns (m: ConfigRepo.Merged)
      requires Valid() && id in rows && Live(rows[id].status)
      requires threeWay.Some? ==> NoShadow(threeWay.value.Keys)
      modifies repo
      ensures Valid() && rows == old(rows) && old(repo.graph) <= repo.graph
      ensures MergedMain(old(Snap()), BranchOf(id), threeWay) == if m == Conflict then None else Some(Snap())
      ensures m == Conflict ==> Snap() == old(Snap())
      ensures m.MergedAt? ==> repo.refs[MAIN] == m.commit && IsAncestor(repo.graph, rows[id].head, m.commit)
      ensures m.MergedAt? ==> old(repo.refs[MAIN]) < |repo.graph| && repo.graph[old(repo.refs[MAIN])].tree == old(Tip())
    {
      BranchesDistinct(id, id);
      if MergedMain(Snap(), BranchOf(id), threeWay).Some? { MergedMainMoves(Snap(), BranchOf(id), threeWay); }
      hide Step, NoShadow;
      m := repo.Merge(BranchOf(id), threeWay);
    }

    /** Check the tree the merge made: roll back to `before`, or bring the index up to date. */
    method Settle(before: CommitId, trusted: bool) returns (r: Outcome)
      requires Valid() && before < |repo.graph| && (trusted ==> Strict(rules, Tip()))
      modifies repo
      ensures Valid() && rows == old(rows) && old(repo.graph) <= repo.graph
      ensures IsAncestor(repo.graph, old(repo.refs[MAIN]), repo.refs[MAIN])
      ensures Snap() ==
              if !Strict(rules, old(Tip())) then RolledBackTo(old(Snap()), before)
              else if IndexFits(rules, old(Tip())) then IndexRenewed(rules, old(Snap())) else old(Snap())
      ensures r == if Strict(rules, old(Tip())) then (if IndexFits(rules, old(Tip())) then Done(repo.refs[MAIN]) else Failed(GitRefused))
                   else if FileOverDirectory(old(Tip()), old(repo.graph[before].tree)) then Failed(RollbackRefused) else Failed(RolledBack)
      ensures r == Failed(RolledBack) ==> Tip() == old(repo.graph[before].tree)
      ensures r == Failed(RollbackRefused) ==> Snap() == old(Snap())
      ensures Strict(rules, old(Tip())) ==> Strict(rules, Tip())
      ensures r.Done? ==> INDEX in Tip() && Tip()[INDEX] == Index(rules, Tip())
    {
      RollbackMoves(Snap(), before);
      IndexMoves(rules, Snap());
      hide Strict, FileOverDirectory, IndexFits, IndexRenewed, RolledBackTo, IsAncestor;
      if !trusted && !Strict(rules, repo.graph[repo.refs[MAIN]].tree) {
        var restored := RestoreTree(before);
        if restored == None { return Failed(RollbackRefused); }
        return Failed(RolledBack);
      }
      var final := RegenerateIndex();
      if final == None { return Failed(GitRefused); }
      return Done(final.value);
    }

    /** Mark the proposal merged and drop its branch, unless that fails. */
    method Close(id: ProposalId, branchKept: bool)
      requires Valid() && id in rows && rows[id].status == Open
      modifies this`rows, repo
      ensures Valid() && Snap() == ClosedAs(old(Snap()), id, branchKept)
      ensures repo.refs[MAIN] == old(repo.refs[MAIN]) && Tip() == old(Tip())
      ensures !branchKept ==> BranchOf(id) !in repo.refs
    {
      CloseMoves(Snap(), id, branchKept);
      BranchesDistinct(id, id);
      hide Step, NoShadow, IsAncestor;
      rows := rows[id := rows[id].(status := Merged, merged := Some(repo.refs[MAIN]))];
      if !branchKept {
        var _ := repo.DeleteBranch(BranchOf(id));
      }
    }

    /**
     * Merge an open proposal into main. `threeWay` is whatever git's merge of the two trees yields (None:
     * a conflict); `branchKept` says that deleting the merged branch failed, which is only logged.
     */
    method MergeProposal(id: ProposalId, threeWay: Option<Tree>, branchKept: bool) returns (r: Outcome)
      requires Valid()
      requires threeWay.Some? ==> NoShadow(threeWay.value.Keys)
      modifies this`rows, repo
      ensures Valid() && Performs(rules, old(Snap()), Merging(id, threeWay, branchKept), Snap())
      ensures r == Failed(NotFound) <==> id !in old(rows)
      ensures r == Failed(InvalidState) <==> id in old(rows) && old(rows)[id].status != Open
      ensures r == Failed(FailsValidation) <==> id in old(rows) && old(rows)[id].status == Open && !Strict(rules, old(repo.graph)[old(rows)[id].head].tree)
      ensures r.Failed? ==> rows == old(rows)
      ensures r.Failed? && r.why !in {RolledBack, RollbackRefused, GitRefused} ==> Snap() == old(Snap())
      // A merge goes ahead only when the branch's own changes, put over the current main, validate.
      ensures r.Done? ==> Rechecked(rules, old(Snap()), old(rows)[id], true)
      ensures r == Failed(Stale) ==> Rechecked(rules, old(Snap()), old(rows)[id], false)
      // A merge that validates badly leaves exactly the previous tree, unless git refuses to put it back.
      ensures r == Failed(RolledBack) ==> Tip() == old(Tip())
      ensures r == Failed(RollbackRefused) ==> !Strict(rules, Tip()) && FileOverDirectory(Tip(), old(Tip()))
      ensures r != Failed(RollbackRefused) && Strict(rules, old(Tip())) ==> Strict(rules, Tip())
      ensures r.Done? ==>
        && Strict(rules, Tip()) && r.commit == repo.refs[MAIN]
        && rows == old(rows)[id := old(rows)[id].(status := Merged, merged := Some(r.commit))]
        && IsAncestor(repo.graph, old(rows)[id].head, r.commit)
        && INDEX in Tip() && Tip()[INDEX] == Index(rules, Tip())
        && (!branchKept ==> BranchOf(id) !in repo.refs)
    {
      hide Strict, Index, NoShadow, Rebased, OverlayOk, FileOverDirectory, IsAncestor, IsDiff, Rechecked, MergedMain, RolledBackTo, IndexRenewed, IndexFits, WellFormed;
      ghost var s := Snap();
      assert !Mergeable(rules, s, id) ==> s == MergeResult(rules, s, id, threeWay, branchKept, true);
      if id !in rows { return Failed(NotFound); }
      var row := rows[id];
      if row.status != Open { return Failed(InvalidState); }
      var head, main := repo.refs[BranchOf(id)], repo.refs[MAIN];
      if !Strict(rules, repo.graph[head].tree) { return Failed(FailsValidation); }
      var ok := StillValidates(row);
      if !ok { return Failed(Stale); }
      var m := MergeIntoMain(id, threeWay);
      if m == Conflict { return Failed(Conflicting); }
      label Merged:
      ghost var merged := Snap();
      r := Settle(main, m.commit == head);
      if r.Failed? {
        assert Snap() == Settled(rules, merged, id, main, branchKept);
        return;
      }
      AncestorStable(old@Merged(repo.graph), repo.graph, head, m.commit);
      AncestorTransitive(repo.graph, head, m.commit, repo.refs[MAIN]);
      Close(id, branchKept);
      assert Snap() == Settled(rules, merged, id, main, branchKept);
    }
  }

  lemma StepThenRowStep(s: Snapshot, t: Snapshot, u: Snapshot)
    requires Consistent(s) && Consistent(t) && Consistent(u) && Step(s, t) && Step(t, u) && t.rows == s.rows
    ensures Step(s, u)
  {
    AncestorStable(t.graph, u.graph, s.refs[MAIN], t.refs[MAIN]);
    AncestorTransitive(u.graph, s.refs[MAIN], t.refs[MAIN], u.refs[MAIN]);
  }

  /** Moving main forward disturbs no proposal. */
  lemma MainMoves(s: Snapshot, t: Snapshot)
    requires Consistent(s) && WellFormed(t.graph) && s.graph <= t.graph && t.rows == s.rows
    requires MAIN in t.refs && t.refs[MAIN] < |t.graph| && t.refs == s.refs[MAIN := t.refs[MAIN]]
    requires IsAncestor(t.graph, s.refs[MAIN], t.refs[MAIN])
    ensures Consistent(t) && Step(s, t)
  {
    forall id | id in t.rows ensures BranchOf(id) != MAIN {
      BranchesDistinct(id, id);
    }
  }

  /** INDEX.md lies at the root, so adding it never drops a shadowing file. */
  lemma NothingAboveIndex(t: Tree)
    ensures (forall q :: q in t ==> !DirPrefix(q, INDEX)) && WithoutShadowing(t, INDEX) == t
  {
    forall q | q in t ensures !DirPrefix(q, INDEX) {
      if |q| < |INDEX| { assert INDEX[|q|] != '/'; }
    }
  }

  /** INDEX.md can be written unless it names a directory. */
  lemma IndexFitsIff(rules: Rules, t: Tree)
    requires NoShadow(t.Keys)
    ensures IndexFits(rules, t) <==> !HoldsDirectory(t, INDEX)
  {
    var changes := IndexChange(rules, t);
    NothingAboveIndex(t);
    if changes != [] {
      assert changes[..|changes| - 1] == [] && BuildTree(t, []) == Some(t);
    }
  }

  lemma BranchIsFresh(s: Snapshot, id: ProposalId)
    requires Consistent(s) && id !in s.rows
    ensures BranchOf(id) !in s.refs
  {
    BranchesDistinct(id, id);
    if BranchOf(id) in s.refs {
      var other :| other in s.rows && BranchOf(id) == BranchOf(other);
      BranchesDistinct(id, other);
    }
  }

  /** Touching one proposal's branch and row leaves main and every other live branch where they were. */
  lemma BranchesStayApart(s: Snapshot, t: Snapshot, id: ProposalId)
    requires Consistent(s) && WellFormed(t.graph) && s.graph <= t.graph
    requires id in t.rows && t.rows - {id} == s.rows - {id}
    requires forall b :: b != BranchOf(id) ==> (b in t.refs <==> b in s.refs) && (b in t.refs ==> t.refs[b] == s.refs[b])
    requires BranchOf(id) in t.refs ==> t.refs[BranchOf(id)] < |t.graph|
    requires t.rows[id].base < |t.graph| && t.rows[id].head < |t.graph|
    requires Live(t.rows[id].status) ==> BranchOf(id) in t.refs && t.refs[BranchOf(id)] == t.rows[id].head
    requires id in s.rows ==> RowStep(s.rows[id], t.rows[id])
    ensures Consistent(t) && Step(s, t) && t.refs[MAIN] == s.refs[MAIN]
  {
    BranchesDistinct(id, id);
    assert forall other :: other != id ==> (other in t.rows <==> other in (t.rows - {id})) && (other in s.rows <==> other in (s.rows - {id}));
    forall other | other in t.rows && other != id
      ensures other in s.rows && t.rows[other] == s.rows[other] && BranchOf(other) != BranchOf(id)
    {
      BranchesDistinct(id, other);
      assert other in t.rows - {id} && (t.rows - {id})[other] == t.rows[other];
    }
    forall other | other in s.rows
      ensures other in t.rows && RowStep(s.rows[other], t.rows[other])
    {
      if other != id { assert other in s.rows - {id} && (s.rows - {id})[other] == s.rows[other]; }
    }
  }

  /** Committing a change list together with its index change writes the overlay with a current INDEX.md, when nothing is lost. */
  lemma {:induction false} CommittedWithIndex(rules: Rules, tree: Tree, changes: seq<Change>)
    requires NothingLost(tree, changes) && BuildTree(tree, WithIndexChange(rules, tree, changes)).Some?
    ensures
      var next := Overlay(tree, changes);
      BuildTree(tree, WithIndexChange(rules, tree, changes)) == Some(WithIndex(next, Index(rules, next)))
  {
    var next, all := Overlay(tree, changes), WithIndexChange(rules, tree, changes);
    if IndexChange(rules, next) == [] {
      assert all == changes;
      CommittedIsOverlayIff(tree, changes);
      assert WithIndex(next, Index(rules, next)) == next;
    } else {
      assert all[..|all| - 1] == changes;
      CommittedIsOverlayIff(tree, changes);
      NothingAboveIndex(next);
    }
  }

  lemma {:induction false} DirectCommitWrites(rules: Rules, tree: Tree, changes: seq<Change>)
    ensures WithIndexChange(rules, tree, changes) == [] ==> BuildTree(tree, WithIndexChange(rules, tree, changes)) == Some(tree)
    ensures
      var next, all := Overlay(tree, changes), WithIndexChange(rules, tree, changes);
      NothingLost(tree, changes) && BuildTree(tree, all).Some? ==>
        && BuildTree(tree, all) == Some(WithIndex(next, Index(rules, next)))
        && Strict(rules, WithIndex(next, Index(rules, next))) == Strict(rules, next)
    ensures NoShadow(tree.Keys + Added(changes) + {INDEX}) ==>
              NothingLost(tree, changes) && BuildTree(tree, WithIndexChange(rules, tree, changes)).Some?
  {
    UnshadowedIsSafe(rules, tree, changes);
    if NothingLost(tree, changes) && BuildTree(tree, WithIndexChange(rules, tree, changes)).Some? {
      CommittedWithIndex(rules, tree, changes);
    }
  }

  /** Unshadowed paths are one way to lose nothing; git then accepts the commit. */
  lemma {:induction false} UnshadowedIsSafe(rules: Rules, tree: Tree, changes: seq<Change>)
    ensures NoShadow(tree.Keys + Added(changes) + {INDEX}) ==>
              NothingLost(tree, changes) && BuildTree(tree, WithIndexChange(rules, tree, changes)).Some?
  {
    if NoShadow(tree.Keys + Added(changes) + {INDEX}) {
      var all := WithIndexChange(rules, tree, changes);
      assert tree.Keys + Added(changes) <= tree.Keys + Added(changes) + {INDEX};
      OverlayIsCommitted(tree, changes);
      CommittedIsOverlayIff(tree, changes);
      assert Added(all) <= Added(changes) + {INDEX};
      OverlayIsCommitted(tree, all);
    }
  }

  /**
   * Why direct commits need unshadowed paths: a file added below an existing file passes validation,
   * which still sees both, but git drops the existing file and main becomes invalid.
   */
  lemma ShadowedCommitBreaksMain()
    ensures
      var rules := Rules((t: Tree) => "a" in t, (t: Tree) => true, (t: Tree, c: seq<Change>) => false, (t: Tree) => "index");
      var tree: Tree, changes := map["a" := "x"], [Change("a/b", Some("y"))];
      var all := WithIndexChange(rules, tree, changes);
      && NoShadow(tree.Keys) && Strict(rules, tree) && OverlayOk(rules, tree, changes, false)
      && BuildTree(tree, all).Some? && !Strict(rules, BuildTree(tree, all).value)
  {
    var rules := Rules((t: Tree) => "a" in t, (t: Tree) => true, (t: Tree, c: seq<Change>) => false, (t: Tree) => "index");
    var tree: Tree, changes := map["a" := "x"], [Change("a/b", Some("y"))];
    ShadowedOverlayDiffers();
    var all := WithIndexChange(rules, tree, changes);
    assert all[..|all| - 1] == changes;
    assert "a" != INDEX && "a/b" != INDEX;
    NothingAboveIndex(map["a/b" := "y"]);
    assert forall q :: q in map["a/b" := "y"] ==> !DirPrefix(INDEX, q);
    assert BuildTree(tree, all) == Some((map["a/b" := "y"])[INDEX := "index"]);
  }
}
