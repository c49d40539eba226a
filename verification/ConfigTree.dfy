/** Configuration trees as flat path -> content maps: overlays, index building and diffs. */
module ConfigTree {
  import opened Basics

  type Path = string
  type Tree = map<Path, string>

  /** `content == None` deletes the path. */
  datatype Change = Change(path: Path, content: Option<string>)

  const INDEX: Path := "INDEX.md"

  /** `p` names a directory that holds `q`. */
  predicate DirPrefix(p: Path, q: Path) {
    |p| < |q| && q[..|p|] == p && q[|p|] == '/'
  }

  /** No path is at once a file and a directory; true of every git tree. */
  ghost predicate NoShadow(paths: set<Path>) {
    forall p, q :: p in paths && q in paths ==> !DirPrefix(p, q)
  }

  // ---- The tree a change list asks for -------------------------------------------------------

  function Applied(t: Tree, ch: Change): Tree {
    if ch.content == None then t - {ch.path} else t[ch.path := ch.content.value]
  }

  /** The last change of a path wins. */
  function Overlay(t: Tree, changes: seq<Change>): Tree
    decreases |changes|
  {
    if changes == [] then t
    else Applied(Overlay(t, changes[..|changes| - 1]), changes[|changes| - 1])
  }

  function Added(changes: seq<Change>): set<Path> {
    set ch | ch in changes && ch.content.Some? :: ch.path
  }

  function ChangePaths(changes: seq<Change>): seq<Path> {
    seq(|changes|, i requires 0 <= i < |changes| => changes[i].path)
  }

  /** The overlay path by path: what the last change of a path says. */
  lemma {:induction false} LastChangeWins(t: Tree, changes: seq<Change>, i: nat)
    requires i < |changes| && forall j :: i < j < |changes| ==> changes[j].path != changes[i].path
    ensures changes[i].path in Overlay(t, changes) <==> changes[i].content.Some?
    ensures changes[i].content.Some? ==> Overlay(t, changes)[changes[i].path] == changes[i].content.value
  {
    if i < |changes| - 1 {
      var init := changes[..|changes| - 1];
      assert init[i] == changes[i];
      LastChangeWins(t, init, i);
    }
  }

  /** And the tree itself where nothing changes it. */
  lemma {:induction false} UntouchedStays(t: Tree, changes: seq<Change>, p: Path)
    requires forall i :: 0 <= i < |changes| ==> changes[i].path != p
    ensures p in Overlay(t, changes) <==> p in t
    ensures p in t ==> Overlay(t, changes)[p] == t[p]
  {
    if changes != [] { UntouchedStays(t, changes[..|changes| - 1], p); }
  }

  /** The validator's view: a file list and a map of overridden contents over an untouched base. */
  method OverlayTree(base: Tree, changes: seq<Change>) returns (files: set<Path>, overlay: map<Path, Option<string>>)
    ensures files == Overlay(base, changes).Keys
    ensures forall p :: p in files ==> (if p in overlay then overlay[p] else if p in base then Some(base[p]) else None) == Some(Overlay(base, changes)[p])
    ensures forall p :: p !in files ==> (if p in overlay then overlay[p] else if p in base then Some(base[p]) else None) == None
  {
    files, overlay := base.Keys, map[];
    for i := 0 to |changes|
      invariant files == Overlay(base, changes[..i]).Keys
      invariant forall p :: p in overlay ==> overlay[p] == if p in files then Some(Overlay(base, changes[..i])[p]) else None
      invariant forall p :: p !in overlay ==> (p in files <==> p in base) && (p in files ==> Overlay(base, changes[..i])[p] == base[p])
    {
      var ch := changes[i];
      assert changes[..i + 1][..i] == changes[..i];
      overlay := overlay[ch.path := ch.content];
      if ch.content == None {
        files := files - {ch.path};
      } else {
        files := files + {ch.path};
      }
    }
    assert changes[..|changes|] == changes;
  }

  // ---- The tree git writes -------------------------------------------------------------------

  function WithoutShadowing(t: Tree, p: Path): Tree {
    t - set q | q in t && DirPrefix(q, p)
  }

  /** `update-index --add` refuses a file where the index holds a directory. */
  predicate HoldsDirectory(t: Tree, p: Path) {
    exists q :: q in t && DirPrefix(p, q)
  }

  function Indexed(t: Tree, ch: Change): Option<Tree> {
    if ch.content == None then Some(t - {ch.path})
    else
      var u := WithoutShadowing(t, ch.path);
      if HoldsDirectory(u, ch.path) then None else Some(u[ch.path := ch.content.value])
  }

  function BuildTree(t: Tree, changes: seq<Change>): Option<Tree>
    decreases |changes|
  {
    if changes == [] then Some(t)
    else
      match BuildTree(t, changes[..|changes| - 1])
      case None => None
      case Some(u) => Indexed(u, changes[|changes| - 1])
  }

  /** The index is built change by change. */
  method BuildIndex(t: Tree, changes: seq<Change>) returns (r: Option<Tree>)
    ensures r == BuildTree(t, changes)
  {
    r := Some(t);
    for i := 0 to |changes|
      invariant r == BuildTree(t, changes[..i])
    {
      assert changes[..i + 1][..i] == changes[..i];
      if r.Some? {
        r := Indexed(r.value, changes[i]);
      }
    }
    assert changes[..|changes|] == changes;
  }

  lemma {:induction false} BuildKeepsTreesWellFormed(t: Tree, changes: seq<Change>)
    requires NoShadow(t.Keys)
    ensures BuildTree(t, changes).Some? ==> NoShadow(BuildTree(t, changes).value.Keys)
  {
    if changes != [] {
      BuildKeepsTreesWellFormed(t, changes[..|changes| - 1]);
    }
  }

  /**
   * The overlay that is validated is the tree that is committed, for change lists with repeated paths
   * and deletes of absent paths, as long as no path involved is a directory of another.
   */
  lemma {:induction false} OverlayIsCommitted(t: Tree, changes: seq<Change>)
    requires NoShadow(t.Keys + Added(changes))
    ensures BuildTree(t, changes) == Some(Overlay(t, changes))
    ensures Overlay(t, changes).Keys <= t.Keys + Added(changes)
  {
    if changes != [] {
      var init, last := changes[..|changes| - 1], changes[|changes| - 1];
      assert changes == init + [last];
      assert Added(init) <= Added(changes);
      OverlayIsCommitted(t, init);
      if last.content.Some? {
        assert last.path in Added(changes);
        assert WithoutShadowing(Overlay(t, init), last.path) == Overlay(t, init);
      }
    }
  }

  ghost predicate AddedAfter(changes: seq<Change>, q: Path, i: int) {
    exists j :: i < j < |changes| && 0 <= j && changes[j].path == q && changes[j].content.Some?
  }

  /** The addition at `i` uses the entry `q` as a directory, and nothing adds `q` again. */
  ghost predicate LostAt(changes: seq<Change>, q: Path, i: int) {
    0 <= i < |changes| && changes[i].content.Some? && DirPrefix(q, changes[i].path) && !AddedAfter(changes, q, i)
  }

  ghost predicate Lost(changes: seq<Change>, q: Path) {
    exists i :: LostAt(changes, q, i)
  }

  /** No entry the change list leaves in the tree is used as a directory after it was last added. */
  ghost predicate NothingLost(t: Tree, changes: seq<Change>) {
    forall q :: q in Overlay(t, changes) ==> !Lost(changes, q)
  }

  lemma {:induction false} LostStep(init: seq<Change>, last: Change, q: Path)
    ensures Lost(init + [last], q) <==>
            if last.content == None then Lost(init, q)
            else if last.path == q then false
            else DirPrefix(q, last.path) || Lost(init, q)
  {
    var changes, n := init + [last], |init|;
    assert changes[n] == last;
    forall i: int | 0 <= i < n
      ensures AddedAfter(changes, q, i) <==> AddedAfter(init, q, i) || (last.path == q && last.content.Some?)
    {
      if AddedAfter(init, q, i) {
        var j :| i < j < n && 0 <= j && init[j].path == q && init[j].content.Some?;
        assert changes[j] == init[j];
      }
    }
    if Lost(init, q) {
      var i :| LostAt(init, q, i);
      assert changes[i] == init[i];
      assert AddedAfter(changes, q, i) || LostAt(changes, q, i);
    }
    if Lost(changes, q) {
      var i :| LostAt(changes, q, i);
      assert i < n ==> changes[i] == init[i] && LostAt(init, q, i);
    }
    if last.content.Some? && DirPrefix(q, last.path) {
      assert LostAt(changes, q, n);
    }
  }

  ghost predicate KeptAt(t: Tree, changes: seq<Change>, built: Tree, q: Path) {
    && (q in built <==> q in Overlay(t, changes) && !Lost(changes, q))
    && (q in built ==> built[q] == Overlay(t, changes)[q])
  }

  lemma StepByStep(t: Tree, init: seq<Change>, last: Change)
    ensures Overlay(t, init + [last]) == Applied(Overlay(t, init), last)
    ensures BuildTree(t, init + [last]) ==
            if BuildTree(t, init) == None then None else Indexed(BuildTree(t, init).value, last)
    ensures Overlay(t, []) == t && BuildTree(t, []) == Some(t)
  {
    assert (init + [last])[..|init|] == init;
  }

  lemma NothingLostAtFirst(q: Path)
    ensures !Lost([], q)
  {
  }

  lemma {:induction false} BuildKeepsUnlostAt(t: Tree, changes: seq<Change>, q: Path)
    requires BuildTree(t, changes).Some?
    ensures KeptAt(t, changes, BuildTree(t, changes).value, q)
  {
    hide Lost, Indexed, BuildTree, Overlay, DirPrefix;
    if changes == [] {
      NothingLostAtFirst(q);
      StepByStep(t, [], Change(q, None));
    } else {
      var init, last := changes[..|changes| - 1], changes[|changes| - 1];
      assert changes == init + [last];
      StepByStep(t, init, last);
      BuildKeepsUnlostAt(t, init, q);
      LostStep(init, last, q);
      IndexedKeeps(BuildTree(t, init).value, Overlay(t, init), last, q, Lost(init, q));
    }
  }

  /** One step of the index against one step of the overlay, at one path. */
  lemma IndexedKeeps(u: Tree, o: Tree, last: Change, q: Path, lost: bool)
    requires Indexed(u, last).Some? && (q in u <==> q in o && !lost) && (q in u ==> u[q] == o[q])
    ensures var v, w := Indexed(u, last).value, Applied(o, last);
            && (q in v <==> q in w && !(last.path != q && if last.content == None then lost else DirPrefix(q, last.path) || lost))
            && (q in v ==> v[q] == w[q])
  {
  }

  /** For any change list: building keeps exactly the overlay's entries that are not lost. */
  lemma {:induction false} BuildKeepsUnlost(t: Tree, changes: seq<Change>)
    requires BuildTree(t, changes).Some?
    ensures forall q :: KeptAt(t, changes, BuildTree(t, changes).value, q)
  {
    forall q ensures KeptAt(t, changes, BuildTree(t, changes).value, q) {
      BuildKeepsUnlostAt(t, changes, q);
    }
  }

  /**
   * Exactly when the two agree, whatever paths repeat: what git accepts is the validated overlay if and
   * only if nothing the overlay holds is used as a directory after it was last added.
   */
  lemma {:induction false} CommittedIsOverlayIff(t: Tree, changes: seq<Change>)
    requires BuildTree(t, changes).Some?
    ensures BuildTree(t, changes).value == Overlay(t, changes) <==> NothingLost(t, changes)
  {
    hide Lost;
    var built, overlay := BuildTree(t, changes).value, Overlay(t, changes);
    BuildKeepsUnlost(t, changes);
    if NothingLost(t, changes) {
      forall q ensures (q in built <==> q in overlay) && (q in built ==> built[q] == overlay[q]) {
        assert KeptAt(t, changes, built, q);
      }
    } else {
      var q :| q in overlay && Lost(changes, q);
      assert KeptAt(t, changes, built, q);
    }
  }

  /** When each path is named once, the overlay itself shows it: they agree if and only if it uses no file as a directory. */
  lemma {:induction false} UnrepeatedIsOverlayIff(t: Tree, changes: seq<Change>)
    requires NoShadow(t.Keys) && Distinct(ChangePaths(changes)) && BuildTree(t, changes).Some?
    ensures BuildTree(t, changes).value == Overlay(t, changes) <==> NoShadow(Overlay(t, changes).Keys)
  {
    CommittedIsOverlayIff(t, changes);
    BuildKeepsTreesWellFormed(t, changes);
    if NoShadow(Overlay(t, changes).Keys) {
      forall q | q in Overlay(t, changes) ensures !Lost(changes, q) {
        if i :| LostAt(changes, q, i) {
          assert forall j :: 0 <= j < |changes| ==> ChangePaths(changes)[j] == changes[j].path;
          LastChangeWins(t, changes, i);
          assert false;
        }
      }
    }
  }

  /** A change list that adds a file below an existing file: the overlay keeps both, git keeps one. */
  lemma ShadowedOverlayDiffers()
    ensures
      var t: Tree, changes := map["a" := "x"], [Change("a/b", Some("y"))];
      Overlay(t, changes) == map["a" := "x", "a/b" := "y"] && BuildTree(t, changes) == Some(map["a/b" := "y"])
  {
    var t: Tree, changes := map["a" := "x"], [Change("a/b", Some("y"))];
    assert changes[..0] == [] && Overlay(t, []) == t && BuildTree(t, []) == Some(t);
    assert DirPrefix("a", "a/b");
    assert WithoutShadowing(t, "a/b") == map[];
    assert Overlay(t, changes) == t["a/b" := "y"];
  }

  // ---- Diffs ---------------------------------------------------------------------------------

  predicate Differs(a: Tree, b: Tree, p: Path) {
    (p in a) != (p in b) || (p in a && p in b && a[p] != b[p])
  }

  /**
   * `git diff --name-status` without rename detection: every differing path once. Of git's ordering
   * only one consequence matters: a directory's own name comes before what is inside it.
   */
  ghost predicate IsDiff(a: Tree, b: Tree, paths: seq<Path>) {
    && Distinct(paths)
    && (forall p :: p in paths <==> Differs(a, b, p))
    && (forall i, j :: 0 <= i < j < |paths| ==> !DirPrefix(paths[j], paths[i]))
  }

  /** The change list that replays a diff towards `b`. */
  function Replay(b: Tree, paths: seq<Path>): seq<Change> {
    seq(|paths|, i requires 0 <= i < |paths| => Change(paths[i], if paths[i] in b then Some(b[paths[i]]) else None))
  }

  lemma Shortest(s: set<Path>) returns (p: Path)
    requires s != {}
    ensures p in s && forall q :: q in s ==> |p| <= |q|
  {
    p :| p in s;
    if s != {p} {
      var q := Shortest(s - {p});
      if |q| < |p| { p := q; }
    }
  }

  method Diff(a: Tree, b: Tree) returns (paths: seq<Path>)
    ensures IsDiff(a, b, paths)
  {
    var left := set p | p in a.Keys + b.Keys && Differs(a, b, p);
    paths := [];
    while left != {}
      invariant Distinct(paths)
      invariant forall p :: p in paths || p in left <==> Differs(a, b, p)
      invariant forall p :: p in paths ==> p !in left
      invariant forall i, j :: 0 <= i < j < |paths| ==> !DirPrefix(paths[j], paths[i])
      invariant forall p, q :: p in paths && q in left ==> !DirPrefix(q, p)
      decreases |left|
    {
      ghost var s := Shortest(left);
      assert forall q :: q in left ==> !DirPrefix(q, s);
      var p :| p in left && forall q :: q in left ==> !DirPrefix(q, p);
      left := left - {p};
      paths := paths + [p];
    }
  }

  /** `a` with the paths in `done` already taken from `b`. */
  ghost function Mixed(a: Tree, b: Tree, done: set<Path>): Tree {
    map p | p in a.Keys + b.Keys && (if p in done then p in b else p in a) :: if p in done then b[p] else a[p]
  }

  /** What a branch changed since `base`, put over another tree. */
  ghost function Rebased(onto: Tree, base: Tree, head: Tree): Tree {
    Mixed(onto, head, set p | p in base.Keys + head.Keys && Differs(base, head, p))
  }

  /** Overlaying a branch's replayed diff on any tree takes from the head exactly the paths the branch changed. */
  lemma {:induction false} ReplayRebases(onto: Tree, base: Tree, head: Tree, paths: seq<Path>)
    requires IsDiff(base, head, paths)
    ensures Overlay(onto, Replay(head, paths)) == Rebased(onto, base, head)
  {
    ReplayMixes(onto, head, paths);
    assert Elements(paths) == set p | p in base.Keys + head.Keys && Differs(base, head, p);
  }

  lemma {:induction false} ReplayMixes(onto: Tree, head: Tree, paths: seq<Path>)
    ensures Overlay(onto, Replay(head, paths)) == Mixed(onto, head, Elements(paths))
  {
    if paths == [] {
      assert Mixed(onto, head, {}) == onto;
    } else {
      var init, p := paths[..|paths| - 1], paths[|paths| - 1];
      ReplayMixes(onto, head, init);
      assert Replay(head, paths)[..|init|] == Replay(head, init);
      assert Elements(paths) == Elements(init) + {p};
      MixedAdvances(onto, head, Elements(init), p);
    }
  }

  /** A file of `b` sits where `a` has a directory. */
  ghost predicate FileOverDirectory(a: Tree, b: Tree) {
    exists p, q :: p in b && q in a && DirPrefix(p, q)
  }

  lemma MixedAdvances(a: Tree, b: Tree, done: set<Path>, p: Path)
    ensures p in b ==> Mixed(a, b, done + {p}) == Mixed(a, b, done)[p := b[p]]
    ensures p !in b ==> Mixed(a, b, done + {p}) == Mixed(a, b, done) - {p}
  {
  }

  /** While a diff is replayed in order, nothing in the index shadows the path being added. */
  lemma NothingShadows(a: Tree, b: Tree, paths: seq<Path>, i: nat, q: Path)
    requires NoShadow(a.Keys) && NoShadow(b.Keys) && IsDiff(a, b, paths) && i < |paths| && paths[i] in b
    requires q in a ==> !DirPrefix(paths[i], q)
    requires q in Mixed(a, b, Elements(paths[..i]))
    ensures !DirPrefix(q, paths[i]) && !DirPrefix(paths[i], q)
  {
    if q !in b {
      assert Differs(a, b, q);
    }
  }

  lemma ReplayOne(a: Tree, b: Tree, paths: seq<Path>, i: nat)
    requires NoShadow(a.Keys) && NoShadow(b.Keys) && IsDiff(a, b, paths) && i < |paths|
    requires forall q :: q in a && paths[i] in b ==> !DirPrefix(paths[i], q)
    ensures Indexed(Mixed(a, b, Elements(paths[..i])), Replay(b, paths)[i]) == Some(Mixed(a, b, Elements(paths[..i + 1])))
  {
    var done, p := Elements(paths[..i]), paths[i];
    var t := Mixed(a, b, done);
    assert paths[..i + 1] == paths[..i] + [p];
    assert Elements(paths[..i + 1]) == done + {p};
    MixedAdvances(a, b, done, p);
    if p in b {
      forall q | q in t ensures !DirPrefix(q, p) && !DirPrefix(p, q) {
        NothingShadows(a, b, paths, i, q);
      }
      assert WithoutShadowing(t, p) == t;
    }
  }

  lemma {:induction false} ReplayPrefix(a: Tree, b: Tree, paths: seq<Path>, i: nat)
    requires NoShadow(a.Keys) && NoShadow(b.Keys) && IsDiff(a, b, paths) && i <= |paths|
    requires forall k, q :: 0 <= k < i && q in a && paths[k] in b ==> !DirPrefix(paths[k], q)
    ensures BuildTree(a, Replay(b, paths)[..i]) == Some(Mixed(a, b, Elements(paths[..i])))
  {
    var changes := Replay(b, paths);
    if i == 0 {
      assert Elements(paths[..0]) == {};
      assert Mixed(a, b, {}) == a;
    } else {
      ReplayPrefix(a, b, paths, i - 1);
      ReplayOne(a, b, paths, i - 1);
      assert changes[..i][..i - 1] == changes[..i - 1];
    }
  }

  lemma {:induction false} BuildStaysRefused(t: Tree, changes: seq<Change>, i: nat)
    requires i <= |changes| && BuildTree(t, changes[..i]) == None
    ensures BuildTree(t, changes) == None
    decreases |changes| - i
  {
    if i < |changes| {
      assert changes[..i + 1][..i] == changes[..i];
      BuildStaysRefused(t, changes, i + 1);
    } else {
      assert changes[..i] == changes;
    }
  }

  lemma {:induction false} ClashRefused(a: Tree, b: Tree, paths: seq<Path>, k: nat)
    requires NoShadow(a.Keys) && NoShadow(b.Keys) && IsDiff(a, b, paths)
    requires k < |paths| && paths[k] in b && exists q :: q in a && DirPrefix(paths[k], q)
    requires forall j, q :: 0 <= j < k && q in a && paths[j] in b ==> !DirPrefix(paths[j], q)
    ensures BuildTree(a, Replay(b, paths)) == None
  {
    var changes, p := Replay(b, paths), paths[k];
    ReplayPrefix(a, b, paths, k);
    var t, q := Mixed(a, b, Elements(paths[..k])), var q :| q in a && DirPrefix(p, q); q;
    assert q !in paths[..k];
    assert q in WithoutShadowing(t, p);
    assert Indexed(t, changes[k]) == None;
    hide Mixed, Replay, Indexed, IsDiff, NoShadow;
    assert changes[..k + 1][..k] == changes[..k] && changes[..k + 1][k] == changes[k];
    BuildStaysRefused(a, changes, k + 1);
  }

  /**
   * Replaying diff(a, b) over a gives exactly b, unless b has a file where a has a directory: then git
   * refuses the replay. (The comment above the index builder promises both directions of shadowing;
   * only "a directory where a file was" is cleared.)
   */
  lemma ReplayGivesTarget(a: Tree, b: Tree, paths: seq<Path>)
    requires NoShadow(a.Keys) && NoShadow(b.Keys) && IsDiff(a, b, paths)
    ensures BuildTree(a, Replay(b, paths)) == if FileOverDirectory(a, b) then None else Some(b)
  {
    if FileOverDirectory(a, b) {
      var p, q :| p in b && q in a && DirPrefix(p, q);
      assert Differs(a, b, p);
      var k0 :| 0 <= k0 < |paths| && paths[k0] == p;
      var k := FirstClash(a, b, paths, k0);
      ClashRefused(a, b, paths, k);
    } else {
      ReplayPrefix(a, b, paths, |paths|);
      assert Replay(b, paths)[..|paths|] == Replay(b, paths) && paths[..|paths|] == paths;
      assert Mixed(a, b, Elements(paths)) == b;
    }
  }

  lemma {:induction false} FirstClash(a: Tree, b: Tree, paths: seq<Path>, k0: nat) returns (k: nat)
    requires k0 < |paths| && paths[k0] in b && exists q :: q in a && DirPrefix(paths[k0], q)
    ensures k < |paths| && paths[k] in b && exists q :: q in a && DirPrefix(paths[k], q)
    ensures forall j, q :: 0 <= j < k && q in a && paths[j] in b ==> !DirPrefix(paths[j], q)
  {
    if j, q :| 0 <= j < k0 && q in a && paths[j] in b && DirPrefix(paths[j], q) {
      k := FirstClash(a, b, paths, j);
    } else {
      k := k0;
    }
  }
}
