/** Nested circuit runs: a stack of sessions, each waiting at a sub-circuit step of the one below. */
module CircuitRuns {
  import opened Basics
  import opened Walks
  import opened Circuits

  /** A session standing at one step of one circuit. */
  datatype Frame = Frame(circuit: Uid, step: string)

  /**
   * `Leaving`: the innermost session completed through `exit`; its parents still wait.
   * `Stuck`: the router looked something up and found nothing.
   */
  datatype Run =
    | At(stack: seq<Frame>)
    | Leaving(parents: seq<Frame>, circuit: Uid, exit: string)
    | Done(circuit: Uid, exit: string)
    | Stuck

  function FindStep(steps: seq<Step>, id: string): (r: Option<Step>)
    ensures r.Some? ==> r.value in steps && r.value.id == id
    ensures r == None ==> forall s :: s in steps ==> s.id != id
  {
    if steps == [] then None else if steps[0].id == id then Some(steps[0]) else FindStep(steps[1..], id)
  }

  function FindExit(exits: seq<StepExit>, name: string): (r: Option<StepExit>)
    ensures r.Some? ==> r.value in exits && r.value.name == name
    ensures r == None ==> forall x :: x in exits ==> x.name != name
  {
    if exits == [] then None else if exits[0].name == name then Some(exits[0]) else FindExit(exits[1..], name)
  }

  /** The definition and step a frame stands for. */
  function Locate(m: Model, f: Frame): Option<(Circuit, Step)> {
    if f.circuit in m && m[f.circuit].CircuitDef? then
      match FindStep(m[f.circuit].circuit.steps, f.step)
      case Some(s) => Some((m[f.circuit].circuit, s))
      case None => None
    else None
  }

  /** Leave the step on top of the stack through the named exit. */
  function Route(m: Model, parents: seq<Frame>, top: Frame, name: string): Run {
    match Locate(m, top)
    case None => Stuck
    case Some((c, s)) =>
      match FindExit(s.exits, name)
      case None => Stuck
      case Some(ex) =>
        if IsCircuitExit(ex.to) then
          if ExitName(ex.to) in c.exits then Leaving(parents, top.circuit, ExitName(ex.to)) else Stuck
        else if FindStep(c.steps, ex.to) == None then Stuck
        else At(parents + [Frame(top.circuit, ex.to)])
  }

  /** Start the child session of a sub-circuit step. */
  function Enter(m: Model, stack: seq<Frame>, child: Uid): Run {
    if child in m && m[child].CircuitDef? && FindStep(m[child].circuit.steps, m[child].circuit.entry).Some?
    then At(stack + [Frame(child, m[child].circuit.entry)])
    else Stuck
  }

  /** Hand a child's exit to the step that started it. */
  function Resume(m: Model, parents: seq<Frame>, circuit: Uid, exit: string): Run {
    if parents == [] then Done(circuit, exit)
    else
      var top := parents[|parents| - 1];
      match Locate(m, top)
      case None => Stuck
      case Some((_, s)) =>
        if s.kind.SubCircuit? then Route(m, parents[..|parents| - 1], top, Renamed(s, exit)) else Stuck
  }

  /** One move of a run; an ordinary step may leave through any exit it declares. */
  ghost predicate Next(m: Model, r: Run, r': Run) {
    match r
    case At(stack) =>
      |stack| > 0 &&
      var top, parents := stack[|stack| - 1], stack[..|stack| - 1];
      (match Locate(m, top)
       case None => r' == Stuck
       case Some((_, s)) =>
         if s.kind.SubCircuit? then r' == Enter(m, stack, s.kind.circuit)
         else exists x :: x in s.exits && r' == Route(m, parents, top, x.name))
    case Leaving(parents, circuit, exit) => r' == Resume(m, parents, circuit, exit)
    case Done(_, _) => false
    case Stuck => false
  }

  ghost function Moves(m: Model): (Run, Run) -> bool {
    (a, b) => Next(m, a, b)
  }

  // ---- Safety --------------------------------------------------------------------------------

  ghost predicate Waits(m: Model, f: Frame, child: Uid) {
    Locate(m, f).Some? && Locate(m, f).value.1.kind.SubCircuit? && Locate(m, f).value.1.kind.circuit == child
  }

  ghost predicate Linked(m: Model, stack: seq<Frame>) {
    && (forall i :: 0 <= i < |stack| ==> Locate(m, stack[i]).Some?)
    && (forall i :: 0 <= i < |stack| - 1 ==> Waits(m, stack[i], stack[i + 1].circuit))
  }

  ghost predicate ExitOf(m: Model, u: Uid, e: string) {
    u in m && m[u].CircuitDef? && e in m[u].circuit.exits
  }

  /** Where a run started in circuit `root` can be. */
  ghost predicate Sound(m: Model, root: Uid, r: Run) {
    match r
    case At(stack) => |stack| > 0 && Linked(m, stack) && stack[0].circuit == root
    case Leaving(parents, u, e) =>
      && Linked(m, parents) && ExitOf(m, u, e)
      && (if parents == [] then u == root else parents[0].circuit == root && Waits(m, parents[|parents| - 1], u))
    case Done(u, e) => u == root && ExitOf(m, u, e)
    case Stuck => false
  }

  lemma NoIssue(m: Model, u: Uid, s: Step, e: Issue)
    requires StrictlyValid(m) && u in m && m[u].CircuitDef? && s in m[u].circuit.steps
    ensures !StepIssue(m, m[u].circuit, s, e) && !CircuitIssue(m[u].circuit, e)
  {
    assert !ModelIssue(m, u, e);
  }

  /** An exit a step declares always leads somewhere. */
  lemma RouteSound(m: Model, root: Uid, parents: seq<Frame>, top: Frame, name: string)
    requires StrictlyValid(m) && Sound(m, root, At(parents + [top]))
    requires Locate(m, top).Some? && name in ExitNames(Locate(m, top).value.1)
    ensures Sound(m, root, Route(m, parents, top, name))
  {
    var stack := parents + [top];
    assert stack[|parents|] == top;
    var (c, s) := Locate(m, top).value;
    var k :| 0 <= k < |s.exits| && ExitNames(s)[k] == name;
    assert s.exits[k] in s.exits;
    var ex := FindExit(s.exits, name).value;
    var a :| 0 <= a < |s.exits| && s.exits[a] == ex;
    NoIssue(m, top.circuit, s, UndeclaredExit(s.id, name));
    NoIssue(m, top.circuit, s, UnknownStep(s.id, name));
    assert !ExitIssueAt(c, s, a, UndeclaredExit(s.id, name));
    assert !ExitIssueAt(c, s, a, UnknownStep(s.id, name));
    assert forall i :: 0 <= i < |parents| ==> parents[i] == stack[i];
  }

  lemma EnterSound(m: Model, root: Uid, stack: seq<Frame>)
    requires StrictlyValid(m) && Sound(m, root, At(stack))
    requires Locate(m, stack[|stack| - 1]).value.1.kind.SubCircuit?
    ensures Sound(m, root, Enter(m, stack, Locate(m, stack[|stack| - 1]).value.1.kind.circuit))
  {
    var top := stack[|stack| - 1];
    var s := Locate(m, top).value.1;
    assert !ModelIssue(m, top.circuit, DanglingCircuit(s.id));
    assert !ModelIssue(m, s.kind.circuit, EntryNotAStep);
  }

  lemma ResumeSound(m: Model, root: Uid, parents: seq<Frame>, u: Uid, e: string)
    requires StrictlyValid(m) && Sound(m, root, Leaving(parents, u, e))
    ensures Sound(m, root, Resume(m, parents, u, e))
  {
    if parents != [] {
      var top, below := parents[|parents| - 1], parents[..|parents| - 1];
      assert parents == below + [top];
      var s, child := Locate(m, top).value.1, m[u].circuit;
      var k :| 0 <= k < |child.exits| && child.exits[k] == e;
      assert Mapped(s, child)[k] == Renamed(s, e);
      NoIssue(m, top.circuit, s, MissingExit(s.id, Renamed(s, e)));
      RouteSound(m, root, below, top, Renamed(s, e));
    }
  }

  /** A strictly valid tree never lets a run take a wrong turn. */
  lemma MoveSound(m: Model, root: Uid, r: Run, r': Run)
    requires StrictlyValid(m) && Sound(m, root, r) && Next(m, r, r')
    ensures Sound(m, root, r')
  {
    match r
    case At(stack) =>
      var top, parents := stack[|stack| - 1], stack[..|stack| - 1];
      assert stack == parents + [top];
      var s := Locate(m, top).value.1;
      if s.kind.SubCircuit? {
        EnterSound(m, root, stack);
      } else {
        var x :| x in s.exits && r' == Route(m, parents, top, x.name);
        var k :| 0 <= k < |s.exits| && s.exits[k] == x;
        assert ExitNames(s)[k] == x.name;
        RouteSound(m, root, parents, top, x.name);
      }
    case Leaving(parents, u, e) => ResumeSound(m, root, parents, u, e);
    case Done(_, _) =>
    case Stuck =>
  }

  ghost predicate Starts(m: Model, root: Uid, r: Run) {
    root in m && m[root].CircuitDef? && r == At([Frame(root, m[root].circuit.entry)])
  }

  /**
   * Nested circuits never route into nothing: however deep the nesting and whichever declared exits
   * the steps choose, no lookup fails, and a run that ends does so through a declared exit of its circuit.
   */
  lemma RunsNeverStuck(m: Model, root: Uid, run: seq<Run>)
    requires StrictlyValid(m) && IsWalk(Moves(m), run) && Starts(m, root, run[0])
    ensures forall i :: 0 <= i < |run| ==> Sound(m, root, run[i]) && run[i] != Stuck
  {
    assert !ModelIssue(m, root, EntryNotAStep);
    var sound := iset r | Sound(m, root, r);
    forall r, r' | r in sound && Moves(m)(r, r')
      ensures r' in sound
    {
      MoveSound(m, root, r, r');
    }
    StaysInside(Moves(m), sound, run);
  }

  /** The document schema gives every step at least one exit. */
  ghost predicate StepsHaveExits(m: Model) {
    forall u, s :: u in m && m[u].CircuitDef? && s in m[u].circuit.steps ==> s.exits != []
  }

  /** A run that has not finished can always move. */
  lemma RunsProgress(m: Model, root: Uid, r: Run)
    requires StepsHaveExits(m) && Sound(m, root, r) && !r.Done?
    ensures exists r' :: Next(m, r, r')
  {
    match r
    case At(stack) =>
      var top, parents := stack[|stack| - 1], stack[..|stack| - 1];
      var (c, s) := Locate(m, top).value;
      if s.kind.SubCircuit? {
        assert Next(m, r, Enter(m, stack, s.kind.circuit));
      } else {
        assert s.exits[0] in s.exits;
        assert Next(m, r, Route(m, parents, top, s.exits[0].name));
      }
    case Leaving(parents, u, e) => assert Next(m, r, Resume(m, parents, u, e));
    case Done(_, _) =>
    case Stuck =>
  }

  // ---- Every declared exit is live -----------------------------------------------------------

  /** In one circuit: each declared exit is routed to from a step the entry leads to. */
  lemma ExitHasPath(m: Model, u: Uid, e: string) returns (s: Step)
    requires StrictlyValid(m) && ExitOf(m, u, e)
    ensures s in m[u].circuit.steps && RoutesToExit(s, e)
    ensures Reaches(Flow(m[u].circuit), m[u].circuit.entry, s.id)
  {
    assert !ModelIssue(m, u, Unroutable(e));
    s :| s in m[u].circuit.steps && RoutesToExit(s, e);
    assert !ModelIssue(m, u, EntryNotAStep);
    assert !ModelIssue(m, u, Unreachable(s.id));
  }

  /** Step ids and exit names are unique, so lookups by name find the declaration itself. */
  lemma LookupsFind(m: Model, u: Uid, s: Step, k: nat)
    requires StrictlyValid(m) && u in m && m[u].CircuitDef? && s in m[u].circuit.steps && k < |s.exits|
    ensures FindStep(m[u].circuit.steps, s.id) == Some(s)
    ensures FindExit(s.exits, s.exits[k].name) == Some(s.exits[k])
  {
    var c := m[u].circuit;
    NoIssue(m, u, s, DuplicateStep(s.id));
    var other := FindStep(c.steps, s.id).value;
    var i :| 0 <= i < |c.steps| && c.steps[i] == s;
    var j :| 0 <= j < |c.steps| && c.steps[j] == other;
    var name := s.exits[k].name;
    NoIssue(m, u, s, StepExitTwice(s.id, name));
    assert s.exits[k] in s.exits;
    var found := FindExit(s.exits, name).value;
    var a :| 0 <= a < |s.exits| && s.exits[a] == found;
    assert !ExitIssueAt(c, s, a, StepExitTwice(s.id, name));
    assert !ExitIssueAt(c, s, k, StepExitTwice(s.id, name));
  }

  /** Where an exit leads, by its declaration: out of the circuit or to one of its steps, the stack below untouched. */
  function Follow(base: seq<Frame>, u: Uid, x: StepExit): Run {
    if |x.to| >= 6 && x.to[..6] == "$exit." then Leaving(base, u, x.to[6..]) else At(base + [Frame(u, x.to)])
  }

  /** Leaving a step by a name takes the exit declared with that name. */
  lemma RouteFollows(m: Model, base: seq<Frame>, u: Uid, s: Step, k: nat)
    requires StrictlyValid(m) && u in m && m[u].CircuitDef? && s in m[u].circuit.steps && k < |s.exits|
    ensures Route(m, base, Frame(u, s.id), s.exits[k].name) == Follow(base, u, s.exits[k])
  {
    var c, name := m[u].circuit, s.exits[k].name;
    LookupsFind(m, u, s, k);
    NoIssue(m, u, s, UndeclaredExit(s.id, name));
    NoIssue(m, u, s, UnknownStep(s.id, name));
    assert !ExitIssueAt(c, s, k, UndeclaredExit(s.id, name)) && !ExitIssueAt(c, s, k, UnknownStep(s.id, name));
  }

  /** On any tree: routing finds nothing exactly when the step, its exit, or the declared exit or step it leads to is missing. */
  lemma RouteStuckIff(m: Model, base: seq<Frame>, top: Frame, name: string)
    ensures Route(m, base, top, name) == Stuck <==>
            || Locate(m, top) == None
            || FindExit(Locate(m, top).value.1.exits, name) == None
            || (var c, x := Locate(m, top).value.0, FindExit(Locate(m, top).value.1.exits, name).value;
                if "$exit." <= x.to then x.to[6..] !in c.exits else FindStep(c.steps, x.to) == None)
  {
  }

  /**
   * A child's exit continues at exactly one exit of the step that waits for it: the one the exit map names, or
   * the one of its own name when the map is silent.
   */
  lemma ResumeFollows(m: Model, base: seq<Frame>, u: Uid, s: Step, e: string) returns (k: nat)
    requires StrictlyValid(m) && u in m && m[u].CircuitDef? && s in m[u].circuit.steps && s.kind.SubCircuit?
    requires s.kind.circuit in m && m[s.kind.circuit].CircuitDef? && e in m[s.kind.circuit].circuit.exits
    ensures k < |s.exits| && s.exits[k].name == if e in s.kind.exitMap then s.kind.exitMap[e] else e
    ensures Resume(m, base + [Frame(u, s.id)], s.kind.circuit, e) == Follow(base, u, s.exits[k])
    ensures forall j :: 0 <= j < |s.exits| && s.exits[j].name == s.exits[k].name ==> j == k
  {
    var i :| 0 <= i < |m[s.kind.circuit].circuit.exits| && m[s.kind.circuit].circuit.exits[i] == e;
    var name := if e in s.kind.exitMap then s.kind.exitMap[e] else e;
    ExitMapMeans(m, s, i);
    NoIssue(m, u, s, MissingExit(s.id, name));
    k :| 0 <= k < |s.exits| && s.exits[k].name == name;
    LookupsFind(m, u, s, k);
    RouteFollows(m, base, u, s, k);
    hide Route;
    var parents := base + [Frame(u, s.id)];
    assert parents[|parents| - 1] == Frame(u, s.id) && parents[..|parents| - 1] == base;
    forall j | 0 <= j < |s.exits| && s.exits[j].name == name ensures j == k {
      NoIssue(m, u, s, StepExitTwice(s.id, name));
      assert !ExitIssueAt(m[u].circuit, s, j, StepExitTwice(s.id, name)) && !ExitIssueAt(m[u].circuit, s, k, StepExitTwice(s.id, name));
    }
  }

  /** No circuit contains itself, at any depth. */
  ghost predicate WellNested(m: Model, rank: Uid -> nat) {
    forall u, s :: u in m && m[u].CircuitDef? && s in m[u].circuit.steps && s.kind.SubCircuit? ==> rank(s.kind.circuit) < rank(u)
  }

  /** Every exit of a sub-circuit step is the mapped form of an exit of its child. */
  lemma ChildOffers(m: Model, u: Uid, s: Step, k: nat)
    requires StrictlyValid(m) && u in m && m[u].CircuitDef? && s in m[u].circuit.steps && k < |s.exits| && s.kind.SubCircuit?
    ensures var v := s.kind.circuit;
            && v in m && m[v].CircuitDef? && m[v].circuit.entry in StepIds(m[v].circuit)
            && exists j :: 0 <= j < |m[v].circuit.exits| && Renamed(s, m[v].circuit.exits[j]) == s.exits[k].name
  {
    var v, name := s.kind.circuit, s.exits[k].name;
    assert !ModelIssue(m, u, DanglingCircuit(s.id));
    var child := m[v].circuit;
    assert !ModelIssue(m, v, EntryNotAStep);
    NoIssue(m, u, s, ExtraExit(s.id, name));
    assert ExitNames(s)[k] == name;
    var j :| 0 <= j < |child.exits| && Mapped(s, child)[j] == name;
    assert Renamed(s, child.exits[j]) == name;
  }

  lemma {:induction false} LeaveThrough(m: Model, rank: Uid -> nat, base: seq<Frame>, u: Uid, s: Step, k: nat)
    requires StrictlyValid(m) && WellNested(m, rank)
    requires u in m && m[u].CircuitDef? && s in m[u].circuit.steps && k < |s.exits|
    ensures Reaches(Moves(m), At(base + [Frame(u, s.id)]), Route(m, base, Frame(u, s.id), s.exits[k].name))
    decreases rank(u), 0, 0
  {
    hide Reaches, StrictlyValid, Mapped, Child;
    var here, name := Frame(u, s.id), s.exits[k].name;
    var stack := base + [here];
    LookupsFind(m, u, s, k);
    assert stack[..|stack| - 1] == base && stack[|stack| - 1] == here;
    ReachesSelf(Moves(m), At(stack));
    if s.kind.SubCircuit? {
      var v := s.kind.circuit;
      ChildOffers(m, u, s, k);
      var child := m[v].circuit;
      var j :| 0 <= j < |child.exits| && Renamed(s, child.exits[j]) == name;
      var inside := At(stack + [Frame(v, child.entry)]);
      ReachesThen(Moves(m), At(stack), At(stack), inside);
      ExitsTaken(m, rank, stack, v, child.exits[j]);
      ReachesTransitive(Moves(m), At(stack), inside, Leaving(stack, v, child.exits[j]));
      ReachesThen(Moves(m), At(stack), Leaving(stack, v, child.exits[j]), Route(m, base, here, name));
    } else {
      assert s.exits[k] in s.exits;
      ReachesThen(Moves(m), At(stack), At(stack), Route(m, base, here, name));
    }
  }

  lemma {:induction false} WalkThrough(m: Model, rank: Uid -> nat, base: seq<Frame>, u: Uid, p: seq<string>)
    requires StrictlyValid(m) && WellNested(m, rank) && u in m && m[u].CircuitDef?
    requires IsWalk(Flow(m[u].circuit), p)
    ensures Reaches(Moves(m), At(base + [Frame(u, p[0])]), At(base + [Frame(u, p[|p| - 1])]))
    decreases rank(u), 1, |p|
  {
    if |p| == 1 {
      ReachesSelf(Moves(m), At(base + [Frame(u, p[0])]));
    } else {
      var c, q := m[u].circuit, p[..|p| - 1];
      var a, b := q[|q| - 1], p[|p| - 1];
      WalkThrough(m, rank, base, u, q);
      assert Flow(c)(p[|p| - 2], p[|p| - 1]);
      var s := c.steps[LastStep(c, |c.steps|, a).value];
      var k :| 0 <= k < |s.exits| && !IsCircuitExit(s.exits[k].to) && s.exits[k].to == b;
      LookupsFind(m, u, s, k);
      LeaveThrough(m, rank, base, u, s, k);
      ReachesTransitive(Moves(m), At(base + [Frame(u, p[0])]), At(base + [Frame(u, a)]), At(base + [Frame(u, b)]));
    }
  }

  /**
   * When nesting is well-founded, every declared exit of every circuit is the outcome of some run of
   * that circuit, wherever on a stack of waiting sessions it was started.
   */
  lemma {:induction false} ExitsTaken(m: Model, rank: Uid -> nat, base: seq<Frame>, u: Uid, e: string)
    requires StrictlyValid(m) && WellNested(m, rank) && ExitOf(m, u, e)
    ensures Reaches(Moves(m), At(base + [Frame(u, m[u].circuit.entry)]), Leaving(base, u, e))
    decreases rank(u), 2, 0
  {
    var c := m[u].circuit;
    var s := ExitHasPath(m, u, e);
    var p :| WalkFromTo(Flow(c), p, c.entry, s.id);
    WalkThrough(m, rank, base, u, p);
    var k :| 0 <= k < |s.exits| && IsCircuitExit(s.exits[k].to) && ExitName(s.exits[k].to) == e;
    LookupsFind(m, u, s, k);
    LeaveThrough(m, rank, base, u, s, k);
    ReachesTransitive(Moves(m), At(base + [Frame(u, c.entry)]), At(base + [Frame(u, s.id)]), Leaving(base, u, e));
  }

  // ---- Exactly which exits can be taken ------------------------------------------------------

  /**
   * From a step of one circuit, without a stack: some exit the step can be left through routes to the
   * exit `e` of its circuit, or to a step from which `e` is live. `n` bounds the height of the argument.
   */
  ghost predicate LiveFrom(m: Model, n: nat, u: Uid, id: string, e: string)
    decreases n, 0
  {
    n > 0 && LiveThroughSome(m, n - 1, u, id, e)
  }

  ghost predicate LiveThroughSome(m: Model, n: nat, u: Uid, id: string, e: string)
    decreases n, 3
  {
    exists name :: Leaves(m, n, u, id, name) && LeadsTo(m, n, u, id, name, e)
  }

  ghost predicate Live(m: Model, n: nat, u: Uid, e: string)
    decreases n, 1
  {
    u in m && m[u].CircuitDef? && LiveFrom(m, n, u, m[u].circuit.entry, e)
  }

  /** The least solution of the rules: `e` is live in `u` at some height. */
  ghost predicate IsLive(m: Model, u: Uid, e: string) {
    exists n :: Live(m, n, u, e)
  }

  /** An ordinary step leaves through any exit it declares, a sub-circuit step through the live exits of its child. */
  ghost predicate Leaves(m: Model, n: nat, u: Uid, id: string, name: string)
    decreases n, 2
  {
    && Locate(m, Frame(u, id)).Some?
    && var s := Locate(m, Frame(u, id)).value.1;
       if s.kind.SubCircuit? then exists e :: Renamed(s, e) == name && Live(m, n, s.kind.circuit, e)
       else exists x :: x in s.exits && x.name == name
  }

  ghost predicate LeadsTo(m: Model, n: nat, u: Uid, id: string, name: string, e: string)
    decreases n, 2
  {
    match Route(m, [], Frame(u, id), name)
    case At(stack) => LiveFrom(m, n, u, stack[0].step, e)
    case Leaving(_, _, exit) => exit == e
    case _ => false
  }

  lemma LiveIsLocated(m: Model, n: nat, u: Uid, id: string, e: string)
    requires LiveFrom(m, n, u, id, e)
    ensures Locate(m, Frame(u, id)).Some?
  {
    assert LiveThroughSome(m, n - 1, u, id, e);
  }

  lemma {:induction false} LiveGrows(m: Model, n: nat, k: nat, u: Uid, id: string, e: string)
    requires LiveFrom(m, n, u, id, e) && n <= k
    ensures LiveFrom(m, k, u, id, e)
    decreases n, 0
  {
    var name :| Leaves(m, n - 1, u, id, name) && LeadsTo(m, n - 1, u, id, name, e);
    LeavesGrows(m, n - 1, k - 1, u, id, name);
    var r := Route(m, [], Frame(u, id), name);
    if r.At? { LiveGrows(m, n - 1, k - 1, u, r.stack[0].step, e); }
    assert LeadsTo(m, k - 1, u, id, name, e);
  }

  lemma {:induction false} LeavesGrows(m: Model, n: nat, k: nat, u: Uid, id: string, name: string)
    requires Leaves(m, n, u, id, name) && n <= k
    ensures Leaves(m, k, u, id, name)
    decreases n, 1
  {
    var s := Locate(m, Frame(u, id)).value.1;
    if s.kind.SubCircuit? {
      var v := s.kind.circuit;
      var e :| Renamed(s, e) == name && Live(m, n, v, e);
      LiveGrows(m, n, k, v, m[v].circuit.entry, e);
      assert Live(m, k, v, e);
    }
  }

  /** Routing does not look below the top of the stack. */
  lemma RouteShifts(m: Model, base: seq<Frame>, top: Frame, name: string)
    ensures
      var r := Route(m, [], top, name);
      && !r.Done? && (r.At? ==> |r.stack| == 1 && r.stack[0].circuit == top.circuit)
      && (r.Leaving? ==> r.parents == [] && r.circuit == top.circuit)
      && Route(m, base, top, name) ==
         if r.At? then At(base + r.stack) else if r.Leaving? then Leaving(base, r.circuit, r.exit) else Stuck
  {
    assert [Frame(top.circuit, "")] == [] + [Frame(top.circuit, "")];
  }

  lemma {:induction false} LiveIsTaken(m: Model, n: nat, base: seq<Frame>, u: Uid, id: string, e: string)
    requires LiveFrom(m, n, u, id, e)
    ensures Reaches(Moves(m), At(base + [Frame(u, id)]), Leaving(base, u, e))
    decreases n, 0
  {
    hide Reaches;
    var here := Frame(u, id);
    var name :| Leaves(m, n - 1, u, id, name) && LeadsTo(m, n - 1, u, id, name, e);
    LeavesIsTaken(m, n - 1, base, u, id, name);
    RouteShifts(m, base, here, name);
    var r := Route(m, [], here, name);
    if r.At? {
      LiveIsTaken(m, n - 1, base, u, r.stack[0].step, e);
      assert r.stack == [Frame(u, r.stack[0].step)];
      ReachesTransitive(Moves(m), At(base + [here]), At(base + r.stack), Leaving(base, u, e));
    }
  }

  lemma {:induction false} LeavesIsTaken(m: Model, n: nat, base: seq<Frame>, u: Uid, id: string, name: string)
    requires Leaves(m, n, u, id, name)
    ensures Reaches(Moves(m), At(base + [Frame(u, id)]), Route(m, base, Frame(u, id), name))
    decreases n, 1
  {
    hide Reaches, Route;
    var here := Frame(u, id);
    var stack, s := base + [here], Locate(m, here).value.1;
    assert stack[..|stack| - 1] == base && stack[|stack| - 1] == here;
    ReachesSelf(Moves(m), At(stack));
    if s.kind.SubCircuit? {
      var v := s.kind.circuit;
      var e :| Renamed(s, e) == name && Live(m, n, v, e);
      var inside := At(stack + [Frame(v, m[v].circuit.entry)]);
      LiveIsLocated(m, n, v, m[v].circuit.entry, e);
      ReachesThen(Moves(m), At(stack), At(stack), inside);
      LiveIsTaken(m, n, stack, v, m[v].circuit.entry, e);
      ReachesTransitive(Moves(m), At(stack), inside, Leaving(stack, v, e));
      ReachesThen(Moves(m), At(stack), Leaving(stack, v, e), Route(m, base, here, name));
    } else {
      ReachesThen(Moves(m), At(stack), At(stack), Route(m, base, here, name));
    }
  }

  /** The run has not returned to the sessions in `base`. */
  ghost predicate Above(base: seq<Frame>, r: Run) {
    match r
    case At(stack) => base < stack
    case Leaving(parents, _, _) => base <= parents
    case _ => false
  }

  ghost predicate AllAbove(base: seq<Frame>, run: seq<Run>) {
    forall i :: 0 <= i < |run| ==> Above(base, run[i])
  }

  /** A run comes above `base` only by entering a child of its top, and drops below only by leaving one. */
  lemma AboveByEntering(m: Model, base: seq<Frame>, r: Run, r': Run)
    requires Next(m, r, r') && !Above(base, r) && Above(base, r')
    ensures exists v :: v in m && m[v].CircuitDef? && r' == At(base + [Frame(v, m[v].circuit.entry)])
  {
  }

  lemma BelowByLeaving(m: Model, base: seq<Frame>, r: Run, r': Run)
    requires base != [] && Next(m, r, r') && Above(base, r) && !Above(base, r')
    ensures r' == Stuck || (r.Leaving? && r.parents == base && r' == Resume(m, base, r.circuit, r.exit))
  {
    hide Route;
    match r
    case At(stack) =>
      var top, parents := stack[|stack| - 1], stack[..|stack| - 1];
      forall name { RouteShifts(m, parents, top, name); }
    case Leaving(parents, _, _) =>
      if parents != base {
        var top, below := parents[|parents| - 1], parents[..|parents| - 1];
        assert base <= below;
        forall name { RouteShifts(m, below, top, name); }
        assert r' == Stuck || exists name :: r' == Route(m, below, top, name);
      }
    case _ =>
  }

  lemma {:induction false} FirstBelow(m: Model, base: seq<Frame>, run: seq<Run>) returns (j: nat)
    requires IsWalk(Moves(m), run) && Above(base, run[0]) && !Above(base, run[|run| - 1])
    ensures 0 < j < |run| && !Above(base, run[j]) && AllAbove(base, run[..j])
  {
    j := 1;
    while Above(base, run[j])
      invariant 0 < j < |run| && AllAbove(base, run[..j])
      decreases |run| - j
    {
      j := j + 1;
    }
  }

  lemma TailIsWalk(m: Model, run: seq<Run>, i: nat, j: nat)
    requires IsWalk(Moves(m), run) && i < j <= |run|
    ensures IsWalk(Moves(m), run[i..j])
  {
    forall k | 0 <= k < j - i - 1 ensures Moves(m)(run[i..j][k], run[i..j][k + 1]) {
      assert Moves(m)(run[i + k], run[i + k + 1]);
    }
  }

  /** A run that stays above `base` until it leaves a session on it shows how that session's exit is live. */
  lemma {:induction false} TakenIsLive(m: Model, base: seq<Frame>, v: Uid, id: string, run: seq<Run>, u: Uid, e: string) returns (n: nat)
    requires IsWalk(Moves(m), run) && AllAbove(base, run)
    requires run[0] == At(base + [Frame(v, id)]) && run[|run| - 1] == Leaving(base, u, e)
    ensures u == v && LiveFrom(m, n, v, id, e)
    decreases |run|, 1
  {
    hide LiveFrom, Route, Enter;
    var here := Frame(v, id);
    var stack := base + [here];
    assert stack[..|stack| - 1] == base && stack[|stack| - 1] == here;
    assert Moves(m)(run[0], run[1]) && Above(base, run[1]);
    var s := Locate(m, here).value.1;
    if s.kind.SubCircuit? {
      var j, k := ChildReturns(m, base, here, run, u, e);
      TailIsWalk(m, run, j, |run|);
      assert run[j..|run|] == run[j..];
      n := AfterLeaving(m, base, v, id, Renamed(s, run[j - 1].exit), k, run[j..], u, e);
    } else {
      var x :| x in s.exits && run[1] == Route(m, base, here, x.name);
      TailIsWalk(m, run, 1, |run|);
      assert run[1..|run|] == run[1..];
      n := AfterLeaving(m, base, v, id, x.name, 0, run[1..], u, e);
    }
  }

  /** The child a sub-circuit step starts is left before the step itself is, through a live exit. */
  lemma {:induction false} ChildReturns(m: Model, base: seq<Frame>, here: Frame, run: seq<Run>, u: Uid, e: string) returns (j: nat, k: nat)
    requires IsWalk(Moves(m), run) && AllAbove(base, run) && Locate(m, here).Some? && Locate(m, here).value.1.kind.SubCircuit?
    requires run[0] == At(base + [here]) && run[|run| - 1] == Leaving(base, u, e)
    ensures 1 < j < |run| && run[j - 1].Leaving?
    ensures var name := Renamed(Locate(m, here).value.1, run[j - 1].exit);
            run[j] == Route(m, base, here, name) && Leaves(m, k, here.circuit, here.step, name)
    decreases |run|, 0
  {
    hide LiveFrom, Route, Renamed;
    var stack, s := base + [here], Locate(m, here).value.1;
    var w := s.kind.circuit;
    assert stack[..|stack| - 1] == base && stack[|stack| - 1] == here;
    assert Moves(m)(run[0], run[1]) && Above(base, run[1]);
    var entered := Frame(w, m[w].circuit.entry);
    TailIsWalk(m, run, 1, |run|);
    assert run[1..|run|] == run[1..] && run[1..][|run| - 2] == run[|run| - 1];
    var below := FirstBelow(m, stack, run[1..]);
    j := below + 1;
    assert Moves(m)(run[j - 1], run[j]) && Above(base, run[j]);
    assert run[1..][..below] == run[1..j] && run[1..j][below - 1] == run[j - 1];
    BelowByLeaving(m, stack, run[j - 1], run[j]);
    TailIsWalk(m, run, 1, j);
    k := TakenIsLive(m, stack, w, entered.step, run[1..j], run[j - 1].circuit, run[j - 1].exit);
    assert Live(m, k, w, run[j - 1].exit);
  }

  lemma {:induction false} AfterLeaving(
    m: Model, base: seq<Frame>, v: Uid, id: string, name: string, k: nat, run: seq<Run>, u: Uid, e: string) returns (n: nat)
    requires IsWalk(Moves(m), run) && AllAbove(base, run) && Leaves(m, k, v, id, name)
    requires run[0] == Route(m, base, Frame(v, id), name) && run[|run| - 1] == Leaving(base, u, e)
    ensures u == v && LiveFrom(m, n, v, id, e)
    decreases |run|, 2
  {
    RouteShifts(m, base, Frame(v, id), name);
    var r := Route(m, [], Frame(v, id), name);
    if r.At? {
      assert r.stack == [Frame(v, r.stack[0].step)];
      var later := TakenIsLive(m, base, v, r.stack[0].step, run, u, e);
      var most := if later < k then k else later;
      LiveGrows(m, later, most, v, r.stack[0].step, e);
      LeavesGrows(m, k, most, v, id, name);
      assert LeadsTo(m, most, v, id, name, e);
      n := most + 1;
    } else {
      if |run| > 1 {
        assert Moves(m)(run[0], run[1]) && Above(base, run[1]);
        NeverBackAbove(m, base, run[0].circuit, run[0].exit);
      }
      assert LeadsTo(m, k, v, id, name, e);
      n := k + 1;
    }
  }

  lemma NeverBackAbove(m: Model, base: seq<Frame>, u: Uid, e: string)
    ensures !Above(base, Resume(m, base, u, e))
  {
  }

  /** The last entry above `base` before a run leaves a session on it. */
  lemma {:induction false} LastEntry(m: Model, base: seq<Frame>, run: seq<Run>) returns (j: nat, v: Uid)
    requires IsWalk(Moves(m), run) && Above(base, run[|run| - 1])
    requires !Above(base, run[0]) || exists v :: v in m && m[v].CircuitDef? && run[0] == At(base + [Frame(v, m[v].circuit.entry)])
    ensures j < |run| && AllAbove(base, run[j..])
    ensures v in m && m[v].CircuitDef? && run[j] == At(base + [Frame(v, m[v].circuit.entry)])
  {
    j := |run| - 1;
    while j > 0 && Above(base, run[j - 1])
      invariant j < |run| && AllAbove(base, run[j..])
    {
      j := j - 1;
    }
    if j > 0 {
      assert Moves(m)(run[j - 1], run[j]);
      AboveByEntering(m, base, run[j - 1], run[j]);
    }
    v :| v in m && m[v].CircuitDef? && run[j] == At(base + [Frame(v, m[v].circuit.entry)]);
  }

  /**
   * Exactly the live exits of a circuit are taken by its runs, wherever on a stack of waiting sessions it
   * was started and whether or not circuits contain one another.
   */
  lemma {:induction false} ExitTakenIff(m: Model, base: seq<Frame>, u: Uid, e: string)
    requires u in m && m[u].CircuitDef?
    ensures Reaches(Moves(m), At(base + [Frame(u, m[u].circuit.entry)]), Leaving(base, u, e)) <==> IsLive(m, u, e)
  {
    var start, end := At(base + [Frame(u, m[u].circuit.entry)]), Leaving(base, u, e);
    if IsLive(m, u, e) {
      var n :| Live(m, n, u, e);
      LiveIsTaken(m, n, base, u, m[u].circuit.entry, e);
    }
    if Reaches(Moves(m), start, end) {
      var run :| WalkFromTo(Moves(m), run, start, end);
      var j, v := LastEntry(m, base, run);
      TailIsWalk(m, run, j, |run|);
      assert run[j..|run|] == run[j..];
      var n := TakenIsLive(m, base, v, m[v].circuit.entry, run[j..], u, e);
      assert Live(m, n, u, e);
    }
  }

  // ---- What the validator does not ask -------------------------------------------------------

  /** A circuit whose entry step starts the circuit itself. */
  ghost predicate EntersItself(m: Model, u: Uid) {
    u in m && m[u].CircuitDef? &&
    var s := FindStep(m[u].circuit.steps, m[u].circuit.entry);
    s.Some? && s.value.kind.SubCircuit? && s.value.kind.circuit == u
  }

  ghost predicate Descending(m: Model, u: Uid, r: Run)
    requires u in m && m[u].CircuitDef?
  {
    r.At? && r.stack != [] && r.stack[|r.stack| - 1] == Frame(u, m[u].circuit.entry)
  }

  /** Such a circuit only ever nests deeper: none of its runs reaches any exit. */
  lemma SelfEntryNeverExits(m: Model, u: Uid, run: seq<Run>)
    requires EntersItself(m, u) && IsWalk(Moves(m), run) && Starts(m, u, run[0])
    ensures forall i :: 0 <= i < |run| ==> run[i].At?
  {
    var inside := iset r | Descending(m, u, r);
    forall r, r' | r in inside && Moves(m)(r, r') ensures r' in inside {
      assert Locate(m, r.stack[|r.stack| - 1]).Some?;
    }
    StaysInside(Moves(m), inside, run);
  }

  const SELF_NESTED := Circuit("go", ["done"], [Step("go", SubCircuit("c", map[]), [StepExit("done", "$exit.done")])])

  /** And the validator accepts it: well-founded nesting is an assumption about trees, not a promise of validation. */
  lemma SelfNestingIsAccepted()
    ensures var m: Model := map["c" := CircuitDef(SELF_NESTED)];
            StrictlyValid(m) && EntersItself(m, "c") && !exists rank: Uid -> nat :: WellNested(m, rank)
  {
    var m: Model := map["c" := CircuitDef(SELF_NESTED)];
    var c, s := SELF_NESTED, SELF_NESTED.steps[0];
    forall e ensures !ModelIssue(m, "c", e) {
      SelfNestedIssueFree(m, e);
    }
    forall rank: Uid -> nat ensures !WellNested(m, rank) {
      assert s in m["c"].circuit.steps && s.kind.SubCircuit?;
    }
  }

  lemma SelfNestedIssueFree(m: Model, e: Issue)
    requires m == map["c" := CircuitDef(SELF_NESTED)]
    ensures !ModelIssue(m, "c", e)
  {
    hide CircuitIssue, StepIssue;
    var c, s := SELF_NESTED, SELF_NESTED.steps[0];
    assert forall x :: x in c.steps ==> x == s;
    SelfNestedCircuitFree(e);
    SelfNestedStepFree(m, e);
    ReachesSelf(Flow(c), "go");
  }

  lemma SelfNestedRoutes()
    ensures RoutesToExit(SELF_NESTED.steps[0], "done")
  {
    var s := SELF_NESTED.steps[0];
    assert s.exits[0].to == "$exit.done" && "$exit.done"[..6] == EXIT_PREFIX && "$exit.done"[6..] == "done";
  }

  lemma SelfNestedCircuitFree(e: Issue)
    ensures !CircuitIssue(SELF_NESTED, e)
  {
    SelfNestedRoutes();
    assert SELF_NESTED.steps[0] in SELF_NESTED.steps;
  }

  lemma SelfNestedStepFree(m: Model, e: Issue)
    requires m == map["c" := CircuitDef(SELF_NESTED)]
    ensures !StepIssue(m, SELF_NESTED, SELF_NESTED.steps[0], e)
  {
    var c, s := SELF_NESTED, SELF_NESTED.steps[0];
    assert Child(m, s) == Some(c);
    assert ExitNames(s) == ["done"] && Mapped(s, c) == ["done"];
    assert "$exit.done"[..6] == EXIT_PREFIX && "$exit.done"[6..] == "done";
  }
}
