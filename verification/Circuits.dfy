/** Circuit definitions and their validator. */
module Circuits {
  import opened Basics
  import opened Walks

  // ---- Definitions ---------------------------------------------------------------------------

  type Uid = string

  datatype StepExit = StepExit(name: string, to: string)
  datatype StepKind = Llm | Code | Gate | SubCircuit(circuit: Uid, exitMap: map<string, string>)
  datatype Step = Step(id: string, kind: StepKind, exits: seq<StepExit>)
  datatype Circuit = Circuit(entry: string, exits: seq<string>, steps: seq<Step>)

  /** Only circuits matter to routing; subagents, tools and MCP servers are `Other`. */
  datatype Definition = CircuitDef(circuit: Circuit) | Other
  type Model = map<Uid, Definition>

  const EXIT_PREFIX := "$exit."

  predicate IsCircuitExit(to: string) {
    |EXIT_PREFIX| <= |to| && to[..|EXIT_PREFIX|] == EXIT_PREFIX
  }

  function ExitName(to: string): string
    requires IsCircuitExit(to)
  {
    to[|EXIT_PREFIX|..]
  }

  function StepIds(c: Circuit): set<string> {
    set s | s in c.steps :: s.id
  }

  function ExitNames(s: Step): seq<string> {
    seq(|s.exits|, i requires 0 <= i < |s.exits| => s.exits[i].name)
  }

  /** The child circuit of a sub-circuit step, when the reference resolves to a circuit. */
  function Child(m: Model, s: Step): Option<Circuit> {
    if s.kind.SubCircuit? && s.kind.circuit in m && m[s.kind.circuit].CircuitDef?
    then Some(m[s.kind.circuit].circuit) else None
  }

  /** `exit_map[e] ?? e`. */
  function Renamed(s: Step, e: string): string
    requires s.kind.SubCircuit?
  {
    if e in s.kind.exitMap then s.kind.exitMap[e] else e
  }

  function Mapped(s: Step, child: Circuit): seq<string>
    requires s.kind.SubCircuit?
  {
    seq(|child.exits|, i requires 0 <= i < |child.exits| => Renamed(s, child.exits[i]))
  }

  // ---- What a report means -------------------------------------------------------------------

  datatype Issue =
    | DuplicateStep(id: string)
    | DuplicateExit(name: string)
    | EntryNotAStep
    | StepExitTwice(step: string, name: string)
    | UndeclaredExit(step: string, name: string)
    | UnknownStep(step: string, name: string)
    | GateLacks(step: string, name: string)
    | ExitMapKey(step: string, key: string)
    | ExitMapCollapses(step: string)
    | MissingExit(step: string, name: string)
    | ExtraExit(step: string, name: string)
    | Unroutable(name: string)
    | Unreachable(id: string)
    | DanglingCircuit(step: string)

  /** The routing issue the exit at position `a` of a step witnesses. */
  ghost predicate ExitIssueAt(c: Circuit, s: Step, a: nat, e: Issue)
    requires a < |s.exits|
  {
    var ex := s.exits[a];
    match e
    case StepExitTwice(id, name) => id == s.id && name == ex.name && exists b :: 0 <= b < a && s.exits[b].name == ex.name
    case UndeclaredExit(id, name) => id == s.id && name == ex.name && IsCircuitExit(ex.to) && ExitName(ex.to) !in c.exits
    case UnknownStep(id, name) => id == s.id && name == ex.name && !IsCircuitExit(ex.to) && ex.to !in StepIds(c)
    case _ => false
  }

  ghost predicate ExitIssue(c: Circuit, s: Step, n: nat, e: Issue)
    requires n <= |s.exits|
  {
    exists a :: 0 <= a < n && ExitIssueAt(c, s, a, e)
  }

  ghost predicate GateIssue(s: Step, e: Issue) {
    e.GateLacks? && e.step == s.id && s.kind.Gate? && (e.name == "approve" || e.name == "changes") && e.name !in ExitNames(s)
  }

  ghost predicate SubCircuitIssue(m: Model, s: Step, e: Issue) {
    Child(m, s).Some? &&
    var child := Child(m, s).value;
    match e
    case ExitMapKey(id, k) => id == s.id && k in s.kind.exitMap && k !in child.exits
    case ExitMapCollapses(id) => id == s.id && !Distinct(Mapped(s, child))
    case MissingExit(id, n) => id == s.id && n in Mapped(s, child) && n !in ExitNames(s)
    case ExtraExit(id, n) => id == s.id && n in ExitNames(s) && n !in Mapped(s, child)
    case _ => false
  }

  ghost predicate StepIssue(m: Model, c: Circuit, s: Step, e: Issue) {
    ExitIssue(c, s, |s.exits|, e) || GateIssue(s, e) || SubCircuitIssue(m, s, e)
  }

  ghost predicate RoutesToExit(s: Step, name: string) {
    exists k :: 0 <= k < |s.exits| && IsCircuitExit(s.exits[k].to) && ExitName(s.exits[k].to) == name
  }

  ghost predicate RoutesToStep(s: Step, id: string) {
    exists k :: 0 <= k < |s.exits| && !IsCircuitExit(s.exits[k].to) && s.exits[k].to == id
  }

  /** The step an id stands for in the adjacency map: the last one declared with it. */
  function LastStep(c: Circuit, n: nat, id: string): (r: Option<nat>)
    requires n <= |c.steps|
    ensures r.Some? ==> r.value < n && c.steps[r.value].id == id
    ensures forall j :: (if r.Some? then r.value + 1 else 0) <= j < n ==> c.steps[j].id != id
  {
    if n == 0 then None else if c.steps[n - 1].id == id then Some(n - 1) else LastStep(c, n - 1, id)
  }

  ghost predicate Adjacent(c: Circuit, a: string, b: string) {
    && b in StepIds(c)
    && LastStep(c, |c.steps|, a).Some?
    && RoutesToStep(c.steps[LastStep(c, |c.steps|, a).value], b)
  }

  ghost function Flow(c: Circuit): (string, string) -> bool {
    (a, b) => Adjacent(c, a, b)
  }

  ghost predicate UnreachableStep(c: Circuit, e: Issue) {
    e.Unreachable? && c.entry in StepIds(c) && e.id in StepIds(c) && !Reaches(Flow(c), c.entry, e.id)
  }

  ghost predicate CircuitIssue(c: Circuit, e: Issue) {
    match e
    case DuplicateStep(id) => exists i, j :: 0 <= i < j < |c.steps| && c.steps[i].id == id && c.steps[j].id == id
    case DuplicateExit(name) => exists i, j :: 0 <= i < j < |c.exits| && c.exits[i] == name && c.exits[j] == name
    case EntryNotAStep => c.entry !in StepIds(c)
    case Unroutable(name) => name in c.exits && forall s :: s in c.steps ==> !RoutesToExit(s, name)
    case _ => false
  }

  /** Everything strict validation of one circuit reports as an error. */
  ghost predicate StrictIssue(m: Model, c: Circuit, e: Issue) {
    CircuitIssue(c, e) || UnreachableStep(c, e) || exists s :: s in c.steps && StepIssue(m, c, s, e)
  }

  // ---- The validator -------------------------------------------------------------------------

  method CheckExits(c: Circuit, s: Step) returns (errors: seq<Issue>, routed: set<string>, next: seq<string>)
    ensures forall e :: e in errors <==> ExitIssue(c, s, |s.exits|, e)
    ensures forall n :: n in routed <==> n in c.exits && RoutesToExit(s, n)
    ensures forall id :: id in next <==> id in StepIds(c) && RoutesToStep(s, id)
  {
    errors, routed, next := [], {}, [];
    var seen: set<string> := {};
    for i := 0 to |s.exits|
      invariant forall n :: n in seen <==> exists a :: 0 <= a < i && s.exits[a].name == n
      invariant forall e :: e in errors <==> ExitIssue(c, s, i, e)
      invariant forall n :: n in routed <==> n in c.exits && exists k :: 0 <= k < i && IsCircuitExit(s.exits[k].to) && ExitName(s.exits[k].to) == n
      invariant forall id :: id in next <==> id in StepIds(c) && exists k :: 0 <= k < i && !IsCircuitExit(s.exits[k].to) && s.exits[k].to == id
    {
      var ex := s.exits[i];
      ghost var before := errors;
      if ex.name in seen {
        errors := errors + [StepExitTwice(s.id, ex.name)];
      }
      seen := seen + {ex.name};
      if IsCircuitExit(ex.to) {
        var name := ExitName(ex.to);
        if name !in c.exits {
          errors := errors + [UndeclaredExit(s.id, ex.name)];
        } else {
          routed := routed + {name};
        }
      } else if ex.to !in StepIds(c) {
        errors := errors + [UnknownStep(s.id, ex.name)];
      } else {
        next := next + [ex.to];
      }
      assert forall e :: e in errors <==> e in before || ExitIssueAt(c, s, i, e);
      ExitIssueGrows(c, s, i);
    }
  }

  lemma ExitIssueGrows(c: Circuit, s: Step, i: nat)
    requires i < |s.exits|
    ensures forall e :: ExitIssue(c, s, i + 1, e) <==> ExitIssue(c, s, i, e) || ExitIssueAt(c, s, i, e)
  {
  }

  method CheckExitMap(s: Step, child: Circuit) returns (errors: seq<Issue>)
    requires s.kind.SubCircuit?
    ensures forall e :: e in errors <==> e.ExitMapKey? && e.step == s.id && e.key in s.kind.exitMap && e.key !in child.exits
  {
    errors := [];
    var keys := s.kind.exitMap.Keys;
    while keys != {}
      invariant keys <= s.kind.exitMap.Keys
      invariant forall e :: e in errors <==> e.ExitMapKey? && e.step == s.id && e.key in s.kind.exitMap.Keys - keys && e.key !in child.exits
      decreases |keys|
    {
      var k :| k in keys;
      if k !in child.exits {
        errors := errors + [ExitMapKey(s.id, k)];
      }
      keys := keys - {k};
    }
  }

  /** The names of `xs` that `ys` lacks. */
  method NamesMissing(xs: seq<string>, ys: seq<string>) returns (out: seq<string>)
    ensures forall n :: n in out <==> n in xs && n !in ys
  {
    out := [];
    for i := 0 to |xs|
      invariant forall n :: n in out <==> n in xs[..i] && n !in ys
    {
      if xs[i] !in ys {
        out := out + [xs[i]];
      }
      assert xs[..i + 1] == xs[..i] + [xs[i]];
    }
    assert xs[..|xs|] == xs;
  }

  /** The step must route exactly the mapped exits of its child. */
  method CheckExitSets(s: Step, mapped: seq<string>) returns (errors: seq<Issue>)
    ensures forall e :: e in errors <==>
      || (e.MissingExit? && e.step == s.id && e.name in mapped && e.name !in ExitNames(s))
      || (e.ExtraExit? && e.step == s.id && e.name in ExitNames(s) && e.name !in mapped)
  {
    errors := [];
    var missing := NamesMissing(mapped, ExitNames(s));
    var extra := NamesMissing(ExitNames(s), mapped);
    for i := 0 to |missing|
      invariant forall e :: e in errors <==> e.MissingExit? && e.step == s.id && e.name in missing[..i]
    {
      errors := errors + [MissingExit(s.id, missing[i])];
    }
    for i := 0 to |extra|
      invariant forall e :: e in errors <==>
        || (e.MissingExit? && e.step == s.id && e.name in missing)
        || (e.ExtraExit? && e.step == s.id && e.name in extra[..i])
    {
      errors := errors + [ExtraExit(s.id, extra[i])];
    }
  }

  method CheckSubCircuit(m: Model, s: Step) returns (errors: seq<Issue>)
    ensures forall e :: e in errors <==> SubCircuitIssue(m, s, e)
  {
    errors := [];
    if Child(m, s) == None {
      return;
    }
    var child := Child(m, s).value;
    errors := CheckExitMap(s, child);
    var mapped := Mapped(s, child);
    CardinalityTellsDistinct(mapped);
    if |Elements(mapped)| != |mapped| {
      errors := errors + [ExitMapCollapses(s.id)];
    }
    var unmatched := CheckExitSets(s, mapped);
    errors := errors + unmatched;
  }

  /** Some exit of the step has the name. */
  ghost predicate Declares(s: Step, name: string) {
    exists k :: 0 <= k < |s.exits| && s.exits[k].name == name
  }

  /**
   * What the exit map does to the reports, told by the map itself: an exit of the child is expected under the
   * name the map gives it, or under its own; nothing else may be declared; and no two may be expected alike.
   */
  lemma ExitMapMeans(m: Model, s: Step, i: nat)
    requires s.kind.SubCircuit? && s.kind.circuit in m && m[s.kind.circuit].CircuitDef?
    requires i < |m[s.kind.circuit].circuit.exits|
    ensures
      var e, exitMap := m[s.kind.circuit].circuit.exits[i], s.kind.exitMap;
      && (e in exitMap ==>
            && (SubCircuitIssue(m, s, MissingExit(s.id, exitMap[e])) <==> !Declares(s, exitMap[e]))
            && !SubCircuitIssue(m, s, ExtraExit(s.id, exitMap[e])))
      && (e !in exitMap ==>
            && (SubCircuitIssue(m, s, MissingExit(s.id, e)) <==> !Declares(s, e))
            && !SubCircuitIssue(m, s, ExtraExit(s.id, e)))
  {
    var child := m[s.kind.circuit].circuit;
    var name := Mapped(s, child)[i];
    assert name in Mapped(s, child);
    assert forall k :: 0 <= k < |s.exits| ==> ExitNames(s)[k] == s.exits[k].name;
    assert Declares(s, name) <==> name in ExitNames(s);
  }

  /** A declared exit is superfluous exactly when no exit of the child is mapped to it and none unmapped has its name. */
  lemma ExtraExitIff(m: Model, s: Step, k: nat)
    requires s.kind.SubCircuit? && s.kind.circuit in m && m[s.kind.circuit].CircuitDef? && k < |s.exits|
    ensures
      var exits, exitMap, name := m[s.kind.circuit].circuit.exits, s.kind.exitMap, s.exits[k].name;
      SubCircuitIssue(m, s, ExtraExit(s.id, name)) <==>
      forall e :: e in exits ==> if e in exitMap then exitMap[e] != name else e != name
  {
    var child, name := m[s.kind.circuit].circuit, s.exits[k].name;
    assert ExitNames(s)[k] == name;
    forall i | 0 <= i < |child.exits| ensures Mapped(s, child)[i] in Mapped(s, child) {
    }
    assert forall e :: e in child.exits ==> exists i :: 0 <= i < |child.exits| && child.exits[i] == e && Mapped(s, child)[i] == Renamed(s, e);
    if name in Mapped(s, child) {
      var i :| 0 <= i < |child.exits| && Mapped(s, child)[i] == name;
      assert child.exits[i] in child.exits;
    }
  }

  /** The map collapses exits exactly when two of the child's are expected under one name. */
  lemma CollapsesIff(m: Model, s: Step)
    requires s.kind.SubCircuit? && s.kind.circuit in m && m[s.kind.circuit].CircuitDef?
    ensures
      var exits, exitMap := m[s.kind.circuit].circuit.exits, s.kind.exitMap;
      SubCircuitIssue(m, s, ExitMapCollapses(s.id)) <==>
      exists i, j :: 0 <= i < j < |exits| &&
        (if exits[i] in exitMap then exitMap[exits[i]] else exits[i]) == (if exits[j] in exitMap then exitMap[exits[j]] else exits[j])
  {
    var child := m[s.kind.circuit].circuit;
    var mapped := Mapped(s, child);
    if !Distinct(mapped) {
      var i, j :| 0 <= i < j < |mapped| && mapped[i] == mapped[j];
      assert child.exits[i] == child.exits[i] && child.exits[j] == child.exits[j];
    } else {
      forall i, j | 0 <= i < j < |child.exits| ensures Renamed(s, child.exits[i]) != Renamed(s, child.exits[j]) {
        assert mapped[i] != mapped[j];
      }
    }
  }

  type Adjacency = map<string, seq<string>>

  ghost function Edges(adjacency: Adjacency): (string, string) -> bool {
    (a, b) => a in adjacency && b in adjacency[a]
  }

  ghost function Targets(adjacency: Adjacency): set<string> {
    set a, b | a in adjacency && b in adjacency[a] :: b
  }

  /** Marks the not yet seen neighbours; they are what joins the queue. */
  method MarkNew(nexts: seq<string>, seen: set<string>) returns (seen': set<string>, added: seq<string>)
    ensures seen' == seen + Elements(nexts)
    ensures forall x :: x in added <==> x in nexts && x !in seen
    ensures |seen'| - |seen| == |added|
  {
    seen', added := seen, [];
    for k := 0 to |nexts|
      invariant seen' == seen + Elements(nexts[..k])
      invariant forall x :: x in added <==> x in nexts[..k] && x !in seen
      invariant |seen'| - |seen| == |added|
    {
      var n := nexts[k];
      assert nexts[..k + 1] == nexts[..k] + [n];
      if n !in seen' {
        seen' := seen' + {n};
        added := added + [n];
      }
    }
    assert nexts[..|nexts|] == nexts;
  }

  /** What has been seen is reached, what is queued is seen, and the successors of what is neither queued nor unseen are seen. */
  ghost predicate Searching(adjacency: Adjacency, entry: string, seen: set<string>, queue: seq<string>) {
    && entry in seen && seen <= {entry} + Targets(adjacency)
    && (forall x :: x in queue ==> x in seen)
    && (forall x :: x in seen ==> Reaches(Edges(adjacency), entry, x))
    && forall x, y :: x in seen && x !in queue && x in adjacency && y in adjacency[x] ==> y in seen
  }

  lemma SearchStep(adjacency: Adjacency, entry: string, seen: set<string>, queue: seq<string>, added: seq<string>)
    requires Searching(adjacency, entry, seen, queue) && queue != []
    requires var nexts := if queue[0] in adjacency then adjacency[queue[0]] else [];
             forall x :: x in added <==> x in nexts && x !in seen
    ensures var nexts := if queue[0] in adjacency then adjacency[queue[0]] else [];
            && Searching(adjacency, entry, seen + Elements(nexts), queue[1..] + added)
            && seen + Elements(nexts) <= {entry} + Targets(adjacency)
  {
    hide Reaches;
    var cur, rest := queue[0], queue[1..];
    var nexts := if cur in adjacency then adjacency[cur] else [];
    assert queue == [cur] + rest;
    forall y | y in nexts
      ensures Reaches(Edges(adjacency), entry, y) && y in Targets(adjacency)
    {
      ReachesThen(Edges(adjacency), entry, cur, y);
    }
  }

  /** Breadth-first search: exactly the steps a walk from the entry leads to. */
  method ReachableFrom(entry: string, adjacency: Adjacency) returns (seen: set<string>)
    ensures forall x :: x in seen <==> Reaches(Edges(adjacency), entry, x)
  {
    ghost var universe := {entry} + Targets(adjacency);
    ReachesSelf(Edges(adjacency), entry);
    seen := {entry};
    var queue := [entry];
    assert Searching(adjacency, entry, seen, queue);
    hide Searching, Targets, Elements;
    while queue != []
      invariant Searching(adjacency, entry, seen, queue) && seen <= universe
      decreases |universe| - |seen|, |queue|
    {
      var cur := queue[0];
      var nexts := if cur in adjacency then adjacency[cur] else [];
      var seen', added := MarkNew(nexts, seen);
      SearchStep(adjacency, entry, seen, queue, added);
      SubsetCardinality(seen', universe);
      seen, queue := seen', queue[1..] + added;
    }
    ClosedHasAll(adjacency, entry, seen);
  }

  lemma ClosedHasAll(adjacency: Adjacency, entry: string, seen: set<string>)
    requires Searching(adjacency, entry, seen, [])
    ensures forall x :: x in seen <==> Reaches(Edges(adjacency), entry, x)
  {
    var edge := Edges(adjacency);
    forall x | Reaches(edge, entry, x)
      ensures x in seen
    {
      var p :| WalkFromTo(edge, p, entry, x);
      StaysInside(edge, (iset y | y in seen), p);
    }
  }

  method CheckSteps(m: Model, c: Circuit) returns (errors: seq<Issue>, routed: set<string>, adjacency: Adjacency)
    ensures forall e :: e in errors <==> exists s :: s in c.steps && StepIssue(m, c, s, e)
    ensures forall n :: n in routed <==> n in c.exits && exists s :: s in c.steps && RoutesToExit(s, n)
    ensures forall a, b :: Edges(adjacency)(a, b) <==> Adjacent(c, a, b)
  {
    errors, routed, adjacency := [], {}, map[];
    for i := 0 to |c.steps|
      invariant forall e :: e in errors <==> exists s :: s in c.steps[..i] && StepIssue(m, c, s, e)
      invariant forall n :: n in routed <==> n in c.exits && exists s :: s in c.steps[..i] && RoutesToExit(s, n)
      invariant forall a :: a in adjacency <==> LastStep(c, i, a).Some?
      invariant forall a :: a in adjacency ==> forall b :: b in adjacency[a] <==> b in StepIds(c) && RoutesToStep(c.steps[LastStep(c, i, a).value], b)
    {
      var s := c.steps[i];
      assert c.steps[..i + 1] == c.steps[..i] + [s];
      var stepErrors, stepRouted, next := CheckExits(c, s);
      var subErrors := CheckSubCircuit(m, s);
      var gateErrors := CheckGate(s);
      ghost var before := errors;
      errors := errors + stepErrors + gateErrors + subErrors;
      assert forall e :: e in errors <==> e in before || StepIssue(m, c, s, e);
      routed := routed + stepRouted;
      adjacency := adjacency[s.id := next];
    }
    assert c.steps[..|c.steps|] == c.steps;
  }

  method CheckGate(s: Step) returns (errors: seq<Issue>)
    ensures forall e :: e in errors <==> GateIssue(s, e)
  {
    errors := [];
    if s.kind.Gate? {
      if "approve" !in ExitNames(s) {
        errors := errors + [GateLacks(s.id, "approve")];
      }
      if "changes" !in ExitNames(s) {
        errors := errors + [GateLacks(s.id, "changes")];
      }
    }
  }

  /** Names that occur at two positions. */
  method Repeated(names: seq<string>) returns (dups: seq<string>)
    ensures forall n :: n in dups <==> exists i, j :: 0 <= i < j < |names| && names[i] == n && names[j] == n
  {
    dups := [];
    var seen: set<string> := {};
    for k := 0 to |names|
      invariant forall n :: n in seen <==> n in names[..k]
      invariant forall n :: n in dups <==> exists i, j :: 0 <= i < j < k && names[i] == n && names[j] == n
    {
      if names[k] in seen {
        dups := dups + [names[k]];
        var i :| 0 <= i < k && names[i] == names[k];
      }
      seen := seen + {names[k]};
      assert names[..k + 1] == names[..k] + [names[k]];
    }
  }

  function Ids(c: Circuit): seq<string> {
    seq(|c.steps|, i requires 0 <= i < |c.steps| => c.steps[i].id)
  }

  /**
   * Validation of one circuit, as far as routing goes. On a work-in-progress branch an
   * unreachable step is a warning.
   */
  method ValidateCircuit(m: Model, c: Circuit, nonMain: bool) returns (errors: seq<Issue>, warnings: seq<Issue>)
    ensures forall e :: e in errors <==> StrictIssue(m, c, e) && !(nonMain && e.Unreachable?)
    ensures forall e :: e in warnings <==> nonMain && UnreachableStep(c, e)
  {
    errors, warnings := [], [];
    var dupSteps := Repeated(Ids(c));
    for i := 0 to |dupSteps|
      invariant forall e :: e in errors <==> e.DuplicateStep? && e.id in dupSteps[..i]
    {
      errors := errors + [DuplicateStep(dupSteps[i])];
    }
    assert dupSteps[..|dupSteps|] == dupSteps;
    var dupExits := Repeated(c.exits);
    for i := 0 to |dupExits|
      invariant forall e :: e in errors <==> (e.DuplicateStep? && e.id in dupSteps) || (e.DuplicateExit? && e.name in dupExits[..i])
    {
      errors := errors + [DuplicateExit(dupExits[i])];
    }
    assert dupExits[..|dupExits|] == dupExits;
    if c.entry !in StepIds(c) {
      errors := errors + [EntryNotAStep];
    }
    var stepErrors, routed, adjacency := CheckSteps(m, c);
    errors := errors + stepErrors;
    ghost var before := errors;
    for i := 0 to |c.exits|
      invariant forall e :: e in errors <==> e in before || (e.Unroutable? && e.name in c.exits[..i] && e.name !in routed)
    {
      if c.exits[i] !in routed {
        errors := errors + [Unroutable(c.exits[i])];
      }
      assert c.exits[..i + 1] == c.exits[..i] + [c.exits[i]];
    }
    assert c.exits[..|c.exits|] == c.exits;
    IssuesBySource(m, c);
    forall e: Issue
      ensures e in errors <==> StrictIssue(m, c, e) && !e.Unreachable?
    {
      assert e in before <==> e in stepErrors || (CircuitIssue(c, e) && !e.Unroutable?);
      assert e.Unroutable? ==> (e.name in c.exits && e.name !in routed <==> CircuitIssue(c, e));
    }
    if c.entry in StepIds(c) {
      var seen := ReachableFrom(c.entry, adjacency);
      forall x ensures x in seen <==> Reaches(Flow(c), c.entry, x) {
        SameEdgesSameReach(Edges(adjacency), Flow(c), c.entry, x);
      }
      var found := Unreached(Ids(c), seen);
      if nonMain {
        warnings := found;
      } else {
        errors := errors + found;
      }
    }
  }

  method Unreached(ids: seq<string>, seen: set<string>) returns (found: seq<Issue>)
    ensures forall e :: e in found <==> e.Unreachable? && e.id in ids && e.id !in seen
  {
    found := [];
    for i := 0 to |ids|
      invariant forall e :: e in found <==> e.Unreachable? && e.id in ids[..i] && e.id !in seen
    {
      if ids[i] !in seen {
        found := found + [Unreachable(ids[i])];
      }
      assert ids[..i + 1] == ids[..i] + [ids[i]];
    }
    assert ids[..|ids|] == ids;
  }

  lemma IssuesBySource(m: Model, c: Circuit)
    ensures forall n :: n in StepIds(c) <==> n in Ids(c)
    ensures forall e: Issue :: e.DuplicateStep? ==> (CircuitIssue(c, e) <==> exists i, j :: 0 <= i < j < |Ids(c)| && Ids(c)[i] == e.id && Ids(c)[j] == e.id)
    ensures forall s, e :: StepIssue(m, c, s, e) ==> !e.DuplicateStep? && !e.DuplicateExit? && !e.EntryNotAStep? && !e.Unroutable? && !e.Unreachable? && !e.DanglingCircuit?
  {
    forall n | n in StepIds(c)
      ensures n in Ids(c)
    {
      var s :| s in c.steps && s.id == n;
      var i :| 0 <= i < |c.steps| && c.steps[i] == s;
      assert Ids(c)[i] == n;
    }
    forall e: Issue | e.DuplicateStep?
      ensures CircuitIssue(c, e) <==> exists i, j :: 0 <= i < j < |Ids(c)| && Ids(c)[i] == e.id && Ids(c)[j] == e.id
    {
      if CircuitIssue(c, e) {
        var i, j :| 0 <= i < j < |c.steps| && c.steps[i].id == e.id && c.steps[j].id == e.id;
        assert Ids(c)[i] == e.id && Ids(c)[j] == e.id;
      }
    }
  }

  // ---- The whole tree ------------------------------------------------------------------------

  ghost predicate Dangling(m: Model, c: Circuit, e: Issue) {
    e.DanglingCircuit? && exists s :: s in c.steps && s.id == e.step && s.kind.SubCircuit? && Child(m, s) == None
  }

  ghost predicate ModelIssue(m: Model, u: Uid, e: Issue) {
    u in m && m[u].CircuitDef? && (StrictIssue(m, m[u].circuit, e) || Dangling(m, m[u].circuit, e))
  }

  ghost predicate StrictlyValid(m: Model) {
    forall u, e :: !ModelIssue(m, u, e)
  }

  method CheckReferences(m: Model, c: Circuit) returns (errors: seq<Issue>)
    ensures forall e :: e in errors <==> Dangling(m, c, e)
  {
    errors := [];
    for i := 0 to |c.steps|
      invariant forall e :: e in errors <==> e.DanglingCircuit? && exists s :: s in c.steps[..i] && s.id == e.step && s.kind.SubCircuit? && Child(m, s) == None
    {
      var s := c.steps[i];
      assert c.steps[..i + 1] == c.steps[..i] + [s];
      if s.kind.SubCircuit? && Child(m, s) == None {
        errors := errors + [DanglingCircuit(s.id)];
      }
    }
    assert c.steps[..|c.steps|] == c.steps;
  }

  method ValidateModel(m: Model) returns (ok: bool)
    ensures ok <==> StrictlyValid(m)
  {
    ok := true;
    var uids := m.Keys;
    while uids != {}
      invariant uids <= m.Keys
      invariant ok <==> forall u, e :: u in m.Keys - uids ==> !ModelIssue(m, u, e)
      decreases |uids|
    {
      var u :| u in uids;
      if m[u].CircuitDef? {
        var dangling := CheckReferences(m, m[u].circuit);
        var errors, _ := ValidateCircuit(m, m[u].circuit, false);
        if dangling + errors != [] {
          assert ModelIssue(m, u, (dangling + errors)[0]);
          ok := false;
        }
      }
      uids := uids - {u};
    }
  }
}
