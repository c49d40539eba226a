/**
 * Eval runs: a pool of workers scoring fixtures, over a store that outlives the process. A run may be
 * stopped, crash and be taken up again at any point.
 */
module EvalRuns {
  import opened Basics
  import opened Walks

  type Row = (string, string)
  const AGGREGATE := "*"

  /** What is to be scored. Rubric keys are lower-case slugs, so none is the aggregate's. */
  datatype Plan = Plan(fixtures: seq<string>, dims: seq<string>, limit: int)

  ghost predicate WellFormed(plan: Plan) {
    AGGREGATE !in plan.dims
  }

  datatype Status = Running | Completed | Failed

  /** A pool worker: idle, or scoring the job at an index of the queue, with so many dimensions written. */
  datatype Worker = Idle | Busy(job: nat, written: nat)

  datatype Phase = Enqueuing(at: nat) | Scoring | Closing(any: bool) | Publishing

  /** What a process holds in memory for a run. */
  datatype Process = Process(phase: Phase, queue: seq<string>, next: nat, workers: seq<Worker>, errors: set<string>, stopped: bool)

  /** `log` is every row written, in order; a row written twice is an overwritten result. */
  datatype Run = Run(log: seq<Row>, sessions: set<string>, status: Status, reported: set<string>, process: Option<Process>)

  const INITIAL := Run([], {}, Running, {}, Some(Process(Enqueuing(0), [], 0, [], {}, false)))

  predicate Scored(log: seq<Row>, f: string) {
    (f, AGGREGATE) in log
  }

  function PoolSize(limit: int, n: nat): nat {
    var l := if limit < 1 then 1 else limit;
    if l < n then l else n
  }

  function Idles(n: nat): seq<Worker> {
    seq(n, i => Idle)
  }

  /** The sessions not scored yet, in fixture order: what a restarted process queues. */
  function Unscored(fixtures: seq<string>, sessions: set<string>, log: seq<Row>): (r: seq<string>)
    ensures forall f :: f in r <==> f in fixtures && f in sessions && !Scored(log, f)
  {
    if fixtures == [] then []
    else
      var n := |fixtures| - 1;
      assert fixtures == fixtures[..n] + [fixtures[n]];
      Unscored(fixtures[..n], sessions, log) +
      if fixtures[n] in sessions && !Scored(log, fixtures[n]) then [fixtures[n]] else []
  }

  // ---- Steps ---------------------------------------------------------------------------------

  datatype Action =
    | Enqueue(ok: bool)
    | MergeSessions
    | Take(w: nat)
    | Write(w: nat)
    | Aggregate(w: nat)
    | Fail(w: nat)
    | Stop
    | Summarise
    | Close
    | Publish
    | Abort
    | Crash
    | Recover(stopped: bool)
    | RecoverFails

  predicate AllIdle(p: Process) {
    forall w :: 0 <= w < |p.workers| ==> p.workers[w] == Idle
  }

  predicate IsBusy(p: Process, w: nat) {
    p.phase == Scoring && w < |p.workers| && p.workers[w].Busy? && p.workers[w].job < |p.queue|
  }

  /** Steps of the attached process. */
  predicate EnabledIn(plan: Plan, p: Process, a: Action) {
    match a
    case Enqueue(_) => p.phase.Enqueuing? && p.phase.at < |plan.fixtures|
    case MergeSessions => p.phase == Enqueuing(|plan.fixtures|)
    case Take(w) => p.phase == Scoring && w < |p.workers| && p.workers[w] == Idle && p.next < |p.queue|
    case Write(w) => IsBusy(p, w) && p.workers[w].written < |plan.dims|
    case Aggregate(w) => IsBusy(p, w) && p.workers[w].written == |plan.dims|
    case Fail(w) => IsBusy(p, w)
    case Stop => true
    case Summarise => p.phase == Scoring && AllIdle(p) && p.next == |p.queue|
    case Close => p.phase.Closing?
    case Publish => p.phase == Publishing
    case Abort => AllIdle(p) && (p.phase == Scoring ==> p.next == |p.queue|)
    case Crash => true
    case Recover(_) => false
    case RecoverFails => false
  }

  predicate Enabled(plan: Plan, s: Run, a: Action) {
    match s.process
    case None => (a.Recover? || a.RecoverFails?) && s.status == Running
    case Some(p) => EnabledIn(plan, p, a)
  }

  function WithWorker(p: Process, w: nat, now: Worker): Process
    requires w < |p.workers|
  {
    p.(workers := p.workers[w := now])
  }

  function Apply(plan: Plan, s: Run, a: Action): Run
    requires Enabled(plan, s, a)
  {
    match s.process
    case None => if a.Recover? then s.(process := Some(Attach(plan, s, a.stopped))) else s.(status := Failed)
    case Some(p) => ApplyIn(plan, s, p, a)
  }

  /** A new process takes up what is unscored. */
  function Attach(plan: Plan, s: Run, stopped: bool): Process {
    var queue := Unscored(plan.fixtures, s.sessions, s.log);
    Process(Scoring, queue, 0, Idles(PoolSize(plan.limit, |queue|)), {}, stopped)
  }

  function ApplyIn(plan: Plan, s: Run, p: Process, a: Action): Run
    requires EnabledIn(plan, p, a)
  {
    match a
    case Enqueue(ok) =>
      var f := plan.fixtures[p.phase.at];
      var q := p.(phase := Enqueuing(p.phase.at + 1));
      s.(process := Some(if ok then q.(queue := p.queue + [f]) else q.(errors := p.errors + {f})))
    case MergeSessions =>
      s.(sessions := Elements(p.queue),
         process := Some(p.(phase := Scoring, workers := Idles(PoolSize(plan.limit, |p.queue|)))))
    case Take(w) => s.(process := Some(WithWorker(p, w, Busy(p.next, 0)).(next := p.next + 1)))
    case Write(w) =>
      var busy := p.workers[w];
      s.(log := s.log + [(p.queue[busy.job], plan.dims[busy.written])],
         process := Some(WithWorker(p, w, Busy(busy.job, busy.written + 1))))
    case Aggregate(w) =>
      s.(log := s.log + [(p.queue[p.workers[w].job], AGGREGATE)], process := Some(WithWorker(p, w, Idle)))
    case Fail(w) =>
      var q := WithWorker(p, w, Idle);
      s.(process := Some(if p.stopped then q else q.(errors := p.errors + {p.queue[p.workers[w].job]})))
    case Stop => s.(process := Some(p.(stopped := true)))
    case Summarise =>
      if p.stopped then s.(process := None)
      else s.(reported := p.errors, process := Some(p.(phase := Closing(exists r :: r in s.log && r.1 == AGGREGATE))))
    case Close => s.(status := if p.phase.any then Completed else Failed, process := Some(p.(phase := Publishing)))
    case Publish => s.(process := None)
    case Abort => s.(status := Failed, reported := p.errors, process := None)
    case Crash => s.(process := None)
    case Recover(_) => s
    case RecoverFails => s
  }

  /** A process that takes up a run queues exactly the sessions not scored, and changes no result. */
  lemma RecoverTakesUp(plan: Plan, s: Run, stopped: bool)
    requires Enabled(plan, s, Recover(stopped))
    ensures
      var t := Apply(plan, s, Recover(stopped));
      && t.log == s.log && t.sessions == s.sessions && t.status == Running && t.process.Some? && t.process.value.phase == Scoring
      && t.process.value.next == 0 && AllIdle(t.process.value) && t.process.value.errors == {}
      && forall f :: f in t.process.value.queue <==> f in plan.fixtures && f in s.sessions && !Scored(s.log, f)
  {
  }

  /** Starting a session queues the fixture or records its error, one at a time and in order. */
  lemma EnqueueMeans(plan: Plan, s: Run, ok: bool)
    requires s.process.Some? && Enabled(plan, s, Enqueue(ok))
    ensures
      var p, q, f := s.process.value, Apply(plan, s, Enqueue(ok)).process.value, plan.fixtures[s.process.value.phase.at];
      && q.phase == Enqueuing(p.phase.at + 1)
      && (ok ==> q.queue == p.queue + [f] && q.errors == p.errors)
      && (!ok ==> q.queue == p.queue && q.errors == p.errors + {f})
  {
  }

  /** A job that fails leaves its error behind, unless the run was stopped, and frees its worker; no row is written. */
  lemma FailMeans(plan: Plan, s: Run, w: nat)
    requires s.process.Some? && Enabled(plan, s, Fail(w))
    ensures
      var p, t := s.process.value, Apply(plan, s, Fail(w));
      && t.log == s.log && t.process.Some? && t.process.value.workers == p.workers[w := Idle]
      && t.process.value.errors == if p.stopped then p.errors else p.errors + {p.queue[p.workers[w].job]}
  {
  }

  /**
   * How a process lets go of a run. A stop and a crash leave it running, for another process to take up, with all
   * results; a failure that could not be handled, or one to take it up, ends it; publishing comes after its end.
   */
  lemma EndingsMean(plan: Plan, s: Run, a: Action)
    requires Enabled(plan, s, a)
    ensures Apply(plan, s, a).process == None && a !in {RecoverFails, Publish, Abort} ==>
              Apply(plan, s, a) == s.(process := None) && (a == Crash || (a == Summarise && s.process.value.stopped))
    ensures a == Crash ==> Apply(plan, s, a) == s.(process := None)
    ensures a == Summarise && s.process.value.stopped ==> Apply(plan, s, a) == s.(process := None)
    ensures a == Summarise && !s.process.value.stopped ==>
              Apply(plan, s, a).process.Some? && Apply(plan, s, a).reported == s.process.value.errors
    ensures a == Abort ==> Apply(plan, s, a) == s.(status := Failed, reported := s.process.value.errors, process := None)
    ensures a == RecoverFails ==> Apply(plan, s, a) == s.(status := Failed)
    ensures a == Publish ==> Apply(plan, s, a) == s.(process := None)
  {
  }

  ghost function Next(plan: Plan): (Run, Run) -> bool {
    (s: Run, t: Run) => exists a :: Enabled(plan, s, a) && t == Apply(plan, s, a)
  }

  ghost predicate Reachable(plan: Plan, s: Run) {
    Reaches(Next(plan), INITIAL, s)
  }

  // ---- What every state keeps ----------------------------------------------------------------

  /** An aggregate is written after every dimension of its fixture. */
  ghost predicate AggregatesLast(plan: Plan, log: seq<Row>) {
    forall i, d :: 0 <= i < |log| && log[i].1 == AGGREGATE && d in plan.dims ==> (log[i].0, d) in log[..i]
  }

  /** Nothing is written for a fixture once its aggregate is there. */
  ghost predicate NeverRescored(log: seq<Row>) {
    forall i, j :: 0 <= i < j < |log| && log[i].1 == AGGREGATE ==> log[j].0 != log[i].0
  }

  /** Only fixtures of the plan are written. */
  ghost predicate OnlyFixtures(plan: Plan, log: seq<Row>) {
    forall r :: r in log ==> r.0 in plan.fixtures
  }

  /** What nothing in the manifest's validation asks, and only the ban on rescoring needs. */
  ghost predicate Unrepeated(plan: Plan) {
    Distinct(plan.fixtures)
  }

  ghost predicate GoodLog(plan: Plan, log: seq<Row>) {
    AggregatesLast(plan, log) && (Unrepeated(plan) ==> NeverRescored(log)) && OnlyFixtures(plan, log)
  }

  /** A worker's job was taken, and the dimensions before its mark are written. */
  ghost predicate WorkerOk(plan: Plan, p: Process, log: seq<Row>, w: Worker) {
    w.Busy? ==>
      && w.job < p.next && w.job < |p.queue| && w.written <= |plan.dims|
      && forall k :: 0 <= k < w.written ==> (p.queue[w.job], plan.dims[k]) in log
  }

  ghost predicate JobBusy(p: Process, t: nat) {
    exists w :: 0 <= w < |p.workers| && p.workers[w].Busy? && p.workers[w].job == t
  }

  ghost predicate Settled(p: Process, log: seq<Row>, f: string) {
    Scored(log, f) || f in p.errors || p.stopped
  }

  /** Each job taken is either under way, and then unscored unless its id is repeated, or settled. */
  ghost predicate JobOk(plan: Plan, p: Process, log: seq<Row>, t: nat)
    requires t < |p.queue|
  {
    if p.next <= t || JobBusy(p, t) then Unrepeated(plan) ==> !Scored(log, p.queue[t]) else Settled(p, log, p.queue[t])
  }

  /** No two workers share a job. */
  ghost predicate Exclusive(p: Process) {
    forall v, w :: 0 <= v < w < |p.workers| && p.workers[v].Busy? && p.workers[w].Busy? ==> p.workers[v].job != p.workers[w].job
  }

  ghost predicate ScoringOk(plan: Plan, log: seq<Row>, sessions: set<string>, p: Process) {
    && (Unrepeated(plan) ==> Distinct(p.queue)) && (forall f :: f in p.queue ==> f in plan.fixtures) && p.next <= |p.queue|
    && |p.workers| == PoolSize(plan.limit, |p.queue|)
    && (forall w :: 0 <= w < |p.workers| ==> WorkerOk(plan, p, log, p.workers[w]))
    && Exclusive(p)
    && (forall t: nat :: t < |p.queue| ==> JobOk(plan, p, log, t))
    && forall f :: f in sessions ==> f in p.queue || Scored(log, f)
  }

  ghost predicate Covered(log: seq<Row>, sessions: set<string>, reported: set<string>) {
    forall f :: f in sessions ==> Scored(log, f) || f in reported
  }

  ghost predicate EnqueuingOk(plan: Plan, s: Run, p: Process)
    requires p.phase.Enqueuing?
  {
    && s.log == [] && s.sessions == {} && p.workers == [] && p.next == 0
    && p.phase.at <= |plan.fixtures| && (Unrepeated(plan) ==> Distinct(p.queue))
    && forall f :: f in p.queue ==> f in plan.fixtures[..p.phase.at]
  }

  ghost predicate ProcessOk(plan: Plan, s: Run, p: Process) {
    match p.phase
    case Enqueuing(_) => s.status == Running && EnqueuingOk(plan, s, p)
    case Scoring => s.status == Running && ScoringOk(plan, s.log, s.sessions, p)
    case Closing(any) => s.status == Running && Covered(s.log, s.sessions, s.reported) && (any ==> exists f :: Scored(s.log, f)) && AllIdle(p)
    case Publishing => s.status != Running && AllIdle(p)
  }

  ghost predicate Inv(plan: Plan, s: Run) {
    && GoodLog(plan, s.log)
    && (forall f :: f in s.sessions ==> f in plan.fixtures)
    && (s.process.Some? ==> ProcessOk(plan, s, s.process.value))
    && (s.status == Completed ==> Covered(s.log, s.sessions, s.reported) && exists f :: Scored(s.log, f))
  }

  // ---- Logs ----------------------------------------------------------------------------------

  lemma {:induction false} AppendRow(plan: Plan, log: seq<Row>, r: Row)
    requires GoodLog(plan, log) && (Unrepeated(plan) ==> !Scored(log, r.0)) && r.0 in plan.fixtures
    requires r.1 == AGGREGATE ==> forall d :: d in plan.dims ==> (r.0, d) in log
    ensures GoodLog(plan, log + [r])
  {
    var more := log + [r];
    forall i, d | 0 <= i < |more| && more[i].1 == AGGREGATE && d in plan.dims ensures (more[i].0, d) in more[..i] {
      assert more[..i] == log[..i];
      assert i == |log| ==> log[..i] == log;
    }
    if Unrepeated(plan) {
      forall i, j | 0 <= i < j < |more| && more[i].1 == AGGREGATE ensures more[j].0 != more[i].0 {
        assert log[i] in log;
      }
    }
  }

  // ---- Steps keep it -------------------------------------------------------------------------

  /** Which jobs are busy, told with one worker apart. */
  lemma {:induction false} BusyElsewhere(p: Process, q: Process, w: nat, t: nat)
    requires w < |p.workers| == |q.workers| && forall v :: 0 <= v < |p.workers| && v != w ==> q.workers[v] == p.workers[v]
    ensures !(p.workers[w].Busy? && p.workers[w].job == t) && !(q.workers[w].Busy? && q.workers[w].job == t) ==>
              (JobBusy(p, t) <==> JobBusy(q, t))
    ensures q.workers[w].Busy? && q.workers[w].job == t ==> JobBusy(q, t)
    ensures p.workers[w].Busy? && p.workers[w].job == t && Exclusive(p) && !(q.workers[w].Busy? && q.workers[w].job == t) ==>
              !JobBusy(q, t)
  {
  }

  lemma {:induction false} TakeKeeps(plan: Plan, s: Run, p: Process, w: nat)
    requires ScoringOk(plan, s.log, s.sessions, p) && EnabledIn(plan, p, Take(w))
    ensures var t := ApplyIn(plan, s, p, Take(w)); ScoringOk(plan, t.log, t.sessions, t.process.value)
  {
    var t := ApplyIn(plan, s, p, Take(w));
    var q := t.process.value;
    assert q.workers[w] == Busy(p.next, 0);
    forall v | 0 <= v < |q.workers| ensures WorkerOk(plan, q, s.log, q.workers[v]) {
      assert WorkerOk(plan, p, s.log, p.workers[v]);
    }
    forall v, u | 0 <= v < u < |q.workers| && q.workers[v].Busy? && q.workers[u].Busy?
      ensures q.workers[v].job != q.workers[u].job {
      assert WorkerOk(plan, p, s.log, p.workers[v]) && WorkerOk(plan, p, s.log, p.workers[u]);
    }
    forall k: nat | k < |q.queue| ensures JobOk(plan, q, s.log, k) {
      assert JobOk(plan, p, s.log, k);
      BusyElsewhere(p, q, w, k);
    }
  }

  lemma {:induction false} WriteKeeps(plan: Plan, s: Run, p: Process, w: nat)
    requires WellFormed(plan) && GoodLog(plan, s.log) && ScoringOk(plan, s.log, s.sessions, p) && EnabledIn(plan, p, Write(w))
    ensures var t := ApplyIn(plan, s, p, Write(w)); ScoringOk(plan, t.log, t.sessions, t.process.value) && GoodLog(plan, t.log)
  {
    hide AggregatesLast, NeverRescored, OnlyFixtures, Unrepeated;
    var t := ApplyIn(plan, s, p, Write(w));
    var q := t.process.value;
    var job, k := p.workers[w].job, p.workers[w].written;
    var r := (p.queue[job], plan.dims[k]);
    assert WorkerOk(plan, p, s.log, p.workers[w]) && JobOk(plan, p, s.log, job);
    AppendRow(plan, s.log, r);
    assert q.workers[w] == Busy(job, k + 1);
    forall v | 0 <= v < |q.workers| ensures WorkerOk(plan, q, t.log, q.workers[v]) {
      assert WorkerOk(plan, p, s.log, p.workers[v]);
    }
    forall u: nat | u < |q.queue| ensures JobOk(plan, q, t.log, u) {
      assert JobOk(plan, p, s.log, u);
      BusyElsewhere(p, q, w, u);
    }
  }

  lemma {:induction false} AggregateKeeps(plan: Plan, s: Run, p: Process, w: nat)
    requires GoodLog(plan, s.log) && ScoringOk(plan, s.log, s.sessions, p) && EnabledIn(plan, p, Aggregate(w))
    ensures var t := ApplyIn(plan, s, p, Aggregate(w)); ScoringOk(plan, t.log, t.sessions, t.process.value) && GoodLog(plan, t.log)
  {
    hide AggregatesLast, NeverRescored, OnlyFixtures, Unrepeated;
    var t := ApplyIn(plan, s, p, Aggregate(w));
    var q := t.process.value;
    var job := p.workers[w].job;
    var r := (p.queue[job], AGGREGATE);
    assert WorkerOk(plan, p, s.log, p.workers[w]) && JobOk(plan, p, s.log, job);
    AppendRow(plan, s.log, r);
    forall v | 0 <= v < |q.workers| ensures WorkerOk(plan, q, t.log, q.workers[v]) {
      assert WorkerOk(plan, p, s.log, p.workers[v]);
    }
    forall u: nat | u < |q.queue| ensures JobOk(plan, q, t.log, u) {
      assert JobOk(plan, p, s.log, u);
      BusyElsewhere(p, q, w, u);
    }
  }

  lemma {:induction false} FailKeeps(plan: Plan, s: Run, p: Process, w: nat)
    requires ScoringOk(plan, s.log, s.sessions, p) && EnabledIn(plan, p, Fail(w))
    ensures var t := ApplyIn(plan, s, p, Fail(w)); ScoringOk(plan, t.log, t.sessions, t.process.value)
  {
    var t := ApplyIn(plan, s, p, Fail(w));
    var q := t.process.value;
    var job := p.workers[w].job;
    forall v | 0 <= v < |q.workers| ensures WorkerOk(plan, q, t.log, q.workers[v]) {
      assert WorkerOk(plan, p, s.log, p.workers[v]);
    }
    forall u: nat | u < |q.queue| ensures JobOk(plan, q, t.log, u) {
      assert JobOk(plan, p, s.log, u);
      BusyElsewhere(p, q, w, u);
      assert WorkerOk(plan, p, s.log, p.workers[w]);
    }
  }

  lemma {:induction false} StopKeeps(plan: Plan, s: Run, p: Process)
    requires ScoringOk(plan, s.log, s.sessions, p)
    ensures ScoringOk(plan, s.log, s.sessions, p.(stopped := true))
  {
    var q := p.(stopped := true);
    forall v | 0 <= v < |q.workers| ensures WorkerOk(plan, q, s.log, q.workers[v]) {
      assert WorkerOk(plan, p, s.log, p.workers[v]);
    }
    forall u: nat | u < |q.queue| ensures JobOk(plan, q, s.log, u) {
      assert JobOk(plan, p, s.log, u);
      assert JobBusy(p, u) <==> JobBusy(q, u);
    }
  }

  lemma {:induction false} UnscoredDistinct(fixtures: seq<string>, sessions: set<string>, log: seq<Row>)
    requires Distinct(fixtures)
    ensures Distinct(Unscored(fixtures, sessions, log))
  {
    if fixtures != [] {
      var n := |fixtures| - 1;
      UnscoredDistinct(fixtures[..n], sessions, log);
      AppendDistinct(fixtures[..n], fixtures[n]);
      AppendDistinct(Unscored(fixtures[..n], sessions, log), fixtures[n]);
      assert fixtures == fixtures[..n] + [fixtures[n]];
    }
  }

  lemma {:induction false} AttachKeeps(plan: Plan, s: Run, stopped: bool)
    requires forall f :: f in s.sessions ==> f in plan.fixtures
    ensures ScoringOk(plan, s.log, s.sessions, Attach(plan, s, stopped))
  {
    if Unrepeated(plan) { UnscoredDistinct(plan.fixtures, s.sessions, s.log); }
  }

  lemma {:induction false} EnqueueKeeps(plan: Plan, s: Run, p: Process, ok: bool)
    requires p.phase.Enqueuing? && EnqueuingOk(plan, s, p) && EnabledIn(plan, p, Enqueue(ok))
    ensures var t := ApplyIn(plan, s, p, Enqueue(ok)); t.process.value.phase.Enqueuing? && EnqueuingOk(plan, t, t.process.value)
  {
    var n := p.phase.at;
    var f := plan.fixtures[n];
    assert plan.fixtures[..n + 1] == plan.fixtures[..n] + [f];
    if Unrepeated(plan) {
      assert f !in plan.fixtures[..n];
      AppendDistinct(p.queue, f);
    }
  }

  lemma {:induction false} MergeKeeps(plan: Plan, s: Run, p: Process)
    requires p.phase.Enqueuing? && EnqueuingOk(plan, s, p) && EnabledIn(plan, p, MergeSessions)
    ensures var t := ApplyIn(plan, s, p, MergeSessions); ScoringOk(plan, t.log, t.sessions, t.process.value)
    ensures forall f :: f in p.queue ==> f in plan.fixtures
  {
    assert plan.fixtures[..|plan.fixtures|] == plan.fixtures;
    var t := ApplyIn(plan, s, p, MergeSessions);
  }

  /** When the pool has drained and nobody asked to stop, every session is scored or has its error reported. */
  lemma {:induction false} DrainedCovers(plan: Plan, s: Run, p: Process)
    requires ScoringOk(plan, s.log, s.sessions, p) && EnabledIn(plan, p, Summarise) && !p.stopped
    ensures Covered(s.log, s.sessions, p.errors)
  {
    forall f | f in s.sessions ensures Scored(s.log, f) || f in p.errors {
      if f in p.queue {
        var t :| 0 <= t < |p.queue| && p.queue[t] == f;
        assert JobOk(plan, p, s.log, t) && !JobBusy(p, t);
      }
    }
  }

  /** Every step keeps the invariant, whichever worker moves, and through stops, crashes and restarts. */
  lemma {:induction false} StepKeeps(plan: Plan, s: Run, a: Action)
    requires WellFormed(plan) && Inv(plan, s) && Enabled(plan, s, a)
    ensures Inv(plan, Apply(plan, s, a))
  {
    hide ScoringOk, EnqueuingOk, GoodLog, Covered;
    match s.process
    case None =>
      if a.Recover? { AttachKeeps(plan, s, a.stopped); }
    case Some(p) => ProcessStepKeeps(plan, s, p, a);
  }

  lemma {:induction false} ProcessStepKeeps(plan: Plan, s: Run, p: Process, a: Action)
    requires WellFormed(plan) && Inv(plan, s) && s.process == Some(p) && EnabledIn(plan, p, a)
    ensures Inv(plan, ApplyIn(plan, s, p, a))
  {
    hide ScoringOk, EnqueuingOk, GoodLog, Covered;
    match a
    case Enqueue(ok) => EnqueueKeeps(plan, s, p, ok);
    case MergeSessions => MergeKeeps(plan, s, p);
    case Take(w) => TakeKeeps(plan, s, p, w);
    case Write(w) => WriteKeeps(plan, s, p, w);
    case Aggregate(w) => AggregateKeeps(plan, s, p, w);
    case Fail(w) => FailKeeps(plan, s, p, w);
    case Summarise => if !p.stopped { DrainedCovers(plan, s, p); AnyScored(s); }
    case Stop => StopKept(plan, s, p);
    case Close =>
    case Publish =>
    case Abort =>
    case Crash =>
    case Recover(_) =>
    case RecoverFails =>
  }

  lemma AnyScored(s: Run)
    ensures (exists r :: r in s.log && r.1 == AGGREGATE) ==> exists f :: Scored(s.log, f)
  {
    if exists r :: r in s.log && r.1 == AGGREGATE {
      var r :| r in s.log && r.1 == AGGREGATE;
      assert r == (r.0, AGGREGATE);
      assert Scored(s.log, r.0);
    }
  }

  lemma {:induction false} StopKept(plan: Plan, s: Run, p: Process)
    requires Inv(plan, s) && s.process == Some(p)
    ensures ProcessOk(plan, s.(process := Some(p.(stopped := true))), p.(stopped := true))
  {
    if p.phase == Scoring {
      StopKeeps(plan, s, p);
    }
  }

  // ---- Whole runs ----------------------------------------------------------------------------

  lemma InitialInv(plan: Plan)
    ensures Inv(plan, INITIAL)
  {
  }

  lemma RunsKeep(plan: Plan, s: Run)
    requires WellFormed(plan) && Reachable(plan, s)
    ensures Inv(plan, s)
  {
    hide Inv;
    InitialInv(plan);
    var p :| WalkFromTo(Next(plan), p, INITIAL, s);
    var inside := iset x | Inv(plan, x);
    forall x, y | x in inside && Next(plan)(x, y) ensures y in inside {
      var a :| Enabled(plan, x, a) && y == Apply(plan, x, a);
      StepKeeps(plan, x, a);
    }
    StaysInside(Next(plan), inside, p);
  }

  /**
   * In every state of every run, with any schedule of workers, stops, crashes and restarts: an aggregate has
   * all its dimensions behind it, a scored fixture is never written again unless its id is repeated, no more
   * than `limit` workers are at work and no two on the same job, and a completed run has every session scored
   * or reported.
   */
  lemma RunsAreSound(plan: Plan, s: Run)
    requires WellFormed(plan) && Reachable(plan, s)
    ensures forall f, d :: Scored(s.log, f) && d in plan.dims ==> (f, d) in s.log
    ensures Unrepeated(plan) ==> NeverRescored(s.log)
    ensures s.process.Some? && s.process.value.phase == Scoring ==>
              && Exclusive(s.process.value) && |s.process.value.workers| <= |s.process.value.queue|
              && (|s.process.value.workers| <= 1 || |s.process.value.workers| <= plan.limit)
              && (|s.process.value.workers| < |s.process.value.queue| ==>
                    |s.process.value.workers| >= 1 && |s.process.value.workers| >= plan.limit)
    ensures s.status == Completed ==> Covered(s.log, s.sessions, s.reported)
  {
    RunsKeep(plan, s);
    forall f, d | Scored(s.log, f) && d in plan.dims ensures (f, d) in s.log {
      var i :| 0 <= i < |s.log| && s.log[i] == (f, AGGREGATE);
      assert (s.log[i].0, d) in s.log[..i];
    }
  }

  // ---- One worker at a time ------------------------------------------------------------------

  /** The rows of one fixture in the order they are written. */
  function FixtureRows(f: string, dims: seq<string>): (r: seq<Row>)
    ensures |r| == |dims| + 1
  {
    DimRows(f, dims, |dims|) + [(f, AGGREGATE)]
  }

  function DimRows(f: string, dims: seq<string>, n: nat): (r: seq<Row>)
    requires n <= |dims|
    ensures |r| == n
  {
    if n == 0 then [] else DimRows(f, dims, n - 1) + [(f, dims[n - 1])]
  }

  function AllRows(plan: Plan, n: nat): seq<Row>
    requires n <= |plan.fixtures|
  {
    if n == 0 then [] else AllRows(plan, n - 1) + FixtureRows(plan.fixtures[n - 1], plan.dims)
  }

  /** The state in which the first `k` fixtures are scored and nothing is under way. */
  function Between(plan: Plan, k: nat): Run
    requires k <= |plan.fixtures|
  {
    var n := |plan.fixtures|;
    Run(AllRows(plan, k), Elements(plan.fixtures), Running, {},
        Some(Process(Scoring, plan.fixtures, k, Idles(PoolSize(plan.limit, n)), {}, false)))
  }

  /** The state in which the first worker has written `d` dimensions of fixture `k`. */
  function Within(plan: Plan, k: nat, d: nat): Run
    requires k < |plan.fixtures| && d <= |plan.dims|
  {
    var s := Between(plan, k);
    var p := s.process.value;
    s.(log := AllRows(plan, k) + DimRows(plan.fixtures[k], plan.dims, d),
       process := Some(p.(next := k + 1, workers := p.workers[0 := Busy(k, d)])))
  }

  function Enqueued(plan: Plan, k: nat): Run
    requires k <= |plan.fixtures|
  {
    INITIAL.(process := Some(Process(Enqueuing(k), plan.fixtures[..k], 0, [], {}, false)))
  }

  lemma Stepped(plan: Plan, s: Run, a: Action)
    requires Reachable(plan, s) && Enabled(plan, s, a)
    ensures Reachable(plan, Apply(plan, s, a))
  {
    hide Enabled, Apply;
    assert Next(plan)(s, Apply(plan, s, a));
    ReachesThen(Next(plan), INITIAL, s, Apply(plan, s, a));
  }

  lemma {:induction false} CanEnqueue(plan: Plan, k: nat)
    requires k <= |plan.fixtures|
    ensures Reachable(plan, Enqueued(plan, k))
  {
    if k == 0 {
      ReachesSelf(Next(plan), INITIAL);
      assert Enqueued(plan, 0) == INITIAL;
    } else {
      CanEnqueue(plan, k - 1);
      Stepped(plan, Enqueued(plan, k - 1), Enqueue(true));
      assert plan.fixtures[..k] == plan.fixtures[..k - 1] + [plan.fixtures[k - 1]];
    }
  }

  lemma {:induction false} CanWrite(plan: Plan, k: nat, d: nat)
    requires k < |plan.fixtures| && d <= |plan.dims| && Reachable(plan, Between(plan, k))
    ensures Reachable(plan, Within(plan, k, d))
  {
    hide Reachable;
    if d == 0 {
      Stepped(plan, Between(plan, k), Take(0));
      assert AllRows(plan, k) + [] == AllRows(plan, k);
    } else {
      CanWrite(plan, k, d - 1);
      var s := Within(plan, k, d - 1);
      Stepped(plan, s, Write(0));
      var t := Apply(plan, s, Write(0));
      assert t.log == Within(plan, k, d).log;
      assert t.process.value.workers == Within(plan, k, d).process.value.workers;
    }
  }

  lemma {:induction false} CanScore(plan: Plan, k: nat)
    requires k <= |plan.fixtures|
    ensures Reachable(plan, Between(plan, k))
  {
    hide Reachable;
    if k == 0 {
      CanEnqueue(plan, |plan.fixtures|);
      Stepped(plan, Enqueued(plan, |plan.fixtures|), MergeSessions);
      assert plan.fixtures[..|plan.fixtures|] == plan.fixtures;
    } else {
      CanScore(plan, k - 1);
      CanWrite(plan, k - 1, |plan.dims|);
      var s := Within(plan, k - 1, |plan.dims|);
      Stepped(plan, s, Aggregate(0));
      var t := Apply(plan, s, Aggregate(0));
      assert t.log == Between(plan, k).log;
      assert t.process.value.workers == Between(plan, k).process.value.workers;
    }
  }

  /** Runs can complete, with every fixture scored in full. */
  lemma CanComplete(plan: Plan)
    requires plan.fixtures != []
    ensures exists s :: Reachable(plan, s) && s.status == Completed && s.process == None && s.log == AllRows(plan, |plan.fixtures|)
  {
    hide Reachable;
    var n := |plan.fixtures|;
    CanScore(plan, n);
    var s := Between(plan, n);
    assert s.log[|s.log| - 1].1 == AGGREGATE && s.log[|s.log| - 1] in s.log;
    Stepped(plan, s, Summarise);
    var t := Apply(plan, s, Summarise);
    Stepped(plan, t, Close);
    Stepped(plan, Apply(plan, t, Close), Publish);
  }

  /** No fixture is scored twice in any run exactly when the ids of the manifest are distinct, which no validator asks. */
  lemma NeverRescoredIff(plan: Plan)
    requires WellFormed(plan)
    ensures (forall s :: Reachable(plan, s) ==> NeverRescored(s.log)) <==> Distinct(plan.fixtures)
  {
    hide Reachable;
    if Distinct(plan.fixtures) {
      forall s | Reachable(plan, s) ensures NeverRescored(s.log) {
        RunsKeep(plan, s);
      }
    } else {
      var i, j :| 0 <= i < j < |plan.fixtures| && plan.fixtures[i] == plan.fixtures[j];
      CanScore(plan, j + 1);
      ScoredTwice(plan, i, j);
    }
  }

  lemma {:induction false} RowsGrow(plan: Plan, i: nat, j: nat)
    requires i < j <= |plan.fixtures|
    ensures (plan.fixtures[i], AGGREGATE) in AllRows(plan, j)
    decreases j
  {
    if i < j - 1 {
      RowsGrow(plan, i, j - 1);
    } else {
      var rows := FixtureRows(plan.fixtures[i], plan.dims);
      assert AllRows(plan, j) == AllRows(plan, i) + rows;
      assert rows[|rows| - 1] == (plan.fixtures[i], AGGREGATE) && rows[|rows| - 1] in rows;
    }
  }

  lemma ScoredTwice(plan: Plan, i: nat, j: nat)
    requires i < j < |plan.fixtures| && plan.fixtures[i] == plan.fixtures[j]
    ensures !NeverRescored(AllRows(plan, j + 1))
  {
    RowsGrow(plan, i, j);
    var before, log := AllRows(plan, j), AllRows(plan, j + 1);
    var rows := FixtureRows(plan.fixtures[j], plan.dims);
    assert rows[|rows| - 1] == (plan.fixtures[j], AGGREGATE);
    var a :| 0 <= a < |before| && before[a] == (plan.fixtures[i], AGGREGATE);
    assert log[a] == before[a] && log[|log| - 1] == rows[|rows| - 1];
  }

  // ---- Scoring one fixture -------------------------------------------------------------------

  datatype Dimension = Dimension(key: string, programmatic: bool)

  /** The keys of one kind, in rubric order. */
  function Keys(rubric: seq<Dimension>, programmatic: bool): (r: seq<string>)
    ensures forall k :: k in r <==> Dimension(k, programmatic) in rubric
  {
    if rubric == [] then []
    else
      var n := |rubric| - 1;
      assert rubric == rubric[..n] + [rubric[n]];
      Keys(rubric[..n], programmatic) + if rubric[n].programmatic == programmatic then [rubric[n].key] else []
  }

  /** Programmatic checks are written before what the judge scored. */
  function WriteOrder(rubric: seq<Dimension>): seq<string> {
    Keys(rubric, true) + Keys(rubric, false)
  }

  /** Every dimension is written once, programmatic ones first, and each kind in the order of the rubric. */
  lemma {:induction false} WriteOrderMeans(rubric: seq<Dimension>) returns (order: seq<nat>)
    ensures |WriteOrder(rubric)| == |order| == |rubric| && Distinct(order)
    ensures forall k :: 0 <= k < |order| ==> order[k] < |rubric| && WriteOrder(rubric)[k] == rubric[order[k]].key
    ensures forall i, j :: 0 <= i < j < |order| ==>
              if rubric[order[i]].programmatic == rubric[order[j]].programmatic then order[i] < order[j]
              else rubric[order[i]].programmatic
  {
    var p := KeysAt(rubric, true);
    var q := KeysAt(rubric, false);
    order := p + q;
    KeysCount(rubric);
  }

  lemma {:induction false} KeysAt(rubric: seq<Dimension>, programmatic: bool) returns (at: seq<nat>)
    ensures |at| == |Keys(rubric, programmatic)|
    ensures forall k :: 0 <= k < |at| ==>
              at[k] < |rubric| && rubric[at[k]] == Dimension(Keys(rubric, programmatic)[k], programmatic)
    ensures forall i, j :: 0 <= i < j < |at| ==> at[i] < at[j]
  {
    at := [];
    if rubric != [] {
      var n := |rubric| - 1;
      at := KeysAt(rubric[..n], programmatic);
      if rubric[n].programmatic == programmatic { at := at + [n]; }
    }
  }

  lemma {:induction false} KeysCount(rubric: seq<Dimension>)
    ensures |Keys(rubric, true)| + |Keys(rubric, false)| == |rubric|
  {
    if rubric != [] { KeysCount(rubric[..|rubric| - 1]); }
  }

  class Results {
    var log: seq<Row>

    /** Scores a fixture: all its dimensions, and only then its aggregate. */
    method ScoreFixture(fixture: string, rubric: seq<Dimension>)
      modifies this
      ensures log == old(log) + FixtureRows(fixture, WriteOrder(rubric))
    {
      var scored: seq<string> := [];
      for i := 0 to |rubric|
        invariant scored == Keys(rubric[..i], true) && log == old(log)
      {
        assert rubric[..i + 1][..i] == rubric[..i];
        if rubric[i].programmatic { scored := scored + [rubric[i].key]; }
      }
      assert rubric[..|rubric|] == rubric;
      scored := scored + Keys(rubric, false);
      for i := 0 to |scored|
        invariant log == old(log) + DimRows(fixture, scored, i)
      {
        Upsert(fixture, scored[i]);
      }
      Upsert(fixture, AGGREGATE);
    }

    method Upsert(fixture: string, dimension: string)
      modifies this
      ensures log == old(log) + [(fixture, dimension)]
    {
      log := log + [(fixture, dimension)];
    }
  }
}
