/**
 What the scheduler keeps over whole runs: only dispatched tasks run, never too many, never
 two that clash, never before their dependencies are DONE, and never past the retry budget.

 A run is any sequence of dispatches, retries and status reports that follow the ledger's
 transition table; reports never say RUNNING, which only `dispatch` sets.
 */
module SchedulerSafety {
  import opened DependencyGraph
  import opened Ledger
  import opened Scheduler
  import Paths

  type TaskId = DependencyGraph.TaskId

  datatype Op =
    | Dispatch(t: TaskId)
    | Retry(t: TaskId)
    | Report(t: TaskId, status: TaskStatus)

  /** The calls a well-behaved controller makes; calls that raise change nothing. */
  predicate Legal(plan: Plan, s: State, op: Op) {
    op.Report? ==> op.t in s.statuses && !op.status.RUNNING? && op.status in AllowedFrom(s.statuses[op.t])
  }

  ghost function Next(plan: Plan, maxWorkers: int, s: State, op: Op): State
    requires Legal(plan, s, op)
  {
    match op
    case Dispatch(t) => if t in Dispatchable(plan, maxWorkers, s) then Dispatched(s, t) else s
    case Retry(t) => if Retryable(plan, s, t) then Retried(s, t) else s
    case Report(t, status) => Updated(plan, s, t, status)
  }

  /** The states of a run, from a fresh scheduler whose tasks are PROPOSED or READY. */
  ghost predicate IsRun(plan: Plan, maxWorkers: int, ops: seq<Op>, states: seq<State>) {
    && |states| == |ops| + 1 && states[0] == Fresh(plan)
    && (forall t | t in plan.tasks :: plan.tasks[t].status.PROPOSED? || plan.tasks[t].status.READY?)
    && forall i | 0 <= i < |ops| ::
         Legal(plan, states[i], ops[i]) && states[i + 1] == Next(plan, maxWorkers, states[i], ops[i])
  }

  // ---------------------------------------------------------------------------------------
  // The invariant
  // ---------------------------------------------------------------------------------------

  ghost predicate ActiveIsRunning(s: State) {
    forall t :: t in s.active <==> t in s.statuses && s.statuses[t].RUNNING?
  }

  ghost predicate Compatible(plan: Plan, s: State) {
    forall a, b | a in s.active && b in s.active && a != b :: !Clash(plan, a, b)
  }

  /** A task that has run, and has not gone back to waiting, has its direct dependencies DONE. */
  ghost predicate RanAfterDependencies(plan: Plan, s: State) {
    forall t, d :: plan.Graph().Edge(t, d) && t in s.statuses && PastRunning(s.statuses[t]) ==>
      d in s.statuses && s.statuses[d].DONE?
  }

  /** Whatever became of a task since, if it was ever dispatched its direct dependencies are DONE. */
  ghost predicate DispatchedAfterDependencies(plan: Plan, s: State) {
    forall t, d :: plan.Graph().Edge(t, d) && AttemptsOf(s, t) > 0 ==> d in s.statuses && s.statuses[d].DONE?
  }

  ghost predicate Safe(plan: Plan, maxWorkers: int, s: State) {
    && Shaped(plan, s) && ActiveIsRunning(s) && |s.active| <= maxWorkers
    && Compatible(plan, s) && RanAfterDependencies(plan, s) && DispatchedAfterDependencies(plan, s)
  }

  /** Then all its transitive dependencies are DONE. */
  lemma {:induction false} TransitiveDependenciesDone(plan: Plan, s: State, p: seq<TaskId>)
    requires Shaped(plan, s) && RanAfterDependencies(plan, s)
    requires |p| >= 2 && plan.Graph().IsPath(p) && p[0] in s.statuses && PastRunning(s.statuses[p[0]])
    ensures p[|p| - 1] in s.statuses && s.statuses[p[|p| - 1]].DONE?
    decreases |p|
  {
    assert plan.Graph().Edge(p[0], p[1]);
    if |p| > 2 {
      PathTail(plan.Graph(), p);
      TransitiveDependenciesDone(plan, s, p[1..]);
    }
  }

  lemma RanMeansAllDone(plan: Plan, s: State, t: TaskId, d: TaskId)
    requires Shaped(plan, s) && RanAfterDependencies(plan, s) && plan.Graph().Reaches(t, d)
    requires t in s.statuses && PastRunning(s.statuses[t])
    ensures d in s.statuses && s.statuses[d].DONE?
  {
    var p :| plan.Graph().PathFromTo(p, t, d);
    TransitiveDependenciesDone(plan, s, p);
  }

  lemma PathTail(g: DependencyGraph.Graph, p: seq<TaskId>)
    requires g.IsPath(p) && |p| > 2
    ensures g.IsPath(p[1..]) && g.Edge(p[0], p[1])
  {
    assert g.Edge(p[0], p[1]);
    forall i | 0 <= i < |p[1..]| - 1 ensures g.Edge(p[1..][i], p[1..][i + 1]) { assert g.Edge(p[i + 1], p[i + 2]); }
  }

  lemma DispatchedMeansPathDone(plan: Plan, s: State, p: seq<TaskId>)
    requires Shaped(plan, s) && RanAfterDependencies(plan, s) && DispatchedAfterDependencies(plan, s)
    requires |p| >= 2 && plan.Graph().IsPath(p) && AttemptsOf(s, p[0]) > 0
    ensures p[|p| - 1] in s.statuses && s.statuses[p[|p| - 1]].DONE?
  {
    assert plan.Graph().Edge(p[0], p[1]);
    assert p[1] in s.statuses && s.statuses[p[1]].DONE?;
    if |p| > 2 {
      var tail := p[1..];
      PathTail(plan.Graph(), p);
      assert tail[0] == p[1] && tail[|tail| - 1] == p[|p| - 1];
      TransitiveDependenciesDone(plan, s, tail);
    }
  }

  /** A task that was ever dispatched, whatever its status now, has all its transitive dependencies DONE. */
  lemma DispatchedMeansAllDone(plan: Plan, s: State, t: TaskId, d: TaskId)
    requires Shaped(plan, s) && RanAfterDependencies(plan, s) && DispatchedAfterDependencies(plan, s)
    requires plan.Graph().Reaches(t, d) && AttemptsOf(s, t) > 0
    ensures d in s.statuses && s.statuses[d].DONE?
  {
    var p :| plan.Graph().PathFromTo(p, t, d);
    DispatchedMeansPathDone(plan, s, p);
  }

  /** A failure's cascade reaches only tasks that have not run: nothing running or DONE is touched. */
  lemma CascadeSparesTheRun(plan: Plan, s: State, t: TaskId, u: TaskId)
    requires Shaped(plan, s) && RanAfterDependencies(plan, s) && t in s.statuses && !s.statuses[t].DONE?
    requires u in s.statuses && plan.Graph().Reaches(u, t)
    ensures !PastRunning(s.statuses[u])
  {
    if PastRunning(s.statuses[u]) {
      RanMeansAllDone(plan, s, u, t);
      assert false;
    }
  }

  lemma DispatchKeepsSafe(plan: Plan, maxWorkers: int, s: State, t: TaskId)
    requires Safe(plan, maxWorkers, s) && t in Dispatchable(plan, maxWorkers, s)
    ensures Safe(plan, maxWorkers, Dispatched(s, t))
  {
    DispatchIsSafe(plan, maxWorkers, s, t);
    assert Candidate(plan, s, t) by { DispatchableAreCandidates(plan, maxWorkers, s); }
    var after := Dispatched(s, t);
    forall a, b | a in after.active && b in after.active && a != b ensures !Clash(plan, a, b) {
      ClashSymmetric(plan, a, b);
      if a == t { assert b in s.active; } else if b == t { assert a in s.active; }
    }
    forall u, d | plan.Graph().Edge(u, d) && u in after.statuses && PastRunning(after.statuses[u])
      ensures d in after.statuses && after.statuses[d].DONE?
    {
      if u == t { assert d in plan.tasks[t].dependencies; }
    }
    assert DispatchedAfterDependencies(plan, after) by { DispatchKeepsAttempts(plan, s, t); }
  }

  lemma DispatchKeepsAttempts(plan: Plan, s: State, t: TaskId)
    requires Shaped(plan, s) && Candidate(plan, s, t) && DispatchedAfterDependencies(plan, s)
    ensures DispatchedAfterDependencies(plan, Dispatched(s, t))
  {
    var after := Dispatched(s, t);
    forall u, d | plan.Graph().Edge(u, d) && AttemptsOf(after, u) > 0
      ensures d in after.statuses && after.statuses[d].DONE?
    {
      if u == t { assert d in plan.tasks[t].dependencies; }
      else { assert AttemptsOf(s, u) > 0; }
    }
  }

  /** A report changes the reporting task, and otherwise only tasks that have not run. */
  lemma ReportSparesTheRun(plan: Plan, s: State, t: TaskId, status: TaskStatus, u: TaskId)
    requires Shaped(plan, s) && RanAfterDependencies(plan, s) && Legal(plan, s, Report(t, status))
    requires u in s.statuses && u != t
    ensures var after := Updated(plan, s, t, status).statuses;
            u in after && (PastRunning(after[u]) <==> PastRunning(s.statuses[u]))
                       && (PastRunning(s.statuses[u]) ==> after[u] == s.statuses[u])
  {
    if status.FAILED? && plan.Graph().Reaches(u, t) { CascadeSparesTheRun(plan, s, t, u); }
  }

  lemma ReportKeepsOrder(plan: Plan, s: State, t: TaskId, status: TaskStatus)
    requires Shaped(plan, s) && RanAfterDependencies(plan, s) && Legal(plan, s, Report(t, status))
    ensures RanAfterDependencies(plan, Updated(plan, s, t, status))
  {
    var after := Updated(plan, s, t, status);
    forall u, d | plan.Graph().Edge(u, d) && u in after.statuses && PastRunning(after.statuses[u])
      ensures d in after.statuses && after.statuses[d].DONE?
    {
      if u != t { ReportSparesTheRun(plan, s, t, status, u); }
      assert PastRunning(s.statuses[u]) && s.statuses[d].DONE?;
      assert d != t;
      ReportSparesTheRun(plan, s, t, status, d);
    }
  }

  /** DONE is never left: no report does it, and no cascade reaches a DONE task. */
  lemma ReportKeepsAttempts(plan: Plan, s: State, t: TaskId, status: TaskStatus)
    requires Shaped(plan, s) && RanAfterDependencies(plan, s) && Legal(plan, s, Report(t, status))
    requires DispatchedAfterDependencies(plan, s)
    ensures DispatchedAfterDependencies(plan, Updated(plan, s, t, status))
  {
    var after := Updated(plan, s, t, status);
    forall u, d | plan.Graph().Edge(u, d) && AttemptsOf(after, u) > 0
      ensures d in after.statuses && after.statuses[d].DONE?
    {
      assert AttemptsOf(s, u) > 0 && s.statuses[d].DONE?;
      assert d != t;
      ReportSparesTheRun(plan, s, t, status, d);
    }
  }

  lemma ReportKeepsSafe(plan: Plan, maxWorkers: int, s: State, t: TaskId, status: TaskStatus)
    requires Safe(plan, maxWorkers, s) && Legal(plan, s, Report(t, status))
    ensures Safe(plan, maxWorkers, Updated(plan, s, t, status))
  {
    var after := Updated(plan, s, t, status);
    forall u | u in s.statuses && u != t
      ensures after.statuses[u].RUNNING? <==> s.statuses[u].RUNNING?
    {
      ReportSparesTheRun(plan, s, t, status, u);
    }
    SubsetNoLarger(after.active, s.active);
    ReportKeepsOrder(plan, s, t, status);
    ReportKeepsAttempts(plan, s, t, status);
  }

  lemma SubsetNoLarger<T>(a: set<T>, b: set<T>)
    requires a <= b
    ensures |a| <= |b|
  {
    assert b == a + (b - a);
  }

  lemma StepKeepsSafe(plan: Plan, maxWorkers: int, s: State, op: Op)
    requires Safe(plan, maxWorkers, s) && Legal(plan, s, op)
    ensures Safe(plan, maxWorkers, Next(plan, maxWorkers, s, op))
  {
    match op {
      case Dispatch(t) => if t in Dispatchable(plan, maxWorkers, s) { DispatchKeepsSafe(plan, maxWorkers, s, t); }
      case Retry(t) =>
      case Report(t, status) => ReportKeepsSafe(plan, maxWorkers, s, t, status);
    }
  }

  lemma RunShrinks(plan: Plan, maxWorkers: int, ops: seq<Op>, states: seq<State>)
    requires IsRun(plan, maxWorkers, ops, states) && ops != []
    ensures var n := |ops| - 1;
            && IsRun(plan, maxWorkers, ops[..n], states[..n + 1])
            && Legal(plan, states[n], ops[n]) && states[n + 1] == Next(plan, maxWorkers, states[n], ops[n])
  {
  }

  /** Every state of every run is safe. */
  lemma {:induction false} RunsAreSafe(plan: Plan, maxWorkers: int, ops: seq<Op>, states: seq<State>)
    requires plan.Graph().Valid() && plan.Graph().Known() && maxWorkers >= 1
    requires IsRun(plan, maxWorkers, ops, states)
    ensures Safe(plan, maxWorkers, states[|ops|])
    decreases |ops|
  {
    if ops != [] {
      var n := |ops| - 1;
      RunShrinks(plan, maxWorkers, ops, states);
      RunsAreSafe(plan, maxWorkers, ops[..n], states[..n + 1]);
      StepKeepsSafe(plan, maxWorkers, states[n], ops[n]);
    }
  }

  /**
   So at no point of any run do two running tasks stand in each other's way: both are
   parallelizable and share no exclusive key, no port and no overlapping path.
   */
  lemma RunningTasksStandApart(plan: Plan, maxWorkers: int, ops: seq<Op>, states: seq<State>, i: nat,
                               a: TaskId, b: TaskId)
    requires plan.Graph().Valid() && plan.Graph().Known() && maxWorkers >= 1
    requires IsRun(plan, maxWorkers, ops, states) && i <= |ops|
    requires a in states[i].statuses && states[i].statuses[a] == RUNNING
    requires b in states[i].statuses && states[i].statuses[b] == RUNNING && a != b
    ensures a in plan.tasks && b in plan.tasks
    ensures plan.tasks[a].parallelizable && plan.tasks[b].parallelizable
    ensures forall k | k in plan.tasks[a].exclusiveKeys :: k !in plan.tasks[b].exclusiveKeys
    ensures forall n | n in plan.tasks[a].ports :: n !in plan.tasks[b].ports
    ensures forall p, q | p in plan.tasks[a].allowedPaths && q in plan.tasks[b].allowedPaths :: !Paths.Overlap(p, q)
  {
    EveryStateIsSafe(plan, maxWorkers, ops, states, i);
    SafeTasksStandApart(plan, maxWorkers, states[i], a, b);
  }

  lemma SafeTasksStandApart(plan: Plan, maxWorkers: int, s: State, a: TaskId, b: TaskId)
    requires Safe(plan, maxWorkers, s) && a in s.statuses && b in s.statuses && a != b
    requires s.statuses[a] == RUNNING && s.statuses[b] == RUNNING
    ensures a in plan.tasks && b in plan.tasks && Apart(plan.tasks[a], plan.tasks[b])
  {
    assert a in s.active && b in s.active;
    assert !Clash(plan, a, b);
    ConflictExactly(plan.tasks[a], plan.tasks[b]);
  }

  /** Nor are more than `maxWorkers` of them running, nor one whose dependencies are not all DONE. */
  lemma RunningTasksHaveWorkers(plan: Plan, maxWorkers: int, ops: seq<Op>, states: seq<State>, i: nat)
    requires plan.Graph().Valid() && plan.Graph().Known() && maxWorkers >= 1
    requires IsRun(plan, maxWorkers, ops, states) && i <= |ops|
    ensures states[i].statuses.Keys == plan.tasks.Keys
    ensures |set t | t in plan.tasks && states[i].statuses[t] == RUNNING| <= maxWorkers
    ensures forall t, d | t in plan.tasks && states[i].statuses[t] == RUNNING && d in plan.tasks[t].dependencies ::
              d in plan.tasks && states[i].statuses[d] == DONE
  {
    EveryStateIsSafe(plan, maxWorkers, ops, states, i);
    var s := states[i];
    assert (set t | t in plan.tasks && s.statuses[t] == RUNNING) == s.active;
    forall t, d | t in plan.tasks && s.statuses[t] == RUNNING && d in plan.tasks[t].dependencies
      ensures d in plan.tasks && s.statuses[d] == DONE
    {
      assert plan.Graph().Edge(t, d);
    }
  }

  lemma EveryStateIsSafe(plan: Plan, maxWorkers: int, ops: seq<Op>, states: seq<State>, i: nat)
    requires plan.Graph().Valid() && plan.Graph().Known() && maxWorkers >= 1
    requires IsRun(plan, maxWorkers, ops, states) && i <= |ops|
    ensures Safe(plan, maxWorkers, states[i])
  {
    RunsAreSafe(plan, maxWorkers, ops[..i], states[..i + 1]);
  }

  lemma AttemptsStay(plan: Plan, maxWorkers: int, s: State, op: Op, t: TaskId)
    requires Legal(plan, s, op)
    ensures AttemptsOf(Next(plan, maxWorkers, s, op), t) >= AttemptsOf(s, t)
  {
  }

  lemma {:induction false} AttemptsGrow(plan: Plan, maxWorkers: int, ops: seq<Op>, states: seq<State>, i: nat,
                                        t: TaskId)
    requires IsRun(plan, maxWorkers, ops, states) && i <= |ops|
    ensures AttemptsOf(states[|ops|], t) >= AttemptsOf(states[i], t)
    decreases |ops|
  {
    if i < |ops| {
      var n := |ops| - 1;
      RunShrinks(plan, maxWorkers, ops, states);
      AttemptsGrow(plan, maxWorkers, ops[..n], states[..n + 1], i, t);
      AttemptsStay(plan, maxWorkers, states[n], ops[n], t);
    }
  }

  /** Once dispatched anywhere in a run, a task has all its transitive dependencies DONE from then on. */
  lemma NothingRunsEarly(plan: Plan, maxWorkers: int, ops: seq<Op>, states: seq<State>, i: nat, t: TaskId, d: TaskId)
    requires plan.Graph().Valid() && plan.Graph().Known() && maxWorkers >= 1
    requires IsRun(plan, maxWorkers, ops, states) && i < |ops|
    requires ops[i] == Dispatch(t) && t in Dispatchable(plan, maxWorkers, states[i]) && plan.Graph().Reaches(t, d)
    ensures d in states[|ops|].statuses && states[|ops|].statuses[d].DONE?
  {
    RunsAreSafe(plan, maxWorkers, ops, states);
    assert states[i + 1] == Next(plan, maxWorkers, states[i], ops[i]);
    AttemptsGrow(plan, maxWorkers, ops, states, i + 1, t);
    DispatchedMeansAllDone(plan, states[|ops|], t, d);
  }

  /** Two tasks that run at the same time cannot both have a changed path accepted. */
  lemma ConcurrentTasksWriteApart(plan: Plan, maxWorkers: int, s: State, a: TaskId, b: TaskId, path: string,
                                  prohibitedA: seq<string>, prohibitedB: seq<string>)
    requires Safe(plan, maxWorkers, s) && a in s.active && b in s.active && a != b
    requires plan.tasks[a].allowedPaths != [] && plan.tasks[b].allowedPaths != []
    ensures !(Paths.PolicyPasses([path], plan.tasks[a].allowedPaths, prohibitedA)
              && Paths.PolicyPasses([path], plan.tasks[b].allowedPaths, prohibitedB))
  {
    assert !Clash(plan, a, b);
    Paths.DisjointWriteSets(path, plan.tasks[a].allowedPaths, prohibitedA, plan.tasks[b].allowedPaths, prohibitedB);
  }

  /** With canonical rules, nor can they both have one file accepted, however each spells it. */
  lemma ConcurrentTasksShareNoFile(plan: Plan, maxWorkers: int, s: State, a: TaskId, b: TaskId,
                                   pathA: string, prohibitedA: seq<string>, pathB: string, prohibitedB: seq<string>)
    requires Safe(plan, maxWorkers, s) && a in s.active && b in s.active && a != b
    requires plan.tasks[a].allowedPaths != [] && Paths.AllCanonical(plan.tasks[a].allowedPaths)
    requires plan.tasks[b].allowedPaths != [] && Paths.AllCanonical(plan.tasks[b].allowedPaths)
    requires Paths.PolicyPasses([pathA], plan.tasks[a].allowedPaths, prohibitedA)
    requires Paths.PolicyPasses([pathB], plan.tasks[b].allowedPaths, prohibitedB)
    ensures Paths.FileOf(pathA) != Paths.FileOf(pathB)
  {
    var allowedA, allowedB := plan.tasks[a].allowedPaths, plan.tasks[b].allowedPaths;
    assert !Clash(plan, a, b);
    Paths.OverlapDecidesCanonicalLists(allowedA, allowedB);
    Paths.DisjointFiles(pathA, allowedA, prohibitedA, pathB, allowedB, prohibitedB);
  }

  // ---------------------------------------------------------------------------------------
  // The retry budget
  // ---------------------------------------------------------------------------------------

  /** READY is re-entered only through `retry_failed_task`: no report sends a task that has run back to it. */
  predicate ReentersByRetryOnly(s: State, op: Op) {
    op.Report? && op.status.READY? ==> AttemptsOf(s, op.t) == 0
  }

  /** The source checks the budget at a retry and not at the first dispatch. */
  function DispatchBound(plan: Plan, t: TaskId): int
    requires t in plan.tasks
  {
    if RetryLimit(plan, t) >= 1 then RetryLimit(plan, t) else 1
  }

  function CountDispatches(ops: seq<Op>, states: seq<State>, plan: Plan, maxWorkers: int, t: TaskId): nat
    requires |states| == |ops| + 1
  {
    if ops == [] then 0
    else
      var n := |ops| - 1;
      CountDispatches(ops[..n], states[..n + 1], plan, maxWorkers, t)
      + (if ops[n] == Dispatch(t) && t in Dispatchable(plan, maxWorkers, states[n]) then 1 else 0)
  }

  lemma RunsAreShaped(plan: Plan, maxWorkers: int, ops: seq<Op>, states: seq<State>)
    requires plan.Graph().Valid() && plan.Graph().Known() && maxWorkers >= 1
    requires IsRun(plan, maxWorkers, ops, states)
    ensures Shaped(plan, states[|ops|])
  {
    RunsAreSafe(plan, maxWorkers, ops, states);
  }

  /**
   The attempts field counts successful dispatches, and stays within the budget, which for
   the limits the schema allows (1 to 3) is the retry limit itself.
   */
  lemma {:induction false} DispatchesWithinBudget(plan: Plan, maxWorkers: int, ops: seq<Op>, states: seq<State>,
                                                  t: TaskId)
    requires plan.Graph().Valid() && plan.Graph().Known() && maxWorkers >= 1 && t in plan.tasks
    requires IsRun(plan, maxWorkers, ops, states)
    requires forall i | 0 <= i < |ops| :: ReentersByRetryOnly(states[i], ops[i])
    ensures AttemptsOf(states[|ops|], t) == CountDispatches(ops, states, plan, maxWorkers, t)
    ensures CountDispatches(ops, states, plan, maxWorkers, t) <= DispatchBound(plan, t)
    ensures 1 <= plan.tasks[t].maxAttempts <= 3 ==> DispatchBound(plan, t) == plan.tasks[t].maxAttempts
    ensures t in states[|ops|].statuses && states[|ops|].statuses[t].READY? ==>
              AttemptsOf(states[|ops|], t) < DispatchBound(plan, t)
    decreases |ops|
  {
    if ops != [] {
      var n := |ops| - 1;
      RunShrinks(plan, maxWorkers, ops, states);
      RunsAreShaped(plan, maxWorkers, ops[..n], states[..n + 1]);
      DispatchesWithinBudget(plan, maxWorkers, ops[..n], states[..n + 1], t);
      BudgetStep(plan, maxWorkers, states[n], ops[n], t);
    }
  }

  lemma BudgetStep(plan: Plan, maxWorkers: int, s: State, op: Op, t: TaskId)
    requires Shaped(plan, s) && Legal(plan, s, op) && ReentersByRetryOnly(s, op) && t in plan.tasks
    requires AttemptsOf(s, t) <= DispatchBound(plan, t)
    requires s.statuses[t].READY? ==> AttemptsOf(s, t) < DispatchBound(plan, t)
    ensures var next := Next(plan, maxWorkers, s, op);
            && AttemptsOf(next, t) == AttemptsOf(s, t)
                 + (if op == Dispatch(t) && t in Dispatchable(plan, maxWorkers, s) then 1 else 0)
            && AttemptsOf(next, t) <= DispatchBound(plan, t)
            && (t in next.statuses && next.statuses[t].READY? ==> AttemptsOf(next, t) < DispatchBound(plan, t))
  {
    if op.Dispatch? && op.t in Dispatchable(plan, maxWorkers, s) {
      assert Candidate(plan, s, op.t) by { DispatchableAreCandidates(plan, maxWorkers, s); }
    }
  }
}
