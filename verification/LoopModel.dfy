/**
 The run loop's state as a value, and what polling, dispatching and loading do to it
 (orchestrator/core/loop.py).  The adapter and the host (clock, live processes, schema
 verdicts) answer as they like.
 */
module LoopModel {
  import opened Wrappers
  import opened Ledger
  import opened Scheduler
  import opened DependencyGraph
  import Lease
  import Safety = SchedulerSafety

  type TaskId = DependencyGraph.TaskId

  // ---------------------------------------------------------------------------------------
  // Durable state and its commits
  // ---------------------------------------------------------------------------------------

  datatype Durable = Durable(rows: map<TaskId, TaskState>, leases: Lease.Db)

  /** What recovery relies on: it refuses to go on when a RUNNING task has no lease row. */
  ghost predicate RunningIsLeased(d: Durable) {
    forall t :: t in d.rows && d.rows[t].status.RUNNING? ==> t in d.leases.leases
  }

  /** One committed transaction: a ledger transition or a lease operation, on one task. */
  ghost predicate OneCommit(a: Durable, b: Durable) {
    || (a.leases == b.leases && exists step :: Commits(a.rows, step) && b.rows == After(a.rows, step))
    || (a.rows == b.rows && exists step :: b.leases == Lease.After(a.leases, step))
  }

  /** The new durable state is one commit on, and no RUNNING task lost its lease by it. */
  ghost predicate SafeCommit(a: Durable, b: Durable) {
    OneCommit(a, b) && (RunningIsLeased(a) ==> RunningIsLeased(b))
  }

  ghost predicate CommitsTo(trace: seq<Durable>, i: nat) { 1 <= i < |trace| && SafeCommit(trace[i - 1], trace[i]) }

  /** A chain of commits none of which costs a RUNNING task its lease. */
  ghost predicate CrashSafe(trace: seq<Durable>) {
    trace != [] && forall i | 1 <= i < |trace| :: CommitsTo(trace, i)
  }

  lemma CrashSafeExtends(trace: seq<Durable>, next: Durable)
    requires CrashSafe(trace) && SafeCommit(trace[|trace| - 1], next)
    ensures CrashSafe(trace + [next])
  {
    var longer := trace + [next];
    forall i | 1 <= i < |longer| ensures CommitsTo(longer, i) {
      if i < |trace| { assert CommitsTo(trace, i); }
    }
  }

  /** So every state of the chain can be recovered from, if the first can. */
  lemma {:induction false} CrashSafeMeans(trace: seq<Durable>, i: nat)
    requires CrashSafe(trace) && i < |trace|
    ensures RunningIsLeased(trace[0]) ==> RunningIsLeased(trace[i])
  {
    if i > 0 {
      CrashSafeMeans(trace, i - 1);
      assert CommitsTo(trace, i);
    }
  }

  lemma RegisterCommit(d: Durable, t: TaskId, spec: string, policy: string, base: Option<string>)
    requires t !in d.rows
    ensures SafeCommit(d, d.(rows := d.rows[t := Initial(spec, policy, base)]))
  {
    var step := DoInitialize(t, spec, policy, base, true);
    assert Commits(d.rows, step) && After(d.rows, step) == d.rows[t := Initial(spec, policy, base)];
  }

  lemma LedgerCommit(d: Durable, t: TaskId, c: Change, schemaAccepts: bool)
    requires t in d.rows && Transition(t, d.rows[t], c, NoManager, schemaAccepts).Ok?
    requires c.to.RUNNING? ==> t in d.leases.leases
    ensures SafeCommit(d, d.(rows := d.rows[t := Applied(d.rows[t], c)]))
  {
    var step := DoChange(t, c, NoManager, schemaAccepts);
    assert Commits(d.rows, step) && After(d.rows, step) == d.rows[t := Applied(d.rows[t], c)];
  }

  lemma AcquireCommit(d: Durable, t: TaskId, worker: string, pid: int, timeout: real, now: real, live0: set<int>,
                      live1: set<int>)
    ensures var step := Lease.DoAcquire(t, worker, pid, timeout, now, live0, live1);
            SafeCommit(d, d.(leases := Lease.After(d.leases, step)))
  {
  }

  lemma ReleaseCommit(d: Durable, t: TaskId, worker: string, epoch: nat)
    requires t in d.rows ==> !d.rows[t].status.RUNNING?
    ensures SafeCommit(d, d.(leases := Lease.Release(d.leases, t, worker, epoch)))
  {
    assert Lease.Release(d.leases, t, worker, epoch) == Lease.After(d.leases, Lease.DoRelease(t, worker, epoch));
  }

  // ---------------------------------------------------------------------------------------
  // The world outside
  // ---------------------------------------------------------------------------------------

  datatype PollStatus = Completed | Uncertain | Failed | Pending

  datatype Session = Session(id: string, worker: string, epoch: nat)

  /** What the adapter answers during one step, per task; `None` is an exception. */
  datatype Adapter = Adapter(
    poll: TaskId -> PollStatus, evidenceAgrees: TaskId -> bool, digest: TaskId -> Option<string>,
    validates: bool, contextValid: TaskId -> bool, start: TaskId -> Option<string>,
    recovers: bool, recover: TaskId -> Option<string>, leaseTimeout: TaskId -> real)

  datatype Host = Host(
    pid: int, now: TaskId -> real, live0: TaskId -> set<int>, live1: TaskId -> set<int>,
    leaseStoreReachable: TaskId -> bool, schemaAccepts: (TaskId, TaskStatus) -> bool)

  datatype StepError =
    | EvidenceDisagrees(task: TaskId) | LedgerRefused(task: TaskId, error: LedgerError)
    | WorktreeMissing(task: TaskId) | ContextRefused(task: TaskId) | SchedulerRefused(task: TaskId)
    | StartUncertain(task: TaskId) | LeaseMissing(task: TaskId) | RecoveryRefused(task: TaskId)

  function Plainly(s: TaskState, to: TaskStatus, digest: Option<string>): Change {
    Change(s.revision, to, digest, None, None, false, None, None, "refs/heads/main", None, None)
  }

  /** The ledger would let this task make this move. */
  predicate CanMove(t: TaskId, s: TaskState, to: TaskStatus, digest: Option<string>, schemaAccepts: bool) {
    Transition(t, s, Plainly(s, to, digest), NoManager, schemaAccepts).Ok?
  }

  function Transitioned(rows: map<TaskId, TaskState>, t: TaskId, to: TaskStatus, digest: Option<string>)
      : map<TaskId, TaskState>
    requires t in rows
  {
    rows[t := Applied(rows[t], Plainly(rows[t], to, digest))]
  }

  function Moved(s: TaskState, to: TaskStatus): TaskState { Applied(s, Plainly(s, to, None)) }

  /** `after` is `before` one revision on, in status `to`, with the digest if one was supplied; all else is kept. */
  ghost predicate MovedTo(before: TaskState, after: TaskState, to: TaskStatus, digest: Option<string>) {
    && after.status == to && after.revision == before.revision + 1
    && after.candidateDigest == (if digest == None then before.candidateDigest else digest)
    && after.baseSha == before.baseSha && after.prHeadSha == before.prHeadSha
    && after.specDigest == before.specDigest && after.policyDigest == before.policyDigest
    && after.attempt == (if before.status == FAILED && to == READY then before.attempt + 1
                         else if before.status == READY && to == RUNNING && before.attempt == 0 then 1
                         else before.attempt)
    && after.history == before.history + [Entry(Some(before.status), to, before.revision + 1)]
  }

  lemma PlainMoveExactly(t: TaskId, s: TaskState, to: TaskStatus, digest: Option<string>, schemaAccepts: bool)
    ensures MovedTo(s, Applied(s, Plainly(s, to, digest)), to, digest)
    ensures CanMove(t, s, to, digest, schemaAccepts) <==>
              && LeadsTo(s.status, to) && (s.status == FAILED && to == READY ==> s.attempt < 3)
              && schemaAccepts && s.prHeadSha != Some("")
  {
    TransitionExactly(t, s, Plainly(s, to, digest), NoManager, schemaAccepts);
  }

  lemma MovedMeans(s: TaskState, to: TaskStatus)
    ensures MovedTo(s, Moved(s, to), to, None)
  {
  }

  /** The cascade leaves this dependent alone, or the ledger lets it be blocked. */
  predicate CanBlock(u: TaskId, s: TaskState, host: Host) {
    s.status.FAILED? || s.status.DONE? || CanMove(u, s, BLOCKED, None, host.schemaAccepts(u, BLOCKED))
  }

  function BlockedRow(s: TaskState): TaskState {
    if s.status.FAILED? || s.status.DONE? then s else Moved(s, BLOCKED)
  }

  /** The status a finished session's task is moved to. */
  function Outcome(p: PollStatus): TaskStatus {
    match p case Completed => VALIDATING case Uncertain => BLOCKED case Failed => FAILED case Pending => RUNNING
  }

  // ---------------------------------------------------------------------------------------
  // The controller's state as a value
  // ---------------------------------------------------------------------------------------

  datatype Loop = Loop(rows: map<TaskId, TaskState>, db: Lease.Db, sched: State, sessions: map<TaskId, Session>)

  /** The three views of "running" coincide and every session holds the current lease, `done` apart. */
  ghost predicate Linked(plan: Plan, l: Loop, done: set<TaskId>) {
    && l.sessions.Keys == l.sched.active + done && done !! l.sched.active
    && (forall t :: t in l.sched.active <==> t in plan.tasks && t in l.rows && l.rows[t].status.RUNNING?)
    && (forall t | t in l.sched.active ::
          t in l.sessions && Lease.Holds(l.db, t, l.sessions[t].worker, l.sessions[t].epoch))
  }

  /** A task without a row counts as PROPOSED. */
  function StatusOf(rows: map<TaskId, TaskState>, t: TaskId): TaskStatus {
    if t in rows then rows[t].status else PROPOSED
  }

  /** The scheduler shows the ledger's status, or BLOCKED for a task that has not run. */
  predicate Sees(shown: TaskStatus, recorded: TaskStatus) {
    shown == recorded || (shown.BLOCKED? && !PastRunning(recorded))
  }

  ghost predicate Shown(plan: Plan, s: State, rows: map<TaskId, TaskState>) {
    forall t | t in plan.tasks :: t in s.statuses && Sees(s.statuses[t], StatusOf(rows, t))
  }

  /** Ledger, scheduler, leases and sessions tell the same story, and it is a safe one. */
  ghost predicate Agree(plan: Plan, maxWorkers: int, l: Loop, done: set<TaskId>) {
    Linked(plan, l, done) && Safety.Safe(plan, maxWorkers, l.sched) && Shown(plan, l.sched, l.rows)
  }

  /** Ledger half of a failure cascade. */
  ghost function CascadedRows(plan: Plan, rows: map<TaskId, TaskState>, t: TaskId): map<TaskId, TaskState> {
    map u | u in rows :: if plan.Graph().Reaches(u, t) then BlockedRow(rows[u]) else rows[u]
  }

  ghost predicate CanBlockAll(plan: Plan, rows: map<TaskId, TaskState>, t: TaskId, host: Host) {
    forall u | u in rows && plan.Graph().Reaches(u, t) :: CanBlock(u, rows[u], host)
  }

  /** The controller's state after the session of `t` was polled. */
  ghost function Polled(plan: Plan, adapter: Adapter, l: Loop, t: TaskId): Loop
    requires t in l.rows && t in l.sched.statuses && t in l.sessions
  {
    var p, row := adapter.poll(t), l.rows[t];
    var released := Lease.Release(l.db, t, l.sessions[t].worker, l.sessions[t].epoch);
    match p
    case Pending => l
    case Completed =>
      l.(rows := l.rows[t := Applied(row, Plainly(row, VALIDATING, adapter.digest(t)))], db := released,
         sched := Updated(plan, l.sched, t, VALIDATING))
    case Uncertain =>
      l.(rows := l.rows[t := Moved(row, BLOCKED)], sched := Updated(plan, l.sched, t, BLOCKED))
    case Failed =>
      l.(rows := CascadedRows(plan, l.rows[t := Moved(row, FAILED)], t), db := released,
         sched := Updated(plan, l.sched, t, FAILED))
  }

  /** Exactly when polling the session of `t` goes through without raising. */
  ghost predicate CanFinish(plan: Plan, adapter: Adapter, host: Host, rows: map<TaskId, TaskState>, t: TaskId) {
    if t !in rows then adapter.poll(t).Pending? else
    match adapter.poll(t)
    case Completed =>
      adapter.evidenceAgrees(t) && CanMove(t, rows[t], VALIDATING, adapter.digest(t), host.schemaAccepts(t, VALIDATING))
    case Uncertain => CanMove(t, rows[t], BLOCKED, None, host.schemaAccepts(t, BLOCKED))
    case Failed =>
      && CanMove(t, rows[t], FAILED, None, host.schemaAccepts(t, FAILED))
      && CanBlockAll(plan, rows[t := Moved(rows[t], FAILED)], t, host)
    case Pending => true
  }

  // ---------------------------------------------------------------------------------------
  // Polling keeps the agreement
  // ---------------------------------------------------------------------------------------

  lemma NeverOnItself(plan: Plan, topo: seq<TaskId>, t: TaskId)
    requires plan.Checked(topo)
    ensures !plan.Graph().Reaches(t, t)
  {
    TopologicalMeansAcyclic(plan.Graph(), topo);
  }

  /** No task that depends on `t` is running in the ledger. */
  ghost predicate DependentsWait(plan: Plan, rows: map<TaskId, TaskState>, t: TaskId) {
    forall u | u in rows && plan.Graph().Reaches(u, t) :: !rows[u].status.RUNNING?
  }

  /** A running task never depends on a running task. */
  lemma RunningDependentsWait(plan: Plan, maxWorkers: int, l: Loop, done: set<TaskId>, t: TaskId)
    requires Linked(plan, l, done) && Safety.Safe(plan, maxWorkers, l.sched) && t in l.sched.active
    ensures DependentsWait(plan, l.rows, t)
  {
    forall u | u in l.rows && plan.Graph().Reaches(u, t) ensures !l.rows[u].status.RUNNING? {
      ReachedIsKnown(plan.Graph(), u, t);
      Safety.CascadeSparesTheRun(plan, l.sched, t, u);
    }
  }

  /** Rows that are RUNNING are the same before and after, `t` apart. */
  ghost predicate SameRunning(before: map<TaskId, TaskState>, after: map<TaskId, TaskState>, t: TaskId) {
    && before.Keys == after.Keys
    && forall u | u in before && u != t && (before[u].status.RUNNING? || after[u].status.RUNNING?) ::
      after[u] == before[u]
  }

  lemma CascadeKeepsRunning(plan: Plan, rows: map<TaskId, TaskState>, t: TaskId)
    requires DependentsWait(plan, rows, t)
    ensures SameRunning(rows, CascadedRows(plan, rows, t), t)
  {
  }

  lemma PollKeepsRunning(plan: Plan, adapter: Adapter, l: Loop, t: TaskId)
    requires t in l.rows && t in l.sched.statuses && t in l.sessions && DependentsWait(plan, l.rows, t)
    ensures SameRunning(l.rows, Polled(plan, adapter, l, t).rows, t)
  {
    if adapter.poll(t).Failed? {
      var failed := l.rows[t := Moved(l.rows[t], FAILED)];
      assert DependentsWait(plan, failed, t);
      CascadeKeepsRunning(plan, failed, t);
    }
  }

  /** The polled task itself is no longer running. */
  lemma PollStopsTask(plan: Plan, adapter: Adapter, l: Loop, t: TaskId)
    requires t in l.rows && t in l.sessions && t in l.sched.statuses && l.sched.statuses[t].RUNNING?
    requires !adapter.poll(t).Pending?
    ensures t in Polled(plan, adapter, l, t).rows && !Polled(plan, adapter, l, t).rows[t].status.RUNNING?
    ensures Polled(plan, adapter, l, t).sched == Updated(plan, l.sched, t, Outcome(adapter.poll(t)))
    ensures Polled(plan, adapter, l, t).sched.active == l.sched.active - {t}
    ensures Polled(plan, adapter, l, t).sessions == l.sessions
    ensures forall u | u != t && u in l.db.leases ::
              u in Polled(plan, adapter, l, t).db.leases && Polled(plan, adapter, l, t).db.leases[u] == l.db.leases[u]
  {
  }

  lemma LinksMove(plan: Plan, l: Loop, next: Loop, done: set<TaskId>, t: TaskId)
    requires Linked(plan, l, done) && t in l.sched.active
    requires SameRunning(l.rows, next.rows, t) && !next.rows[t].status.RUNNING?
    requires next.sched.active == l.sched.active - {t} && next.sessions == l.sessions
    requires forall u | u != t && u in l.db.leases :: u in next.db.leases && next.db.leases[u] == l.db.leases[u]
    ensures Linked(plan, next, done + {t})
  {
  }

  lemma PollKeepsLinks(plan: Plan, adapter: Adapter, l: Loop, done: set<TaskId>, t: TaskId)
    requires Linked(plan, l, done) && t in l.sched.active && t in l.sched.statuses && l.sched.statuses[t].RUNNING?
    requires DependentsWait(plan, l.rows, t)
    ensures Linked(plan, Polled(plan, adapter, l, t), if adapter.poll(t).Pending? then done else done + {t})
  {
    if !adapter.poll(t).Pending? {
      PollStopsTask(plan, adapter, l, t);
      PollKeepsRunning(plan, adapter, l, t);
      LinksMove(plan, l, Polled(plan, adapter, l, t), done, t);
    }
  }

  lemma PollKeepsSafe(plan: Plan, maxWorkers: int, adapter: Adapter, l: Loop, t: TaskId)
    requires Safety.Safe(plan, maxWorkers, l.sched) && t in l.sched.active && t in l.rows && t in l.sessions
    ensures Safety.Safe(plan, maxWorkers, Polled(plan, adapter, l, t).sched)
  {
    if !adapter.poll(t).Pending? {
      PollStopsTask(plan, adapter, l, t);
      Safety.ReportKeepsSafe(plan, maxWorkers, l.sched, t, Outcome(adapter.poll(t)));
    }
  }

  /** In the ledger, too, a task that depends on a running one has not run. */
  lemma DependentsHaveNotRun(plan: Plan, maxWorkers: int, s: State, rows: map<TaskId, TaskState>, t: TaskId, u: TaskId)
    requires Safety.Safe(plan, maxWorkers, s) && Shown(plan, s, rows) && t in s.active && plan.Graph().Reaches(u, t)
    ensures u in plan.tasks && !PastRunning(s.statuses[u]) && !PastRunning(StatusOf(rows, u))
  {
    ReachedIsKnown(plan.Graph(), u, t);
    Safety.CascadeSparesTheRun(plan, s, t, u);
  }

  lemma FailureKeepsShown(plan: Plan, s: State, rows: map<TaskId, TaskState>, t: TaskId)
    requires Shown(plan, s, rows) && t in s.statuses && t in rows && !plan.Graph().Reaches(t, t)
    requires forall u | u in plan.tasks && plan.Graph().Reaches(u, t) :: !PastRunning(StatusOf(rows, u))
    ensures Shown(plan, Updated(plan, s, t, FAILED), CascadedRows(plan, rows[t := Moved(rows[t], FAILED)], t))
  {
    var shown, recorded := Updated(plan, s, t, FAILED), CascadedRows(plan, rows[t := Moved(rows[t], FAILED)], t);
    forall u | u in plan.tasks ensures u in shown.statuses && Sees(shown.statuses[u], StatusOf(recorded, u)) {
      assert u != t && plan.Graph().Reaches(u, t) ==> shown.statuses[u].BLOCKED? && !PastRunning(StatusOf(recorded, u));
    }
  }

  lemma PollKeepsShown(plan: Plan, maxWorkers: int, adapter: Adapter, l: Loop, t: TaskId)
    requires Safety.Safe(plan, maxWorkers, l.sched) && Shown(plan, l.sched, l.rows)
    requires t in l.sched.active && t in l.rows && t in l.sessions
    ensures Shown(plan, Polled(plan, adapter, l, t).sched, Polled(plan, adapter, l, t).rows)
  {
    if adapter.poll(t).Failed? {
      RunningApart(plan, maxWorkers, l.sched, t, t);
      forall u | u in plan.tasks && plan.Graph().Reaches(u, t) ensures !PastRunning(StatusOf(l.rows, u)) {
        DependentsHaveNotRun(plan, maxWorkers, l.sched, l.rows, t, u);
      }
      FailureKeepsShown(plan, l.sched, l.rows, t);
    }
  }

  function NowFinished(adapter: Adapter, done: set<TaskId>, t: TaskId): set<TaskId> {
    if adapter.poll(t).Pending? then done else done + {t}
  }

  /** Polling any session keeps the agreement; a finished one moves to `done`. */
  lemma PollKeepsAgreement(plan: Plan, maxWorkers: int, adapter: Adapter, l: Loop, done: set<TaskId>,
                           after: set<TaskId>, t: TaskId)
    requires Agree(plan, maxWorkers, l, done) && t in l.sched.active && after == NowFinished(adapter, done, t)
    ensures Agree(plan, maxWorkers, Polled(plan, adapter, l, t), after)
  {
    RunningDependentsWait(plan, maxWorkers, l, done, t);
    PollKeepsLinks(plan, adapter, l, done, t);
    PollKeepsSafe(plan, maxWorkers, adapter, l, t);
    PollKeepsShown(plan, maxWorkers, adapter, l, t);
  }

  // ---------------------------------------------------------------------------------------
  // Polling all sessions
  // ---------------------------------------------------------------------------------------

  ghost function PolledAll(plan: Plan, adapter: Adapter, l: Loop, order: seq<TaskId>): Loop {
    if order == [] then l
    else
      var m, t := PolledAll(plan, adapter, l, order[..|order| - 1]), order[|order| - 1];
      if t in m.rows && t in m.sched.statuses && t in m.sessions then Polled(plan, adapter, m, t) else m
  }

  ghost function Finished(adapter: Adapter, ts: set<TaskId>): set<TaskId> {
    set t | t in ts && !adapter.poll(t).Pending?
  }

  /** What polling makes of the polled task's own row. */
  function RowAfterPoll(adapter: Adapter, row: TaskState, t: TaskId): TaskState {
    match adapter.poll(t)
    case Pending => row
    case Completed => Applied(row, Plainly(row, VALIDATING, adapter.digest(t)))
    case Uncertain => Moved(row, BLOCKED)
    case Failed => Moved(row, FAILED)
  }

  /** What the polling phase leaves of one polled session's task: its row and its lease. */
  ghost predicate Settled(adapter: Adapter, before: Loop, after: Loop, t: TaskId) {
    && t in before.rows && t in after.rows && after.rows[t] == RowAfterPoll(adapter, before.rows[t], t)
    && (adapter.poll(t).Completed? || adapter.poll(t).Failed? ==> t !in after.db.leases)
    && (adapter.poll(t).Uncertain? || adapter.poll(t).Pending? ==>
          t in before.db.leases && t in after.db.leases && after.db.leases[t] == before.db.leases[t])
    && (!adapter.poll(t).Pending? ==> Retired(after, t))
  }

  /** The scheduler will not dispatch this task. */
  predicate Retired(l: Loop, t: TaskId) { t in l.sched.statuses && !l.sched.statuses[t].READY? }

  ghost predicate Untouched(before: Loop, after: Loop, t: TaskId) {
    && t in before.rows && t in after.rows && after.rows[t] == before.rows[t]
    && t in before.db.leases && t in after.db.leases && after.db.leases[t] == before.db.leases[t]
  }

  lemma RunningApart(plan: Plan, maxWorkers: int, s: State, u: TaskId, t: TaskId)
    requires Safety.Safe(plan, maxWorkers, s) && u in s.active && t in s.active
    ensures !plan.Graph().Reaches(u, t)
  {
    if plan.Graph().Reaches(u, t) { Safety.RanMeansAllDone(plan, s, u, t); }
  }

  /** A task that does not depend on `t` survives a poll of `t`. */
  lemma PollSparesOthers(plan: Plan, adapter: Adapter, l: Loop, t: TaskId, u: TaskId)
    requires t in l.rows && t in l.sched.statuses && t in l.sessions && u != t && u in l.rows && u in l.db.leases
    requires !plan.Graph().Reaches(u, t)
    ensures Untouched(l, Polled(plan, adapter, l, t), u)
    ensures Retired(l, u) ==> Retired(Polled(plan, adapter, l, t), u)
  {
  }

  lemma PollSettlesOwn(plan: Plan, adapter: Adapter, l: Loop, t: TaskId)
    requires t in l.rows && t in l.sched.statuses && t in l.sessions && !plan.Graph().Reaches(t, t)
    requires Lease.Holds(l.db, t, l.sessions[t].worker, l.sessions[t].epoch)
    ensures Settled(adapter, l, Polled(plan, adapter, l, t), t)
  {
  }

  /** The agreement after the sessions in `ts` were polled. */
  ghost predicate AgreesAfter(plan: Plan, maxWorkers: int, adapter: Adapter, before: Loop, after: Loop,
                              ts: set<TaskId>) {
    Agree(plan, maxWorkers, after, Finished(adapter, ts)) && after.sessions == before.sessions
  }

  /** A session not yet polled is still a running task's, under a live lease. */
  lemma NotYetPolled(plan: Plan, maxWorkers: int, adapter: Adapter, l: Loop, m: Loop, ts: set<TaskId>, t: TaskId)
    requires Linked(plan, l, {}) && AgreesAfter(plan, maxWorkers, adapter, l, m, ts) && t in l.sched.active && t !in ts
    ensures t in m.sched.active && t in m.rows && t in m.sessions && t in m.sched.statuses
    ensures Lease.Holds(m.db, t, m.sessions[t].worker, m.sessions[t].epoch)
  {
    assert t in m.sessions;
  }

  lemma PollOneMore(plan: Plan, maxWorkers: int, adapter: Adapter, l: Loop, m: Loop, ts: set<TaskId>, t: TaskId)
    requires Linked(plan, l, {}) && AgreesAfter(plan, maxWorkers, adapter, l, m, ts) && t in l.sched.active && t !in ts
    requires t in m.rows && t in m.sched.statuses && t in m.sessions
    ensures AgreesAfter(plan, maxWorkers, adapter, l, Polled(plan, adapter, m, t), ts + {t})
  {
    NotYetPolled(plan, maxWorkers, adapter, l, m, ts, t);
    FinishedGrows(adapter, ts, t);
    PollKeepsAgreement(plan, maxWorkers, adapter, m, Finished(adapter, ts), Finished(adapter, ts + {t}), t);
    PollKeepsSessions(plan, adapter, m, t);
  }

  lemma FinishedGrows(adapter: Adapter, ts: set<TaskId>, t: TaskId)
    ensures Finished(adapter, ts + {t}) == NowFinished(adapter, Finished(adapter, ts), t)
  {
  }

  lemma PollKeepsSessions(plan: Plan, adapter: Adapter, l: Loop, t: TaskId)
    requires t in l.rows && t in l.sched.statuses && t in l.sessions
    ensures Polled(plan, adapter, l, t).sessions == l.sessions
  {
  }

  ghost predicate Sessions(l: Loop, order: seq<TaskId>) {
    NoDuplicates(order) && forall t | t in order :: t in l.sched.active
  }

  lemma SessionsLast(l: Loop, order: seq<TaskId>)
    requires Sessions(l, order) && order != []
    ensures var init, t := order[..|order| - 1], order[|order| - 1];
            && Sessions(l, init) && t in l.sched.active && t !in Elements(init)
            && Elements(order) == Elements(init) + {t}
  {
    assert order == order[..|order| - 1] + [order[|order| - 1]];
  }

  /** In whatever order the sessions are polled, the agreement stands at the end. */
  lemma {:induction false} PollingAgrees(plan: Plan, maxWorkers: int, adapter: Adapter, l: Loop, order: seq<TaskId>)
    requires Agree(plan, maxWorkers, l, {}) && Sessions(l, order)
    ensures AgreesAfter(plan, maxWorkers, adapter, l, PolledAll(plan, adapter, l, order), Elements(order))
  {
    if order == [] {
      assert Finished(adapter, Elements(order)) == {};
    } else {
      var init, t := order[..|order| - 1], order[|order| - 1];
      SessionsLast(l, order);
      PollingAgrees(plan, maxWorkers, adapter, l, init);
      var m := PolledAll(plan, adapter, l, init);
      NotYetPolled(plan, maxWorkers, adapter, l, m, Elements(init), t);
      PollOneMore(plan, maxWorkers, adapter, l, m, Elements(init), t);
    }
  }

  /** And each session is settled by its own poll alone, whatever the others brought. */
  lemma {:induction false} PollingSettles(plan: Plan, maxWorkers: int, adapter: Adapter, l: Loop, order: seq<TaskId>,
                                          u: TaskId)
    requires Agree(plan, maxWorkers, l, {}) && Sessions(l, order) && u in l.sched.active
    ensures var after := PolledAll(plan, adapter, l, order);
            if u in order then Settled(adapter, l, after, u) else Untouched(l, after, u)
  {
    if order != [] {
      var init, t := order[..|order| - 1], order[|order| - 1];
      SessionsLast(l, order);
      PollingSettles(plan, maxWorkers, adapter, l, init, u);
      PollingAgrees(plan, maxWorkers, adapter, l, init);
      var m := PolledAll(plan, adapter, l, init);
      NotYetPolled(plan, maxWorkers, adapter, l, m, Elements(init), t);
      RunningApart(plan, maxWorkers, l.sched, u, t);
      SettlesOneMore(plan, adapter, l, m, Elements(init), t, u);
    }
  }

  lemma SettlesOneMore(plan: Plan, adapter: Adapter, l: Loop, m: Loop, ts: set<TaskId>, t: TaskId, u: TaskId)
    requires t in m.rows && t in m.sessions && t in m.sched.statuses && t !in ts && !plan.Graph().Reaches(u, t)
    requires Lease.Holds(m.db, t, m.sessions[t].worker, m.sessions[t].epoch)
    requires if u in ts then Settled(adapter, l, m, u) else Untouched(l, m, u)
    ensures var after := Polled(plan, adapter, m, t);
            if u in ts + {t} then Settled(adapter, l, after, u) else Untouched(l, after, u)
  {
    if u == t {
      PollSettlesOwn(plan, adapter, m, t);
    } else if u in m.db.leases {
      PollSparesOthers(plan, adapter, m, t, u);
    } else {
      PollSparesRow(plan, adapter, m, t, u);
    }
  }

  lemma PollSparesRow(plan: Plan, adapter: Adapter, l: Loop, t: TaskId, u: TaskId)
    requires t in l.rows && t in l.sched.statuses && t in l.sessions && u != t && u in l.rows && u !in l.db.leases
    requires !plan.Graph().Reaches(u, t)
    ensures u in Polled(plan, adapter, l, t).rows && Polled(plan, adapter, l, t).rows[u] == l.rows[u]
    ensures u !in Polled(plan, adapter, l, t).db.leases
    ensures Retired(l, u) ==> Retired(Polled(plan, adapter, l, t), u)
  {
  }

  // ---------------------------------------------------------------------------------------
  // Dispatching
  // ---------------------------------------------------------------------------------------

  function WorkerOf(t: TaskId): string { "worker-" + t }

  function AcquireStep(adapter: Adapter, host: Host, t: TaskId): Lease.Step {
    Lease.DoAcquire(t, WorkerOf(t), host.pid, adapter.leaseTimeout(t), host.now(t), host.live0(t), host.live1(t))
  }

  predicate CanLease(adapter: Adapter, host: Host, db: Lease.Db, t: TaskId) {
    host.leaseStoreReachable(t) && Lease.Try(db, AcquireStep(adapter, host, t)).Ok?
  }

  function LeasedFor(adapter: Adapter, host: Host, db: Lease.Db, t: TaskId): Lease.Db {
    if CanLease(adapter, host, db, t) then Lease.After(db, AcquireStep(adapter, host, t)) else db
  }

  /** The state once `t` runs: leased, dispatched, RUNNING in the ledger, and in session. */
  function Started(adapter: Adapter, host: Host, l: Loop, t: TaskId): Loop
    requires t in l.rows && adapter.start(t).Some?
  {
    Loop(l.rows[t := Moved(l.rows[t], RUNNING)], LeasedFor(adapter, host, l.db, t), Dispatched(l.sched, t),
         l.sessions[t := Session(adapter.start(t).value, WorkerOf(t), Lease.NewEpoch(l.db, t))])
  }

  /** Whether the loop gets as far as the lease without raising. */
  predicate Prepared(plan: Plan, adapter: Adapter, rows: map<TaskId, TaskState>, t: TaskId)
    requires t in plan.tasks
  {
    plan.tasks[t].worktree != "" && (adapter.validates ==> t in rows && adapter.contextValid(t))
  }

  /** Exactly when a dispatch goes through without raising; a refused lease is passed over. */
  predicate CanStart(plan: Plan, adapter: Adapter, host: Host, l: Loop, t: TaskId)
    requires t in plan.tasks
  {
    && Prepared(plan, adapter, l.rows, t)
    && (CanLease(adapter, host, l.db, t) ==>
          t in l.rows && CanMove(t, l.rows[t], RUNNING, None, host.schemaAccepts(t, RUNNING)) && adapter.start(t).Some?)
  }

  predicate Startable(adapter: Adapter, host: Host, l: Loop, t: TaskId) {
    CanLease(adapter, host, l.db, t) && t in l.rows && adapter.start(t).Some?
  }

  function StartedIf(adapter: Adapter, host: Host, l: Loop, t: TaskId): Loop {
    if Startable(adapter, host, l, t) then Started(adapter, host, l, t) else l
  }

  function StartedAll(adapter: Adapter, host: Host, l: Loop, list: seq<TaskId>): Loop {
    if list == [] then l
    else
      StartedIf(adapter, host, StartedAll(adapter, host, l, list[..|list| - 1]), list[|list| - 1])
  }

  lemma StartKeepsLinks(plan: Plan, adapter: Adapter, host: Host, l: Loop, t: TaskId)
    requires Linked(plan, l, {}) && t in plan.tasks && t in l.rows && adapter.start(t).Some?
    requires CanLease(adapter, host, l.db, t)
    ensures Linked(plan, Started(adapter, host, l, t), {})
  {
  }

  lemma StartKeepsShown(plan: Plan, s: State, rows: map<TaskId, TaskState>, t: TaskId)
    requires Shown(plan, s, rows) && t in rows
    ensures Shown(plan, Dispatched(s, t), rows[t := Moved(rows[t], RUNNING)])
  {
  }

  lemma StartKeepsAgreement(plan: Plan, maxWorkers: int, adapter: Adapter, host: Host, l: Loop, t: TaskId)
    requires Agree(plan, maxWorkers, l, {}) && t in Dispatchable(plan, maxWorkers, l.sched)
    requires t in l.rows && adapter.start(t).Some? && CanLease(adapter, host, l.db, t)
    ensures Agree(plan, maxWorkers, Started(adapter, host, l, t), {})
  {
    DispatchIsSafe(plan, maxWorkers, l.sched, t);
    StartKeepsLinks(plan, adapter, host, l, t);
    StartKeepsShown(plan, l.sched, l.rows, t);
    Safety.DispatchKeepsSafe(plan, maxWorkers, l.sched, t);
  }

  /** Dispatching the tasks `ts` kept the agreement and took nothing else off the list. */
  ghost predicate Dispatches(plan: Plan, maxWorkers: int, before: Loop, after: Loop, ts: set<TaskId>) {
    && Agree(plan, maxWorkers, after, {})
    && forall t | t in Dispatchable(plan, maxWorkers, before.sched) && t !in ts ::
      t in Dispatchable(plan, maxWorkers, after.sched)
  }

  lemma DispatchOneMore(plan: Plan, maxWorkers: int, adapter: Adapter, host: Host, l: Loop, m: Loop, ts: set<TaskId>,
                        t: TaskId)
    requires Dispatches(plan, maxWorkers, l, m, ts) && t in Dispatchable(plan, maxWorkers, l.sched) && t !in ts
    ensures Dispatches(plan, maxWorkers, l, StartedIf(adapter, host, m, t), ts + {t})
  {
    if Startable(adapter, host, m, t) {
      StartKeepsAgreement(plan, maxWorkers, adapter, host, m, t);
      GreedyStability(plan, maxWorkers, m.sched, t);
    }
  }

  lemma TakeAll<T>(s: seq<T>)
    ensures s[..|s|] == s
  {
  }

  lemma ListLast(list: seq<TaskId>)
    requires NoDuplicates(list) && list != []
    ensures var init, t := list[..|list| - 1], list[|list| - 1];
            && NoDuplicates(init) && t !in Elements(init) && Elements(list) == Elements(init) + {t}
  {
    assert list == list[..|list| - 1] + [list[|list| - 1]];
  }

  /** The list was computed once, before the first dispatch; it stays right to its end. */
  lemma {:induction false} DispatchingAgrees(plan: Plan, maxWorkers: int, adapter: Adapter, host: Host, l: Loop,
                                             list: seq<TaskId>)
    requires Agree(plan, maxWorkers, l, {}) && NoDuplicates(list)
    requires forall t | t in list :: t in Dispatchable(plan, maxWorkers, l.sched)
    ensures Dispatches(plan, maxWorkers, l, StartedAll(adapter, host, l, list), Elements(list))
  {
    if list != [] {
      var init, t := list[..|list| - 1], list[|list| - 1];
      ListLast(list);
      DispatchingAgrees(plan, maxWorkers, adapter, host, l, init);
      DispatchOneMore(plan, maxWorkers, adapter, host, l, StartedAll(adapter, host, l, init), Elements(init), t);
    }
  }

  predicate SameAt<V(==)>(a: map<TaskId, V>, b: map<TaskId, V>, t: TaskId) {
    (t in a <==> t in b) && (t in a && t in b ==> a[t] == b[t])
  }

  predicate Kept(before: Loop, after: Loop, t: TaskId) {
    && SameAt(before.rows, after.rows, t) && SameAt(before.sessions, after.sessions, t)
    && SameAt(before.db.leases, after.db.leases, t) && SameAt(before.db.epochs, after.db.epochs, t)
  }

  /** `t` now runs, in a session that holds its lease under a new epoch. */
  ghost predicate NowRunning(adapter: Adapter, host: Host, before: Loop, after: Loop, t: TaskId) {
    && t in before.rows && t in after.rows && MovedTo(before.rows[t], after.rows[t], RUNNING, None)
    && t in after.sessions && t in after.db.leases && t in after.db.epochs
    && adapter.start(t) == Some(after.sessions[t].id)
    && HeldAnew(adapter, host, before.db, after.db, t)
    && after.sessions[t].worker == after.db.leases[t].worker && after.sessions[t].epoch == after.db.leases[t].epoch
  }

  /** The lease of `t`, as its new holder finds it. */
  ghost predicate HeldAnew(adapter: Adapter, host: Host, before: Lease.Db, after: Lease.Db, t: TaskId)
    requires t in after.leases && t in after.epochs
  {
    var row := after.leases[t];
    && row.worker == "worker-" + t && row.pid == host.pid && row.timeout == adapter.leaseTimeout(t)
    && row.heartbeat == host.now(t) && row.acquiredAt == host.now(t) && row.epoch == after.epochs[t]
    && row.epoch == 1 + (if t in before.leases then before.leases[t].epoch
                         else if t in before.epochs then before.epochs[t] else 0)
  }

  /** The lease can be had: the store answers, and whoever holds it is dead, and not in force at the first look. */
  ghost predicate LeaseIsFree(host: Host, db: Lease.Db, t: TaskId) {
    && host.leaseStoreReachable(t)
    && (t in db.leases ==>
          && db.leases[t].pid !in host.live1(t)
          && (db.leases[t].pid in host.live0(t) ==> host.now(t) > db.leases[t].heartbeat + db.leases[t].timeout))
  }

  lemma LeaseExactly(adapter: Adapter, host: Host, db: Lease.Db, t: TaskId)
    ensures CanLease(adapter, host, db, t) <==> LeaseIsFree(host, db, t)
    ensures var after := LeasedFor(adapter, host, db, t);
            if LeaseIsFree(host, db, t)
            then && t in after.leases && t in after.epochs && HeldAnew(adapter, host, db, after, t)
                 && Lease.OthersStay(db, after, t)
            else after == db
  {
    Lease.AcquireExactly(db, t, "worker-" + t, host.pid, adapter.leaseTimeout(t), host.now(t), host.live0(t),
                         host.live1(t));
  }

  /** Each listed task starts exactly when its own lease could be had, whatever the others brought. */
  lemma {:induction false} DispatchingSettles(adapter: Adapter, host: Host, l: Loop, list: seq<TaskId>, u: TaskId)
    requires NoDuplicates(list)
    ensures var after := StartedAll(adapter, host, l, list);
            if u in list && Startable(adapter, host, l, u) then NowRunning(adapter, host, l, after, u)
            else Kept(l, after, u)
  {
    if list != [] {
      var init, t := list[..|list| - 1], list[|list| - 1];
      ListLast(list);
      DispatchingSettles(adapter, host, l, init, u);
      StartSettles(adapter, host, StartedAll(adapter, host, l, init), t, u);
    }
  }

  lemma StartSettles(adapter: Adapter, host: Host, l: Loop, t: TaskId, u: TaskId)
    ensures var after := StartedIf(adapter, host, l, t);
            if u == t && Startable(adapter, host, l, u) then NowRunning(adapter, host, l, after, u)
            else Kept(l, after, u)
  {
    if Startable(adapter, host, l, t) {
      LeaseExactly(adapter, host, l.db, t);
      MovedMeans(l.rows[t], RUNNING);
    }
  }

  // ---------------------------------------------------------------------------------------
  // One whole step
  // ---------------------------------------------------------------------------------------

  function Dropped(l: Loop, done: set<TaskId>): Loop { l.(sessions := l.sessions - done) }

  /** All sessions polled, in this order, and the finished ones deleted. */
  ghost function AfterPolling(plan: Plan, adapter: Adapter, l: Loop, order: seq<TaskId>): Loop {
    Dropped(PolledAll(plan, adapter, l, order), Finished(adapter, Elements(order)))
  }

  ghost function Stepped(plan: Plan, maxWorkers: int, adapter: Adapter, host: Host, l: Loop, order: seq<TaskId>): Loop {
    var mid := AfterPolling(plan, adapter, l, order);
    StartedAll(adapter, host, mid, Dispatchable(plan, maxWorkers, mid.sched))
  }

  lemma DroppingAgrees(plan: Plan, maxWorkers: int, l: Loop, done: set<TaskId>)
    requires Agree(plan, maxWorkers, l, done)
    ensures Agree(plan, maxWorkers, Dropped(l, done), {})
  {
  }

  ghost predicate CanPollAt(plan: Plan, adapter: Adapter, host: Host, l: Loop, order: seq<TaskId>, i: nat) {
    i < |order| ==> CanFinish(plan, adapter, host, PolledAll(plan, adapter, l, order[..i]).rows, order[i])
  }

  predicate CanStartAt(plan: Plan, adapter: Adapter, host: Host, l: Loop, list: seq<TaskId>, i: nat) {
    i < |list| ==>
      list[i] in plan.tasks && CanStart(plan, adapter, host, StartedAll(adapter, host, l, list[..i]), list[i])
  }

  /** The first `n` sessions of the order can be polled without raising. */
  ghost predicate CanPoll(plan: Plan, adapter: Adapter, host: Host, l: Loop, order: seq<TaskId>, n: nat) {
    n > 0 ==> CanPoll(plan, adapter, host, l, order, n - 1) && CanPollAt(plan, adapter, host, l, order, n - 1)
  }

  lemma {:induction false} CannotPoll(plan: Plan, adapter: Adapter, host: Host, l: Loop, order: seq<TaskId>, i: nat,
                                      n: nat)
    requires i < n && !CanPollAt(plan, adapter, host, l, order, i)
    ensures !CanPoll(plan, adapter, host, l, order, n)
  {
    if i < n - 1 { CannotPoll(plan, adapter, host, l, order, i, n - 1); }
  }

  /** The first `n` tasks of the list can be started, or passed over, without raising. */
  predicate CanDispatch(plan: Plan, adapter: Adapter, host: Host, l: Loop, list: seq<TaskId>, n: nat) {
    n > 0 ==> CanDispatch(plan, adapter, host, l, list, n - 1) && CanStartAt(plan, adapter, host, l, list, n - 1)
  }

  lemma {:induction false} CannotDispatch(plan: Plan, adapter: Adapter, host: Host, l: Loop, list: seq<TaskId>, i: nat,
                                          n: nat)
    requires i < n && !CanStartAt(plan, adapter, host, l, list, i)
    ensures !CanDispatch(plan, adapter, host, l, list, n)
  {
    if i < n - 1 { CannotDispatch(plan, adapter, host, l, list, i, n - 1); }
  }

  /** Exactly when a step that polls in this order goes through without raising. */
  ghost predicate CanStep(plan: Plan, maxWorkers: int, adapter: Adapter, host: Host, l: Loop, order: seq<TaskId>) {
    && CanPoll(plan, adapter, host, l, order, |order|)
    && var mid := AfterPolling(plan, adapter, l, order);
       var list := Dispatchable(plan, maxWorkers, mid.sched);
       CanDispatch(plan, adapter, host, mid, list, |list|)
  }

  /** What a step does to a session that was there before it. */
  ghost predicate SessionStepped(adapter: Adapter, before: Loop, after: Loop, t: TaskId) {
    && t in before.sessions && t in before.rows && t in after.rows
    && (adapter.poll(t).Completed? ==> MovedTo(before.rows[t], after.rows[t], VALIDATING, adapter.digest(t)))
    && (adapter.poll(t).Failed? ==> MovedTo(before.rows[t], after.rows[t], FAILED, None))
    && (adapter.poll(t).Uncertain? ==> MovedTo(before.rows[t], after.rows[t], BLOCKED, None))
    && (adapter.poll(t).Pending? ==> after.rows[t] == before.rows[t])
    && (adapter.poll(t).Pending? <==> t in after.sessions)
    && (t in after.sessions ==> after.sessions[t] == before.sessions[t])
    && (t in after.db.leases <==> adapter.poll(t).Pending? || adapter.poll(t).Uncertain?)
    && (t in after.db.leases ==> t in before.db.leases && after.db.leases[t] == before.db.leases[t])
  }

  lemma PolledIsNotDispatchable(plan: Plan, maxWorkers: int, adapter: Adapter, l: Loop, mid: Loop, t: TaskId)
    requires Agree(plan, maxWorkers, mid, {}) && Settled(adapter, l, mid, t)
    requires adapter.poll(t).Pending? ==> t in mid.sched.active
    ensures t !in Dispatchable(plan, maxWorkers, mid.sched)
  {
    DispatchableAreCandidates(plan, maxWorkers, mid.sched);
  }

  /** Ledger, scheduler, leases and sessions agree again after every step that does not raise. */
  lemma StepAgrees(plan: Plan, maxWorkers: int, adapter: Adapter, host: Host, l: Loop, order: seq<TaskId>)
    requires Agree(plan, maxWorkers, l, {}) && Sessions(l, order)
    ensures Agree(plan, maxWorkers, AfterPolling(plan, adapter, l, order), {})
    ensures Agree(plan, maxWorkers, Stepped(plan, maxWorkers, adapter, host, l, order), {})
  {
    PollingAgrees(plan, maxWorkers, adapter, l, order);
    DroppingAgrees(plan, maxWorkers, PolledAll(plan, adapter, l, order), Finished(adapter, Elements(order)));
    var mid := AfterPolling(plan, adapter, l, order);
    DispatchableAreCandidates(plan, maxWorkers, mid.sched);
    DispatchingAgrees(plan, maxWorkers, adapter, host, mid, Dispatchable(plan, maxWorkers, mid.sched));
  }

  /** And every session it found was kept or ended by its own poll. */
  lemma StepSettlesSessions(plan: Plan, maxWorkers: int, adapter: Adapter, host: Host, l: Loop, order: seq<TaskId>,
                            t: TaskId)
    requires Agree(plan, maxWorkers, l, {}) && Sessions(l, order) && t in order
    ensures SessionStepped(adapter, l, Stepped(plan, maxWorkers, adapter, host, l, order), t)
  {
    var mid := AfterPolling(plan, adapter, l, order);
    var list := Dispatchable(plan, maxWorkers, mid.sched);
    SettledInTheMiddle(plan, maxWorkers, adapter, l, order, t);
    DispatchableAreCandidates(plan, maxWorkers, mid.sched);
    DispatchingSettles(adapter, host, mid, list, t);
  }

  lemma RowAfterPollMeans(adapter: Adapter, row: TaskState, t: TaskId)
    ensures var after := RowAfterPoll(adapter, row, t);
            match adapter.poll(t)
            case Completed => MovedTo(row, after, VALIDATING, adapter.digest(t))
            case Failed => MovedTo(row, after, FAILED, None)
            case Uncertain => MovedTo(row, after, BLOCKED, None)
            case Pending => after == row
  {
  }

  lemma SettledInTheMiddle(plan: Plan, maxWorkers: int, adapter: Adapter, l: Loop, order: seq<TaskId>, t: TaskId)
    requires Agree(plan, maxWorkers, l, {}) && Sessions(l, order) && t in order
    ensures var mid := AfterPolling(plan, adapter, l, order);
            && Shaped(plan, mid.sched) && t !in Dispatchable(plan, maxWorkers, mid.sched)
            && SessionStepped(adapter, l, mid, t)
  {
    PollingAgrees(plan, maxWorkers, adapter, l, order);
    var polled, done := PolledAll(plan, adapter, l, order), Finished(adapter, Elements(order));
    DroppingAgrees(plan, maxWorkers, polled, done);
    PollingSettles(plan, maxWorkers, adapter, l, order, t);
    RowAfterPollMeans(adapter, l.rows[t], t);
    PolledIsNotDispatchable(plan, maxWorkers, adapter, l, Dropped(polled, done), t);
  }

  lemma FinishedNext(adapter: Adapter, order: seq<TaskId>, i: nat)
    requires i < |order|
    ensures Finished(adapter, Elements(order[..i + 1])) ==
            NowFinished(adapter, Finished(adapter, Elements(order[..i])), order[i])
  {
    assert order[..i + 1] == order[..i] + [order[i]];
    assert Elements(order[..i + 1]) == Elements(order[..i]) + {order[i]};
    FinishedGrows(adapter, Elements(order[..i]), order[i]);
  }

  /** From position `i` on, the list computed earlier is still what the scheduler would offer. */
  predicate StillListed(plan: Plan, maxWorkers: int, s: State, list: seq<TaskId>, i: nat) {
    forall j | i <= j < |list| :: list[j] in Dispatchable(plan, maxWorkers, s)
  }

  /** After a start, or a refused lease, the rest of the list can still be dispatched. */
  lemma RestStaysDispatchable(plan: Plan, maxWorkers: int, adapter: Adapter, host: Host, l: Loop, list: seq<TaskId>,
                              i: nat)
    requires Shaped(plan, l.sched) && NoDuplicates(list) && i < |list|
    requires StillListed(plan, maxWorkers, l.sched, list, i)
    ensures list[i] in plan.tasks && list[i] in Dispatchable(plan, maxWorkers, l.sched)
    ensures StillListed(plan, maxWorkers, StartedIf(adapter, host, l, list[i]).sched, list, i + 1)
  {
    GreedyStability(plan, maxWorkers, l.sched, list[i]);
    DispatchableAreCandidates(plan, maxWorkers, l.sched);
  }

  /** What a run reports: each task's status, or none for a task without a row. */
  function Summary(plan: Plan, rows: map<TaskId, TaskState>): map<TaskId, Option<TaskStatus>> {
    map t | t in plan.tasks :: if t in rows then Some(rows[t].status) else None
  }

  // ---------------------------------------------------------------------------------------
  // Starting up
  // ---------------------------------------------------------------------------------------

  function RowOr(rows: map<TaskId, TaskState>, t: TaskId, initial: TaskState): TaskState {
    if t in rows then rows[t] else initial
  }

  /** A task recorded as RUNNING without a session here must be recovered from its lease. */
  predicate NeedsRecovery(l: Loop, t: TaskId, initial: TaskState) {
    RowOr(l.rows, t, initial).status.RUNNING? && t !in l.sessions
  }

  /** Exactly when loading `t` goes through without raising. */
  predicate CanRecover(adapter: Adapter, host: Host, l: Loop, t: TaskId, initial: TaskState) {
    && (t !in l.rows ==> host.schemaAccepts(t, PROPOSED))
    && (NeedsRecovery(l, t, initial) ==>
          && adapter.recovers && t in l.db.leases && (adapter.validates ==> adapter.contextValid(t))
          && adapter.recover(t).Some?)
  }

  /** The first `n` tasks of the order can be loaded without raising. */
  predicate CanLoad(adapter: Adapter, host: Host, l: Loop, order: seq<TaskId>, initial: TaskState, n: nat)
    requires n <= |order|
  {
    n > 0 ==> CanLoad(adapter, host, l, order, initial, n - 1) && CanRecover(adapter, host, l, order[n - 1], initial)
  }

  lemma {:induction false} CanLoadMeans(adapter: Adapter, host: Host, l: Loop, order: seq<TaskId>, initial: TaskState,
                                        n: nat)
    requires n <= |order|
    ensures CanLoad(adapter, host, l, order, initial, n) <==>
              forall i | 0 <= i < n :: CanRecover(adapter, host, l, order[i], initial)
  {
    if n > 0 { CanLoadMeans(adapter, host, l, order, initial, n - 1); }
  }

  lemma {:induction false} CannotLoad(adapter: Adapter, host: Host, l: Loop, order: seq<TaskId>, initial: TaskState,
                                      i: nat, n: nat)
    requires i < n <= |order| && !CanRecover(adapter, host, l, order[i], initial)
    ensures !CanLoad(adapter, host, l, order, initial, n)
  {
    if i < n - 1 { CannotLoad(adapter, host, l, order, initial, i, n - 1); }
  }

  /** A running task gets the session the adapter recovers, under the lease on record. */
  function Reattached(adapter: Adapter, host: Host, l: Loop, t: TaskId, initial: TaskState): map<TaskId, Session>
    requires CanRecover(adapter, host, l, t, initial)
  {
    if NeedsRecovery(l, t, initial)
    then l.sessions[t := Session(adapter.recover(t).value, l.db.leases[t].worker, l.db.leases[t].epoch)]
    else l.sessions
  }

  ghost function Recovered(plan: Plan, adapter: Adapter, host: Host, l: Loop, t: TaskId, initial: TaskState): Loop
    requires t in l.sched.statuses && CanRecover(adapter, host, l, t, initial)
  {
    l.(rows := l.rows[t := RowOr(l.rows, t, initial)],
       sched := Updated(plan, l.sched, t, RowOr(l.rows, t, initial).status),
       sessions := Reattached(adapter, host, l, t, initial))
  }

  ghost function RecoveredIf(plan: Plan, adapter: Adapter, host: Host, l: Loop, t: TaskId, initial: TaskState): Loop {
    if t in l.sched.statuses && CanRecover(adapter, host, l, t, initial)
    then Recovered(plan, adapter, host, l, t, initial)
    else l
  }

  ghost function RecoveredAll(plan: Plan, adapter: Adapter, host: Host, l: Loop, order: seq<TaskId>,
                              initial: TaskState): Loop {
    if order == [] then l
    else RecoveredIf(plan, adapter, host, RecoveredAll(plan, adapter, host, l, order[..|order| - 1], initial),
                     order[|order| - 1], initial)
  }

  function RunningTasks(plan: Plan, rows: map<TaskId, TaskState>): set<TaskId> {
    set t | t in plan.tasks && t in rows && rows[t].status.RUNNING?
  }

  /** The ledger, read as a scheduler state. */
  function LedgerView(plan: Plan, rows: map<TaskId, TaskState>, attempts: map<TaskId, nat>): State {
    State(map t | t in plan.tasks :: StatusOf(rows, t), RunningTasks(plan, rows), attempts)
  }

  /** Among the tasks looked at all running ones are active; the active ones are in session and hold their lease. */
  ghost predicate Attached(l: Loop, seen: set<TaskId>) {
    && l.sessions.Keys == l.sched.active
    && (forall t | t in l.sched.active ::
          && t in l.rows && l.rows[t].status.RUNNING?
          && t in l.sessions && Lease.Holds(l.db, t, l.sessions[t].worker, l.sessions[t].epoch))
    && (forall t | t in seen && t in l.rows && l.rows[t].status.RUNNING? :: t in l.sched.active)
  }

  /** Half way through loading: the tasks in `seen` are in agreement, the rest not yet looked at. */
  ghost predicate Recovering(plan: Plan, l: Loop, seen: set<TaskId>) {
    && Shaped(plan, l.sched) && seen <= plan.tasks.Keys && Attached(l, seen)
    && (forall t | t in seen :: t in l.rows && Sees(l.sched.statuses[t], l.rows[t].status))
  }

  /** What a start-up may begin from: a safe ledger, and live sessions, if any, for running tasks under their leases. */
  ghost predicate Loadable(plan: Plan, maxWorkers: int, l: Loop) {
    && Safety.Safe(plan, maxWorkers, LedgerView(plan, l.rows, l.sched.attempts))
    && Shaped(plan, l.sched) && Attached(l, {})
  }

  /** A failure's cascade only blocks tasks that have not run, in the ledger as in the scheduler. */
  lemma CascadeIsHarmless(plan: Plan, maxWorkers: int, rows: map<TaskId, TaskState>, attempts: map<TaskId, nat>,
                          t: TaskId, u: TaskId)
    requires Safety.Safe(plan, maxWorkers, LedgerView(plan, rows, attempts)) && t in rows && rows[t].status.FAILED?
    requires plan.Graph().Reaches(u, t) && u in rows && t in plan.tasks
    ensures !PastRunning(rows[u].status)
  {
    ReachedIsKnown(plan.Graph(), u, t);
    assert LedgerView(plan, rows, attempts).statuses[t].FAILED?;
    Safety.CascadeSparesTheRun(plan, LedgerView(plan, rows, attempts), t, u);
  }

  lemma UpdateSees(plan: Plan, maxWorkers: int, rows: map<TaskId, TaskState>, s: State, seen: set<TaskId>, t: TaskId)
    requires Safety.Safe(plan, maxWorkers, LedgerView(plan, rows, s.attempts)) && Shaped(plan, s)
    requires seen <= plan.tasks.Keys && t in plan.tasks && t in rows
    requires forall u | u in seen :: u in rows && Sees(s.statuses[u], rows[u].status)
    ensures Shaped(plan, Updated(plan, s, t, rows[t].status))
    ensures forall u | u in seen + {t} :: Sees(Updated(plan, s, t, rows[t].status).statuses[u], rows[u].status)
  {
    if rows[t].status.FAILED? {
      forall u | u in seen + {t} && plan.Graph().Reaches(u, t) ensures !PastRunning(rows[u].status) {
        CascadeIsHarmless(plan, maxWorkers, rows, s.attempts, t, u);
      }
    }
  }

  lemma RegisterKeepsView(plan: Plan, rows: map<TaskId, TaskState>, attempts: map<TaskId, nat>, t: TaskId,
                          initial: TaskState)
    requires t in plan.tasks && initial.status.PROPOSED?
    ensures LedgerView(plan, rows[t := RowOr(rows, t, initial)], attempts) == LedgerView(plan, rows, attempts)
  {
    assert RunningTasks(plan, rows[t := RowOr(rows, t, initial)]) == RunningTasks(plan, rows);
  }

  lemma RecoverAttaches(plan: Plan, adapter: Adapter, host: Host, l: Loop, seen: set<TaskId>, t: TaskId,
                        initial: TaskState)
    requires Attached(l, seen) && t in l.sched.statuses && t !in seen && initial.status.PROPOSED?
    requires CanRecover(adapter, host, l, t, initial)
    ensures Attached(Recovered(plan, adapter, host, l, t, initial), seen + {t})
  {
  }

  lemma RecoverStep(plan: Plan, maxWorkers: int, adapter: Adapter, host: Host, l: Loop, seen: set<TaskId>, t: TaskId,
                    initial: TaskState)
    requires Safety.Safe(plan, maxWorkers, LedgerView(plan, l.rows, l.sched.attempts)) && Recovering(plan, l, seen)
    requires t in plan.tasks && t !in seen && initial.status.PROPOSED? && CanRecover(adapter, host, l, t, initial)
    ensures var after := RecoveredIf(plan, adapter, host, l, t, initial);
            && Recovering(plan, after, seen + {t}) && after.sched.attempts == l.sched.attempts
            && LedgerView(plan, after.rows, after.sched.attempts) == LedgerView(plan, l.rows, l.sched.attempts)
  {
    RegisterKeepsView(plan, l.rows, l.sched.attempts, t, initial);
    RecoverAttaches(plan, adapter, host, l, seen, t, initial);
    UpdateSees(plan, maxWorkers, l.rows[t := RowOr(l.rows, t, initial)], l.sched, seen, t);
  }

  /** Two scheduler states that show the same story, but for tasks blocked before they ran. */
  ghost predicate SameStory(plan: Plan, recorded: State, shown: State) {
    && Shaped(plan, shown) && shown.active == recorded.active && shown.attempts == recorded.attempts
    && forall t | t in plan.tasks :: t in recorded.statuses && Sees(shown.statuses[t], recorded.statuses[t])
  }

  lemma SeenKeepsOrder(plan: Plan, recorded: State, shown: State)
    requires Shaped(plan, recorded) && SameStory(plan, recorded, shown)
    ensures Safety.RanAfterDependencies(plan, recorded) <==> Safety.RanAfterDependencies(plan, shown)
  {
    assert forall t | t in plan.tasks ::
      && (PastRunning(shown.statuses[t]) <==> PastRunning(recorded.statuses[t]))
      && (shown.statuses[t].DONE? <==> recorded.statuses[t].DONE?);
    assert forall t, d | plan.Graph().Edge(t, d) :: t in plan.tasks && d in plan.tasks;
  }

  lemma SeenKeepsDispatches(plan: Plan, recorded: State, shown: State)
    requires Shaped(plan, recorded) && SameStory(plan, recorded, shown)
    ensures Safety.DispatchedAfterDependencies(plan, recorded) <==> Safety.DispatchedAfterDependencies(plan, shown)
  {
    assert forall t | t in plan.tasks :: shown.statuses[t].DONE? <==> recorded.statuses[t].DONE?;
    assert forall t, d | plan.Graph().Edge(t, d) :: t in plan.tasks && d in plan.tasks;
  }

  lemma SeenIsSafe(plan: Plan, maxWorkers: int, recorded: State, shown: State)
    requires Shaped(plan, recorded) && SameStory(plan, recorded, shown)
    ensures Safety.Safe(plan, maxWorkers, recorded) <==> Safety.Safe(plan, maxWorkers, shown)
  {
    SeenKeepsOrder(plan, recorded, shown);
    SeenKeepsDispatches(plan, recorded, shown);
    SeenKeepsActive(plan, recorded, shown);
  }

  lemma SeenKeepsActive(plan: Plan, recorded: State, shown: State)
    requires Shaped(plan, recorded) && SameStory(plan, recorded, shown)
    ensures Safety.ActiveIsRunning(recorded) <==> Safety.ActiveIsRunning(shown)
    ensures Safety.Compatible(plan, recorded) <==> Safety.Compatible(plan, shown)
  {
    assert forall t | t in plan.tasks :: shown.statuses[t].RUNNING? <==> recorded.statuses[t].RUNNING?;
  }

  lemma AttachedLinks(plan: Plan, l: Loop)
    requires Attached(l, plan.tasks.Keys) && l.sched.active <= plan.tasks.Keys
    ensures Linked(plan, l, {}) && l.sched.active == RunningTasks(plan, l.rows)
  {
  }

  lemma SeesAll(plan: Plan, l: Loop)
    requires Recovering(plan, l, plan.tasks.Keys)
    ensures Shown(plan, l.sched, l.rows)
    ensures SameStory(plan, LedgerView(plan, l.rows, l.sched.attempts), l.sched)
  {
    AttachedLinks(plan, l);
  }

  /** A fully loaded ledger that was in order leaves everything in agreement. */
  lemma RecoveredAgrees(plan: Plan, maxWorkers: int, l: Loop)
    requires Safety.Safe(plan, maxWorkers, LedgerView(plan, l.rows, l.sched.attempts))
    requires Recovering(plan, l, plan.tasks.Keys)
    ensures Agree(plan, maxWorkers, l, {})
  {
    AttachedLinks(plan, l);
    SeesAll(plan, l);
    SeenIsSafe(plan, maxWorkers, LedgerView(plan, l.rows, l.sched.attempts), l.sched);
  }

  predicate Untried(before: Loop, after: Loop, t: TaskId) {
    SameAt(before.rows, after.rows, t) && SameAt(before.sessions, after.sessions, t) && after.db == before.db
  }

  /** Loading one task neither helps nor hinders another. */
  lemma {:induction false} LoadingIsPointwise(plan: Plan, adapter: Adapter, host: Host, l: Loop, order: seq<TaskId>,
                                              initial: TaskState, u: TaskId)
    requires u !in order
    ensures Untried(l, RecoveredAll(plan, adapter, host, l, order, initial), u)
    ensures CanRecover(adapter, host, RecoveredAll(plan, adapter, host, l, order, initial), u, initial)
            <==> CanRecover(adapter, host, l, u, initial)
  {
    if order != [] {
      assert order == order[..|order| - 1] + [order[|order| - 1]];
      LoadingIsPointwise(plan, adapter, host, l, order[..|order| - 1], initial, u);
    }
  }

  lemma PlanOrder(plan: Plan)
    requires plan.Graph().Valid()
    ensures NoDuplicates(plan.order) && Elements(plan.order) == plan.tasks.Keys
    ensures forall i | 0 <= i < |plan.order| :: plan.order[i] in plan.tasks
  {
    assert forall i | 0 <= i < |plan.order| :: plan.order[i] in plan.Graph().order;
  }

  /** The whole start-up: every task of the plan loaded, in plan order. */
  lemma {:induction false} LoadingAgrees(plan: Plan, maxWorkers: int, adapter: Adapter, host: Host, l: Loop,
                                         order: seq<TaskId>, initial: TaskState)
    requires Loadable(plan, maxWorkers, l) && initial.status.PROPOSED?
    requires NoDuplicates(order) && forall t | t in order :: t in plan.tasks && CanRecover(adapter, host, l, t, initial)
    ensures var after := RecoveredAll(plan, adapter, host, l, order, initial);
            && Recovering(plan, after, Elements(order)) && after.sched.attempts == l.sched.attempts
            && LedgerView(plan, after.rows, after.sched.attempts) == LedgerView(plan, l.rows, l.sched.attempts)
  {
    if order != [] {
      var init, t := order[..|order| - 1], order[|order| - 1];
      ListLast(order);
      LoadingAgrees(plan, maxWorkers, adapter, host, l, init, initial);
      LoadingIsPointwise(plan, adapter, host, l, init, initial, t);
      RecoverStep(plan, maxWorkers, adapter, host, RecoveredAll(plan, adapter, host, l, init, initial), Elements(init),
                  t, initial);
    }
  }

  lemma LoadsThePlan(plan: Plan, adapter: Adapter, host: Host, l: Loop, initial: TaskState)
    requires plan.Graph().Valid()
    ensures CanLoad(adapter, host, l, plan.order, initial, |plan.order|) <==>
              forall t | t in plan.tasks :: CanRecover(adapter, host, l, t, initial)
  {
    CanLoadMeans(adapter, host, l, plan.order, initial, |plan.order|);
    PlanOrder(plan);
    assert forall t :: t in plan.order <==> t in Elements(plan.order);
  }

  lemma LoadingSummary(plan: Plan, maxWorkers: int, adapter: Adapter, host: Host, l: Loop, initial: TaskState)
    requires plan.Graph().Valid() && initial.status.PROPOSED?
    requires forall t | t in plan.tasks :: CanRecover(adapter, host, l, t, initial)
    ensures Loadable(plan, maxWorkers, l) ==>
              Agree(plan, maxWorkers, RecoveredAll(plan, adapter, host, l, plan.order, initial), {})
  {
    PlanOrder(plan);
    if Loadable(plan, maxWorkers, l) {
      forall t | t in plan.order ensures t in plan.tasks { assert t in Elements(plan.order); }
      LoadingAgrees(plan, maxWorkers, adapter, host, l, plan.order, initial);
      RecoveredAgrees(plan, maxWorkers, RecoveredAll(plan, adapter, host, l, plan.order, initial));
    }
  }

  // ---------------------------------------------------------------------------------------
  // Restarting from any crash point
  // ---------------------------------------------------------------------------------------

  function NoAttempts(plan: Plan): map<TaskId, nat> { map t | t in plan.tasks :: 0 }

  /** Read by a fresh scheduler, the ledger is a safe state. */
  ghost predicate Orderly(plan: Plan, maxWorkers: int, rows: map<TaskId, TaskState>) {
    Safety.Safe(plan, maxWorkers, LedgerView(plan, rows, NoAttempts(plan)))
  }

  ghost predicate OrderlyAt(plan: Plan, maxWorkers: int, trace: seq<Durable>, i: nat) {
    i < |trace| && Orderly(plan, maxWorkers, trace[i].rows)
  }

  ghost predicate AllOrderly(plan: Plan, maxWorkers: int, trace: seq<Durable>) {
    forall i | 0 <= i < |trace| :: OrderlyAt(plan, maxWorkers, trace, i)
  }

  lemma AllOrderlyExtends(plan: Plan, maxWorkers: int, trace: seq<Durable>, next: Durable)
    requires AllOrderly(plan, maxWorkers, trace) && Orderly(plan, maxWorkers, next.rows)
    ensures AllOrderly(plan, maxWorkers, trace + [next])
  {
    forall i | 0 <= i < |trace + [next]| ensures OrderlyAt(plan, maxWorkers, trace + [next], i) {
      if i < |trace| { assert OrderlyAt(plan, maxWorkers, trace, i); }
    }
  }

  lemma ForgetAttempts(plan: Plan, maxWorkers: int, s: State)
    requires Safety.Safe(plan, maxWorkers, s)
    ensures Safety.Safe(plan, maxWorkers, s.(attempts := NoAttempts(plan)))
  {
    var fresh_ := s.(attempts := NoAttempts(plan));
    assert Safety.RanAfterDependencies(plan, fresh_);
    assert Safety.DispatchedAfterDependencies(plan, fresh_);
  }

  /** The scheduler is in a safe state and shows what the ledger records. */
  ghost predicate Mirrors(plan: Plan, maxWorkers: int, s: State, rows: map<TaskId, TaskState>) {
    Safety.Safe(plan, maxWorkers, s) && s.active == RunningTasks(plan, rows) && Shown(plan, s, rows)
  }

  lemma AgreeingMirrors(plan: Plan, maxWorkers: int, l: Loop, done: set<TaskId>)
    requires Agree(plan, maxWorkers, l, done)
    ensures Mirrors(plan, maxWorkers, l.sched, l.rows)
  {
  }

  /** A ledger that a safe scheduler shows is orderly. */
  lemma MirroredIsOrderly(plan: Plan, maxWorkers: int, s: State, rows: map<TaskId, TaskState>)
    requires Mirrors(plan, maxWorkers, s, rows)
    ensures Orderly(plan, maxWorkers, rows)
  {
    var view := LedgerView(plan, rows, s.attempts);
    SeenIsSafe(plan, maxWorkers, view, s);
    ForgetAttempts(plan, maxWorkers, view);
  }

  /** The start of the `i`-th listed task would leave the ledger orderly. */
  ghost predicate JustifiedAt(plan: Plan, maxWorkers: int, adapter: Adapter, host: Host, l: Loop, list: seq<TaskId>,
                              i: nat) {
    i < |list| ==>
      var rows := StartedAll(adapter, host, l, list[..i]).rows;
      list[i] in rows ==> Orderly(plan, maxWorkers, Transitioned(rows, list[i], RUNNING, None))
  }

  ghost predicate Justified(plan: Plan, maxWorkers: int, adapter: Adapter, host: Host, l: Loop, list: seq<TaskId>) {
    forall i | 0 <= i < |list| :: JustifiedAt(plan, maxWorkers, adapter, host, l, list, i)
  }

  /** From agreement every start of the list is justified, for the list stays right to its end. */
  lemma StartsAreJustified(plan: Plan, maxWorkers: int, adapter: Adapter, host: Host, l: Loop)
    requires Agree(plan, maxWorkers, l, {})
    ensures Justified(plan, maxWorkers, adapter, host, l, Dispatchable(plan, maxWorkers, l.sched))
  {
    var list := Dispatchable(plan, maxWorkers, l.sched);
    DispatchableAreCandidates(plan, maxWorkers, l.sched);
    forall i | 0 <= i < |list| ensures JustifiedAt(plan, maxWorkers, adapter, host, l, list, i) {
      StartIsJustified(plan, maxWorkers, adapter, host, l, list, i);
    }
  }

  lemma BeforeInList(list: seq<TaskId>, i: nat)
    requires NoDuplicates(list) && i < |list|
    ensures NoDuplicates(list[..i]) && list[i] in list && list[i] !in Elements(list[..i])
    ensures forall t | t in list[..i] :: t in list
  {
  }

  lemma ListStaysRight(plan: Plan, maxWorkers: int, adapter: Adapter, host: Host, l: Loop, list: seq<TaskId>, i: nat)
    requires Agree(plan, maxWorkers, l, {}) && NoDuplicates(list) && i < |list|
    requires forall t | t in list :: t in Dispatchable(plan, maxWorkers, l.sched)
    ensures var m := StartedAll(adapter, host, l, list[..i]);
            Agree(plan, maxWorkers, m, {}) && list[i] in Dispatchable(plan, maxWorkers, m.sched)
  {
    BeforeInList(list, i);
    DispatchingAgrees(plan, maxWorkers, adapter, host, l, list[..i]);
  }

  lemma StartIsJustified(plan: Plan, maxWorkers: int, adapter: Adapter, host: Host, l: Loop, list: seq<TaskId>, i: nat)
    requires Agree(plan, maxWorkers, l, {}) && NoDuplicates(list) && i < |list|
    requires forall t | t in list :: t in Dispatchable(plan, maxWorkers, l.sched)
    ensures JustifiedAt(plan, maxWorkers, adapter, host, l, list, i)
  {
    var m := StartedAll(adapter, host, l, list[..i]);
    ListStaysRight(plan, maxWorkers, adapter, host, l, list, i);
    AgreeingMirrors(plan, maxWorkers, m, {});
    if list[i] in m.rows { StartKeepsMirror(plan, maxWorkers, m.sched, m.rows, list[i]); }
  }

  function Restated(s: State, t: TaskId, to: TaskStatus): State {
    s.(statuses := s.statuses[t := to], active := s.active - {t})
  }

  /** Any move of the table but the one to RUNNING keeps a safe state safe, even without a cascade. */
  lemma MoveKeepsSafe(plan: Plan, maxWorkers: int, s: State, t: TaskId, to: TaskStatus)
    requires Safety.Safe(plan, maxWorkers, s) && t in s.statuses && to in AllowedFrom(s.statuses[t]) && !to.RUNNING?
    ensures Safety.Safe(plan, maxWorkers, Restated(s, t, to))
  {
    Safety.SubsetNoLarger(Restated(s, t, to).active, s.active);
    MoveKeepsActive(plan, s, t, to);
    MoveKeepsOrder(plan, s, t, to);
  }

  lemma MoveKeepsActive(plan: Plan, s: State, t: TaskId, to: TaskStatus)
    requires Shaped(plan, s) && Safety.ActiveIsRunning(s) && Safety.Compatible(plan, s) && t in s.statuses
    requires !to.RUNNING?
    ensures Shaped(plan, Restated(s, t, to)) && Safety.ActiveIsRunning(Restated(s, t, to))
    ensures Safety.Compatible(plan, Restated(s, t, to))
  {
  }

  lemma MoveKeepsOrder(plan: Plan, s: State, t: TaskId, to: TaskStatus)
    requires t in s.statuses && to in AllowedFrom(s.statuses[t]) && !to.RUNNING?
    requires Safety.RanAfterDependencies(plan, s) && Safety.DispatchedAfterDependencies(plan, s)
    ensures Safety.RanAfterDependencies(plan, Restated(s, t, to))
    ensures Safety.DispatchedAfterDependencies(plan, Restated(s, t, to))
  {
    var next := Restated(s, t, to);
    forall u, d | plan.Graph().Edge(u, d) && u in next.statuses && PastRunning(next.statuses[u])
      ensures d in next.statuses && next.statuses[d].DONE?
    {
      assert PastRunning(s.statuses[u]);
    }
    forall u, d | plan.Graph().Edge(u, d) && AttemptsOf(next, u) > 0
      ensures d in next.statuses && next.statuses[d].DONE?
    {
      assert AttemptsOf(s, u) > 0;
    }
  }

  lemma MoveKeepsOrderly(plan: Plan, maxWorkers: int, rows: map<TaskId, TaskState>, t: TaskId, c: Change)
    requires Orderly(plan, maxWorkers, rows) && t in rows && c.to in AllowedFrom(rows[t].status) && !c.to.RUNNING?
    ensures Orderly(plan, maxWorkers, rows[t := Applied(rows[t], c)])
  {
    MoveShows(plan, rows, t, Applied(rows[t], c));
    if t in plan.tasks { MoveKeepsSafe(plan, maxWorkers, LedgerView(plan, rows, NoAttempts(plan)), t, c.to); }
  }

  lemma MoveShows(plan: Plan, rows: map<TaskId, TaskState>, t: TaskId, row: TaskState)
    requires t in rows && !row.status.RUNNING?
    ensures var view := LedgerView(plan, rows, NoAttempts(plan));
            LedgerView(plan, rows[t := row], NoAttempts(plan)) ==
              if t in plan.tasks then Restated(view, t, row.status) else view
  {
    var view, after := LedgerView(plan, rows, NoAttempts(plan)), LedgerView(plan, rows[t := row], NoAttempts(plan));
    if t in plan.tasks {
      assert after.statuses == view.statuses[t := row.status];
      assert after.active == view.active - {t};
    } else {
      assert after.statuses == view.statuses;
      assert after.active == view.active;
    }
  }

  lemma RegisterKeepsOrderly(plan: Plan, maxWorkers: int, rows: map<TaskId, TaskState>, t: TaskId, initial: TaskState)
    requires t in plan.tasks && t !in rows && initial.status.PROPOSED? && Orderly(plan, maxWorkers, rows)
    ensures Orderly(plan, maxWorkers, rows[t := initial])
  {
    RegisterKeepsView(plan, rows, NoAttempts(plan), t, initial);
  }

  lemma StartIsActive(plan: Plan, s: State, rows: map<TaskId, TaskState>, t: TaskId)
    requires s.active == RunningTasks(plan, rows) && t in plan.tasks && t in rows
    ensures Dispatched(s, t).active == RunningTasks(plan, rows[t := Moved(rows[t], RUNNING)])
  {
  }

  /** The one move to RUNNING is for a task of the scheduler's list, while scheduler and ledger agree. */
  lemma StartKeepsMirror(plan: Plan, maxWorkers: int, s: State, rows: map<TaskId, TaskState>, t: TaskId)
    requires Mirrors(plan, maxWorkers, s, rows) && t in Dispatchable(plan, maxWorkers, s) && t in rows
    ensures Mirrors(plan, maxWorkers, Dispatched(s, t), rows[t := Moved(rows[t], RUNNING)])
    ensures Orderly(plan, maxWorkers, rows[t := Moved(rows[t], RUNNING)])
  {
    DispatchIsSafe(plan, maxWorkers, s, t);
    Safety.DispatchKeepsSafe(plan, maxWorkers, s, t);
    StartKeepsShown(plan, s, rows, t);
    StartIsActive(plan, s, rows, t);
    MirroredIsOrderly(plan, maxWorkers, Dispatched(s, t), rows[t := Moved(rows[t], RUNNING)]);
  }

  /** A commit by the ledger keeps the trace orderly, unless it is a start that is not. */
  lemma TransitionKeepsTrace(plan: Plan, maxWorkers: int, trace: seq<Durable>, d: Durable, next: Durable, t: TaskId,
                             c: Change)
    requires AllOrderly(plan, maxWorkers, trace) && trace != [] && trace[|trace| - 1] == d
    requires t in d.rows && c.to in AllowedFrom(d.rows[t].status) && next.rows == d.rows[t := Applied(d.rows[t], c)]
    requires c.to.RUNNING? ==> Orderly(plan, maxWorkers, next.rows)
    ensures AllOrderly(plan, maxWorkers, trace + [next])
  {
    assert OrderlyAt(plan, maxWorkers, trace, |trace| - 1);
    if !c.to.RUNNING? { MoveKeepsOrderly(plan, maxWorkers, d.rows, t, c); }
    AllOrderlyExtends(plan, maxWorkers, trace, next);
  }

  /** What a committed transition lets the trace record. */
  lemma TransitionRecorded(plan: Plan, maxWorkers: int, trace: seq<Durable>, orderly: bool, d: Durable, t: TaskId,
                           c: Change, schemaAccepts: bool)
    requires trace != [] && trace[|trace| - 1] == d && (orderly ==> AllOrderly(plan, maxWorkers, trace))
    requires t in d.rows && Transition(t, d.rows[t], c, NoManager, schemaAccepts).Ok?
    requires c.to.RUNNING? ==>
      t in d.leases.leases && (orderly ==> Orderly(plan, maxWorkers, d.rows[t := Applied(d.rows[t], c)]))
    ensures var next := d.(rows := d.rows[t := Applied(d.rows[t], c)]);
            SafeCommit(d, next) && (orderly ==> AllOrderly(plan, maxWorkers, trace + [next]))
  {
    var next := d.(rows := d.rows[t := Applied(d.rows[t], c)]);
    LedgerCommit(d, t, c, schemaAccepts);
    if orderly { TransitionKeepsTrace(plan, maxWorkers, trace, d, next, t, c); }
  }

  lemma RegisterKeepsTrace(plan: Plan, maxWorkers: int, trace: seq<Durable>, d: Durable, next: Durable, t: TaskId,
                           initial: TaskState)
    requires AllOrderly(plan, maxWorkers, trace) && trace != [] && trace[|trace| - 1] == d
    requires t in plan.tasks && t !in d.rows && initial.status.PROPOSED? && next.rows == d.rows[t := initial]
    ensures AllOrderly(plan, maxWorkers, trace + [next])
  {
    assert OrderlyAt(plan, maxWorkers, trace, |trace| - 1);
    RegisterKeepsOrderly(plan, maxWorkers, d.rows, t, initial);
    AllOrderlyExtends(plan, maxWorkers, trace, next);
  }

  lemma LeaseKeepsTrace(plan: Plan, maxWorkers: int, trace: seq<Durable>, d: Durable, next: Durable)
    requires AllOrderly(plan, maxWorkers, trace) && trace != [] && trace[|trace| - 1] == d && next.rows == d.rows
    ensures AllOrderly(plan, maxWorkers, trace + [next])
  {
    assert OrderlyAt(plan, maxWorkers, trace, |trace| - 1);
    AllOrderlyExtends(plan, maxWorkers, trace, next);
  }

  /**
   Whatever durable state an orderly, crash-safe trace holds, a fresh controller loads it,
   given an adapter that recovers, and everything is in agreement again.
   */
  lemma RestartFromAnyCrashPoint(plan: Plan, maxWorkers: int, trace: seq<Durable>, i: nat,
                                 adapter: Adapter, host: Host, initial: TaskState)
    requires CrashSafe(trace) && AllOrderly(plan, maxWorkers, trace) && RunningIsLeased(trace[0]) && i < |trace|
    requires adapter.recovers && initial.status.PROPOSED?
    requires forall t | t in plan.tasks ::
               && adapter.recover(t).Some? && (adapter.validates ==> adapter.contextValid(t))
               && host.schemaAccepts(t, PROPOSED)
    ensures var l := Loop(trace[i].rows, trace[i].leases, Fresh(plan), map[]);
            && (forall t | t in plan.tasks :: CanRecover(adapter, host, l, t, initial))
            && Agree(plan, maxWorkers, RecoveredAll(plan, adapter, host, l, plan.order, initial), {})
  {
    CrashSafeMeans(trace, i);
    assert OrderlyAt(plan, maxWorkers, trace, i);
    FreshIsLoadable(plan, maxWorkers, trace[i]);
    LoadingSummary(plan, maxWorkers, adapter, host, Loop(trace[i].rows, trace[i].leases, Fresh(plan), map[]), initial);
  }

  lemma FreshIsLoadable(plan: Plan, maxWorkers: int, d: Durable)
    requires Orderly(plan, maxWorkers, d.rows)
    ensures plan.Graph().Valid() && Loadable(plan, maxWorkers, Loop(d.rows, d.leases, Fresh(plan), map[]))
  {
    assert Fresh(plan).attempts == NoAttempts(plan);
  }

  // ---------------------------------------------------------------------------------------
  // When a step cannot go through
  // ---------------------------------------------------------------------------------------

  /** A task, not finished or failed in the ledger, that depends on both. */
  ghost predicate SharedDependent(plan: Plan, rows: map<TaskId, TaskState>, a: TaskId, b: TaskId, u: TaskId) {
    && u in rows && plan.Graph().Reaches(u, a) && plan.Graph().Reaches(u, b)
    && !rows[u].status.FAILED? && !rows[u].status.DONE?
  }

  /** `a` is another session of the order that fails. */
  predicate FailsBeside(adapter: Adapter, order: seq<TaskId>, a: TaskId, b: TaskId) {
    a in order && a != b && adapter.poll(a).Failed? && adapter.poll(b).Failed?
  }

  /** No two of the sessions that fail have an open dependent in common. */
  ghost predicate NothingShared(plan: Plan, adapter: Adapter, rows: map<TaskId, TaskState>, order: seq<TaskId>) {
    forall a, b, u | b in order && FailsBeside(adapter, order, a, b) :: !SharedDependent(plan, rows, a, b, u)
  }

  /** Each session by itself can be polled without raising. */
  ghost predicate EachFinishes(plan: Plan, adapter: Adapter, host: Host, rows: map<TaskId, TaskState>,
                               order: seq<TaskId>) {
    forall t | t in order :: CanFinish(plan, adapter, host, rows, t)
  }

  /** A failed session of the order that `u` depends on. */
  ghost predicate FailsUnder(plan: Plan, adapter: Adapter, order: seq<TaskId>, u: TaskId, a: TaskId) {
    a in order && adapter.poll(a).Failed? && plan.Graph().Reaches(u, a)
  }

  ghost predicate HitBy(plan: Plan, adapter: Adapter, order: seq<TaskId>, u: TaskId) {
    exists a :: FailsUnder(plan, adapter, order, u, a)
  }

  /** What polling leaves of a task that is not itself running: blocked once, if something it depends on failed. */
  ghost predicate BlockedOnce(plan: Plan, adapter: Adapter, before: Loop, after: Loop, order: seq<TaskId>, u: TaskId) {
    && u in before.rows && u in after.rows
    && after.rows[u] == if HitBy(plan, adapter, order, u) then BlockedRow(before.rows[u]) else before.rows[u]
  }

  lemma HitByMore(plan: Plan, adapter: Adapter, init: seq<TaskId>, t: TaskId, u: TaskId)
    ensures HitBy(plan, adapter, init + [t], u) <==>
              HitBy(plan, adapter, init, u) || (adapter.poll(t).Failed? && plan.Graph().Reaches(u, t))
  {
    if a :| FailsUnder(plan, adapter, init, u, a) { assert FailsUnder(plan, adapter, init + [t], u, a); }
    if a :| FailsUnder(plan, adapter, init + [t], u, a) {
      if a in init { assert FailsUnder(plan, adapter, init, u, a); }
    }
    if adapter.poll(t).Failed? && plan.Graph().Reaches(u, t) { assert FailsUnder(plan, adapter, init + [t], u, t); }
  }

  /** A dependent hit before is not open, if nothing is shared; blocking it again changes nothing. */
  lemma HitTwiceIsClosed(plan: Plan, adapter: Adapter, rows: map<TaskId, TaskState>, init: seq<TaskId>, t: TaskId,
                         u: TaskId)
    requires NothingShared(plan, adapter, rows, init + [t]) && t !in init && u in rows
    requires HitBy(plan, adapter, init, u) && adapter.poll(t).Failed? && plan.Graph().Reaches(u, t)
    ensures BlockedRow(BlockedRow(rows[u])) == BlockedRow(rows[u])
  {
    var a :| FailsUnder(plan, adapter, init, u, a);
    assert FailsBeside(adapter, init + [t], a, t) && t in init + [t];
    assert !SharedDependent(plan, rows, a, t, u);
  }

  lemma BlockedOnceMore(plan: Plan, adapter: Adapter, l: Loop, m: Loop, init: seq<TaskId>, t: TaskId, u: TaskId)
    requires t in m.rows && t in m.sched.statuses && t in m.sessions && u != t && t !in init
    requires NothingShared(plan, adapter, l.rows, init + [t]) && BlockedOnce(plan, adapter, l, m, init, u)
    ensures BlockedOnce(plan, adapter, l, Polled(plan, adapter, m, t), init + [t], u)
  {
    HitByMore(plan, adapter, init, t, u);
    if HitBy(plan, adapter, init, u) && adapter.poll(t).Failed? && plan.Graph().Reaches(u, t) {
      HitTwiceIsClosed(plan, adapter, l.rows, init, t, u);
    }
  }

  lemma PrefixShares(plan: Plan, adapter: Adapter, rows: map<TaskId, TaskState>, init: seq<TaskId>, t: TaskId)
    requires NothingShared(plan, adapter, rows, init + [t])
    ensures NothingShared(plan, adapter, rows, init)
  {
    forall a, b, u | b in init && FailsBeside(adapter, init, a, b) ensures !SharedDependent(plan, rows, a, b, u) {
      assert b in init + [t] && FailsBeside(adapter, init + [t], a, b);
    }
  }

  lemma {:induction false} PollingBlocksOnce(plan: Plan, maxWorkers: int, adapter: Adapter, l: Loop, order: seq<TaskId>,
                                             u: TaskId)
    requires Agree(plan, maxWorkers, l, {}) && Sessions(l, order) && u in l.rows && u !in l.sched.active
    requires NothingShared(plan, adapter, l.rows, order)
    ensures BlockedOnce(plan, adapter, l, PolledAll(plan, adapter, l, order), order, u)
  {
    if order == [] {
      assert !HitBy(plan, adapter, order, u);
    } else {
      var init, t := order[..|order| - 1], order[|order| - 1];
      assert order == init + [t];
      SessionsLast(l, order);
      PrefixShares(plan, adapter, l.rows, init, t);
      PollingBlocksOnce(plan, maxWorkers, adapter, l, init, u);
      PollingAgrees(plan, maxWorkers, adapter, l, init);
      NotYetPolled(plan, maxWorkers, adapter, l, PolledAll(plan, adapter, l, init), Elements(init), t);
      BlockedOnceMore(plan, adapter, l, PolledAll(plan, adapter, l, init), init, t, u);
    }
  }

  lemma {:induction false} PollingKeepsKeys(plan: Plan, adapter: Adapter, l: Loop, order: seq<TaskId>)
    ensures PolledAll(plan, adapter, l, order).rows.Keys == l.rows.Keys
  {
    if order != [] { PollingKeepsKeys(plan, adapter, l, order[..|order| - 1]); }
  }

  /** The ledger refuses exactly what a cascade has blocked already. */
  lemma BlockedAlready(u: TaskId, row: TaskState, host: Host)
    ensures CanBlock(u, BlockedRow(row), host) <==> row.status.FAILED? || row.status.DONE?
  {
  }

  /** `u` is an open dependent that `t` shares with another failed session. */
  ghost predicate SharesAt(plan: Plan, adapter: Adapter, rows: map<TaskId, TaskState>, init: seq<TaskId>, t: TaskId,
                           u: TaskId) {
    exists a :: FailsBeside(adapter, init, a, t) && SharedDependent(plan, rows, a, t, u)
  }

  /** The next session shares no open dependent with a failed session before it. */
  ghost predicate SharesNone(plan: Plan, adapter: Adapter, rows: map<TaskId, TaskState>, init: seq<TaskId>, t: TaskId) {
    forall u :: !SharesAt(plan, adapter, rows, init, t, u)
  }

  lemma SharesWhereHit(plan: Plan, adapter: Adapter, rows: map<TaskId, TaskState>, init: seq<TaskId>, t: TaskId,
                       u: TaskId)
    requires t !in init && adapter.poll(t).Failed? && u in rows && plan.Graph().Reaches(u, t)
    ensures SharesAt(plan, adapter, rows, init, t, u) <==>
              HitBy(plan, adapter, init, u) && !rows[u].status.FAILED? && !rows[u].status.DONE?
  {
    if a :| FailsUnder(plan, adapter, init, u, a) {
      assert FailsBeside(adapter, init, a, t);
      assert !rows[u].status.FAILED? && !rows[u].status.DONE? ==> SharedDependent(plan, rows, a, t, u);
    }
    if a :| FailsBeside(adapter, init, a, t) && SharedDependent(plan, rows, a, t, u) {
      assert FailsUnder(plan, adapter, init, u, a);
    }
  }

  /** Whether a dependent can still be blocked after the others were polled. */
  lemma BlockAfterOthers(plan: Plan, adapter: Adapter, host: Host, l: Loop, m: Loop, init: seq<TaskId>, t: TaskId,
                         u: TaskId)
    requires BlockedOnce(plan, adapter, l, m, init, u) && plan.Graph().Reaches(u, t)
    requires t !in init && adapter.poll(t).Failed?
    ensures CanBlock(u, m.rows[u], host) <==>
              CanBlock(u, l.rows[u], host) && !SharesAt(plan, adapter, l.rows, init, t, u)
  {
    SharesWhereHit(plan, adapter, l.rows, init, t, u);
    BlockedAlready(u, l.rows[u], host);
  }

  lemma CascadeAfterOthers(plan: Plan, adapter: Adapter, host: Host, l: Loop, m: Loop, init: seq<TaskId>, t: TaskId)
    requires m.rows.Keys == l.rows.Keys && t !in init && adapter.poll(t).Failed?
    requires forall u | u in l.rows && plan.Graph().Reaches(u, t) :: BlockedOnce(plan, adapter, l, m, init, u)
    ensures CanBlockAll(plan, m.rows, t, host) <==>
              CanBlockAll(plan, l.rows, t, host) && SharesNone(plan, adapter, l.rows, init, t)
  {
    forall u | u in l.rows && plan.Graph().Reaches(u, t)
      ensures CanBlock(u, m.rows[u], host) <==>
                CanBlock(u, l.rows[u], host) && !SharesAt(plan, adapter, l.rows, init, t, u)
    {
      BlockAfterOthers(plan, adapter, host, l, m, init, t, u);
    }
    forall u | SharesAt(plan, adapter, l.rows, init, t, u) ensures u in l.rows && plan.Graph().Reaches(u, t) {
      var a :| FailsBeside(adapter, init, a, t) && SharedDependent(plan, l.rows, a, t, u);
    }
  }

  /** The failed task's own row does not matter to its cascade. */
  lemma OwnRowApart(plan: Plan, rows: map<TaskId, TaskState>, t: TaskId, row: TaskState, host: Host)
    requires t in rows && !plan.Graph().Reaches(t, t)
    ensures CanBlockAll(plan, rows[t := row], t, host) <==> CanBlockAll(plan, rows, t, host)
  {
    var next := rows[t := row];
    assert forall u | u in rows && plan.Graph().Reaches(u, t) :: next[u] == rows[u];
  }

  /** The state when the session of `t` is polled, after those of `init`. */
  ghost predicate Midway(plan: Plan, adapter: Adapter, l: Loop, m: Loop, init: seq<TaskId>, t: TaskId) {
    && t in l.rows && t !in init && !plan.Graph().Reaches(t, t)
    && m.rows.Keys == l.rows.Keys && m.rows[t] == l.rows[t]
    && forall u | u in l.rows && plan.Graph().Reaches(u, t) :: BlockedOnce(plan, adapter, l, m, init, u)
  }

  lemma PollAfterOthers(plan: Plan, adapter: Adapter, host: Host, l: Loop, m: Loop, init: seq<TaskId>, t: TaskId)
    requires Midway(plan, adapter, l, m, init, t)
    ensures CanFinish(plan, adapter, host, m.rows, t) <==>
              CanFinish(plan, adapter, host, l.rows, t) && SharesNone(plan, adapter, l.rows, init, t)
  {
    if adapter.poll(t).Failed? {
      OwnRowApart(plan, l.rows, t, Moved(l.rows[t], FAILED), host);
      OwnRowApart(plan, m.rows, t, Moved(m.rows[t], FAILED), host);
      CascadeAfterOthers(plan, adapter, host, l, m, init, t);
    }
  }

  lemma IsMidway(plan: Plan, maxWorkers: int, adapter: Adapter, l: Loop, init: seq<TaskId>, t: TaskId)
    requires Agree(plan, maxWorkers, l, {}) && Sessions(l, init) && t in l.sched.active && t !in init
    requires NothingShared(plan, adapter, l.rows, init)
    ensures Midway(plan, adapter, l, PolledAll(plan, adapter, l, init), init, t)
  {
    PollingKeepsKeys(plan, adapter, l, init);
    PollingSettles(plan, maxWorkers, adapter, l, init, t);
    RunningApart(plan, maxWorkers, l.sched, t, t);
    RunningDependentsWait(plan, maxWorkers, l, {}, t);
    forall u | u in l.rows && plan.Graph().Reaches(u, t)
      ensures BlockedOnce(plan, adapter, l, PolledAll(plan, adapter, l, init), init, u)
    {
      PollingBlocksOnce(plan, maxWorkers, adapter, l, init, u);
    }
  }

  lemma NextPoll(plan: Plan, maxWorkers: int, adapter: Adapter, host: Host, l: Loop, init: seq<TaskId>, t: TaskId)
    requires Agree(plan, maxWorkers, l, {}) && Sessions(l, init) && t in l.sched.active && t !in init
    requires NothingShared(plan, adapter, l.rows, init)
    ensures CanFinish(plan, adapter, host, PolledAll(plan, adapter, l, init).rows, t) <==>
              CanFinish(plan, adapter, host, l.rows, t) && SharesNone(plan, adapter, l.rows, init, t)
  {
    IsMidway(plan, maxWorkers, adapter, l, init, t);
    PollAfterOthers(plan, adapter, host, l, PolledAll(plan, adapter, l, init), init, t);
  }

  lemma SharedSymmetric(plan: Plan, adapter: Adapter, rows: map<TaskId, TaskState>, init: seq<TaskId>, t: TaskId)
    requires t !in init
    ensures NothingShared(plan, adapter, rows, init + [t]) <==>
              NothingShared(plan, adapter, rows, init) && SharesNone(plan, adapter, rows, init, t)
  {
    if NothingShared(plan, adapter, rows, init + [t]) {
      PrefixShares(plan, adapter, rows, init, t);
      forall u ensures !SharesAt(plan, adapter, rows, init, t, u) {
        forall a | FailsBeside(adapter, init, a, t) ensures !SharedDependent(plan, rows, a, t, u) {
          assert t in init + [t] && FailsBeside(adapter, init + [t], a, t);
        }
      }
    }
    if NothingShared(plan, adapter, rows, init) && SharesNone(plan, adapter, rows, init, t) {
      forall a, b, u | b in init + [t] && FailsBeside(adapter, init + [t], a, b)
        ensures !SharedDependent(plan, rows, a, b, u)
      {
        assert !SharesAt(plan, adapter, rows, init, t, u);
        if b == t { assert FailsBeside(adapter, init, a, t); }
        else if a == t { assert FailsBeside(adapter, init, b, t) && !SharedDependent(plan, rows, b, t, u); }
        else { assert FailsBeside(adapter, init, a, b); }
      }
    }
  }

  lemma EachAndNext(plan: Plan, adapter: Adapter, host: Host, rows: map<TaskId, TaskState>, init: seq<TaskId>,
                    t: TaskId)
    ensures EachFinishes(plan, adapter, host, rows, init + [t]) <==>
              EachFinishes(plan, adapter, host, rows, init) && CanFinish(plan, adapter, host, rows, t)
  {
    assert forall x :: x in init + [t] <==> x in init || x == t;
  }

  lemma SessionsUpTo(l: Loop, order: seq<TaskId>, n: nat)
    requires Sessions(l, order) && 0 < n <= |order|
    ensures Sessions(l, order[..n - 1]) && order[n - 1] in l.sched.active && order[n - 1] !in order[..n - 1]
  {
    assert order[n - 1] in order;
  }

  lemma {:induction false} PollingUpTo(plan: Plan, maxWorkers: int, adapter: Adapter, host: Host, l: Loop,
                                       order: seq<TaskId>, n: nat)
    requires Agree(plan, maxWorkers, l, {}) && Sessions(l, order) && n <= |order|
    ensures CanPoll(plan, adapter, host, l, order, n) <==>
              EachFinishes(plan, adapter, host, l.rows, order[..n]) && NothingShared(plan, adapter, l.rows, order[..n])
  {
    if n > 0 {
      var init, t := order[..n - 1], order[n - 1];
      assert order[..n] == init + [t];
      SessionsUpTo(l, order, n);
      PollingUpTo(plan, maxWorkers, adapter, host, l, order, n - 1);
      SharedSymmetric(plan, adapter, l.rows, init, t);
      EachAndNext(plan, adapter, host, l.rows, init, t);
      if NothingShared(plan, adapter, l.rows, init) { NextPoll(plan, maxWorkers, adapter, host, l, init, t); }
    }
  }

  /**
   The ledger has no edge from BLOCKED to BLOCKED and the loop does not expect the refusal.
   So the polling phase goes through exactly when each session alone could be polled and no
   two of those that fail have an open dependent in common; all of it read off the state
   before the step, and in whatever order the sessions are polled.
   */
  lemma PollingRaisesExactly(plan: Plan, maxWorkers: int, adapter: Adapter, host: Host, l: Loop, order: seq<TaskId>)
    requires Agree(plan, maxWorkers, l, {}) && Sessions(l, order)
    ensures CanPoll(plan, adapter, host, l, order, |order|) <==>
              EachFinishes(plan, adapter, host, l.rows, order) && NothingShared(plan, adapter, l.rows, order)
  {
    PollingUpTo(plan, maxWorkers, adapter, host, l, order, |order|);
    assert order[..|order|] == order;
  }

  lemma PollingOrderIsIrrelevant(plan: Plan, maxWorkers: int, adapter: Adapter, host: Host, l: Loop, order: seq<TaskId>,
                                 other: seq<TaskId>)
    requires Agree(plan, maxWorkers, l, {}) && Sessions(l, order) && Sessions(l, other)
    requires Elements(order) == Elements(other)
    ensures CanPoll(plan, adapter, host, l, order, |order|) <==> CanPoll(plan, adapter, host, l, other, |other|)
  {
    PollingRaisesExactly(plan, maxWorkers, adapter, host, l, order);
    PollingRaisesExactly(plan, maxWorkers, adapter, host, l, other);
    assert forall t :: t in order <==> t in Elements(order);
    assert forall t :: t in other <==> t in Elements(other);
    assert forall a, b :: FailsBeside(adapter, order, a, b) <==> FailsBeside(adapter, other, a, b);
  }

  lemma StartIsPointwise(plan: Plan, adapter: Adapter, host: Host, l: Loop, m: Loop, t: TaskId)
    requires Kept(l, m, t) && t in plan.tasks
    ensures CanStart(plan, adapter, host, m, t) <==> CanStart(plan, adapter, host, l, t)
  {
  }

  /** Likewise each listed task can be started, or passed over, by what it finds before the first start. */
  lemma {:induction false} DispatchingRaisesExactly(plan: Plan, adapter: Adapter, host: Host, l: Loop,
                                                    list: seq<TaskId>, n: nat)
    requires NoDuplicates(list) && n <= |list|
    ensures CanDispatch(plan, adapter, host, l, list, n) <==>
              forall t | t in list[..n] :: t in plan.tasks && CanStart(plan, adapter, host, l, t)
  {
    if n > 0 {
      var init, t := list[..n - 1], list[n - 1];
      assert list[..n] == init + [t] && t !in init;
      DispatchingRaisesExactly(plan, adapter, host, l, list, n - 1);
      DispatchingSettles(adapter, host, l, init, t);
      if t in plan.tasks { StartIsPointwise(plan, adapter, host, l, StartedAll(adapter, host, l, init), t); }
    }
  }

  lemma ListRaisesExactly(plan: Plan, maxWorkers: int, adapter: Adapter, host: Host, l: Loop)
    requires Shaped(plan, l.sched)
    ensures var list := Dispatchable(plan, maxWorkers, l.sched);
            CanDispatch(plan, adapter, host, l, list, |list|) <==>
              forall t | t in list :: t in plan.tasks && CanStart(plan, adapter, host, l, t)
  {
    var list := Dispatchable(plan, maxWorkers, l.sched);
    DispatchableAreCandidates(plan, maxWorkers, l.sched);
    DispatchingRaisesExactly(plan, adapter, host, l, list, |list|);
    assert list[..|list|] == list;
  }

  /** When a step that starts in agreement goes through, without replaying it poll by poll and start by start. */
  ghost predicate StepGoesThrough(plan: Plan, maxWorkers: int, adapter: Adapter, host: Host, l: Loop,
                                  order: seq<TaskId>) {
    && EachFinishes(plan, adapter, host, l.rows, order) && NothingShared(plan, adapter, l.rows, order)
    && var mid := AfterPolling(plan, adapter, l, order);
       forall t | t in Dispatchable(plan, maxWorkers, mid.sched) ::
         t in plan.tasks && CanStart(plan, adapter, host, mid, t)
  }

  lemma StepRaisesExactly(plan: Plan, maxWorkers: int, adapter: Adapter, host: Host, l: Loop, order: seq<TaskId>)
    requires Agree(plan, maxWorkers, l, {}) && Sessions(l, order)
    ensures CanStep(plan, maxWorkers, adapter, host, l, order) <==>
              StepGoesThrough(plan, maxWorkers, adapter, host, l, order)
  {
    PollingRaisesExactly(plan, maxWorkers, adapter, host, l, order);
    StepAgrees(plan, maxWorkers, adapter, host, l, order);
    ListRaisesExactly(plan, maxWorkers, adapter, host, AfterPolling(plan, adapter, l, order));
  }

  lemma SessionsListed(plan: Plan, l: Loop, order: seq<TaskId>)
    requires Linked(plan, l, {}) && NoDuplicates(order) && Elements(order) == l.sessions.Keys
    ensures Sessions(l, order) && forall t :: t in order <==> t in l.sessions
  {
    assert forall t :: t in order <==> t in Elements(order);
  }

  /** What a step makes of the state it found, if that was in agreement. */
  ghost predicate StepKeeps(plan: Plan, maxWorkers: int, adapter: Adapter, before: Loop, after: Loop) {
    && Agree(plan, maxWorkers, after, {})
    && forall t | t in before.sessions :: SessionStepped(adapter, before, after, t)
  }

  /** A step from agreement: when it goes through, and what it then leaves. */
  lemma StepSummary(plan: Plan, maxWorkers: int, adapter: Adapter, host: Host, l: Loop, order: seq<TaskId>)
    requires NoDuplicates(order) && Elements(order) == l.sessions.Keys
    ensures Agree(plan, maxWorkers, l, {}) ==>
      && (CanStep(plan, maxWorkers, adapter, host, l, order) <==>
            StepGoesThrough(plan, maxWorkers, adapter, host, l, order))
      && StepKeeps(plan, maxWorkers, adapter, l, Stepped(plan, maxWorkers, adapter, host, l, order))
  {
    if Agree(plan, maxWorkers, l, {}) {
      SessionsListed(plan, l, order);
      StepRaisesExactly(plan, maxWorkers, adapter, host, l, order);
      StepAgrees(plan, maxWorkers, adapter, host, l, order);
      forall t | t in l.sessions
        ensures SessionStepped(adapter, l, Stepped(plan, maxWorkers, adapter, host, l, order), t)
      {
        StepSettlesSessions(plan, maxWorkers, adapter, host, l, order, t);
      }
    }
  }

  /** After polling from agreement, all that the second phase can start is justified. */
  lemma DispatchIsJustified(plan: Plan, maxWorkers: int, adapter: Adapter, host: Host, l: Loop, order: seq<TaskId>)
    requires Agree(plan, maxWorkers, l, {}) && NoDuplicates(order) && Elements(order) == l.sessions.Keys
    ensures var mid := AfterPolling(plan, adapter, l, order);
            Justified(plan, maxWorkers, adapter, host, mid, Dispatchable(plan, maxWorkers, mid.sched))
  {
    SessionsListed(plan, l, order);
    StepAgrees(plan, maxWorkers, adapter, host, l, order);
    StartsAreJustified(plan, maxWorkers, adapter, host, AfterPolling(plan, adapter, l, order));
  }

  // ---------------------------------------------------------------------------------------
  // It happens: two tasks that run side by side, and a third that waits for both
  // ---------------------------------------------------------------------------------------

  function TaskAfter(dependencies: seq<TaskId>): Manifest {
    Manifest(dependencies, true, [], {}, {}, 1, READY, "worktree")
  }

  function RowIn(status: TaskStatus): TaskState { TaskState(0, status, 1, "", "", None, None, None, []) }

  function TwoAndOne(): Plan {
    Plan(["a", "b", "c"], map["a" := TaskAfter([]), "b" := TaskAfter([]), "c" := TaskAfter(["a", "b"])])
  }

  function BothRunning(): Loop {
    var row := Lease.Row("worker", 1, 0.0, 1, 0.0, 60.0);
    var session := Session("session", "worker", 1);
    Loop(map["a" := RowIn(RUNNING), "b" := RowIn(RUNNING), "c" := RowIn(PROPOSED)],
         Lease.Db(map["a" := row, "b" := row], map["a" := 1, "b" := 1]),
         State(map["a" := RUNNING, "b" := RUNNING, "c" := PROPOSED], {"a", "b"}, map["a" := 1, "b" := 1, "c" := 0]),
         map["a" := session, "b" := session])
  }

  function AllFail(): Adapter {
    Adapter(t => Failed, t => false, t => None, false, t => true, t => None, false, t => None, t => 60.0)
  }

  function Willing(): Host { Host(1, t => 0.0, t => {}, t => {}, t => true, (t, status) => true) }

  lemma ExamplePlanIsSound()
    ensures TwoAndOne().Graph().Valid() && TwoAndOne().Graph().Known()
    ensures forall t, d :: TwoAndOne().Graph().Edge(t, d) <==> t == "c" && (d == "a" || d == "b")
  {
    var g := TwoAndOne().Graph();
    assert forall t :: t in g.order <==> t == "a" || t == "b" || t == "c";
    assert g.deps["a"] == [] && g.deps["b"] == [] && g.deps["c"] == ["a", "b"];
  }

  lemma ExampleIsLinked()
    ensures Linked(TwoAndOne(), BothRunning(), {}) && Shown(TwoAndOne(), BothRunning().sched, BothRunning().rows)
  {
  }

  lemma ExampleIsShaped()
    ensures Shaped(TwoAndOne(), BothRunning().sched) && Safety.ActiveIsRunning(BothRunning().sched)
    ensures |BothRunning().sched.active| == 2
  {
    ExamplePlanIsSound();
    assert {"a", "b"} == {"a"} + {"b"};
  }

  lemma ExampleIsCompatible()
    ensures Safety.Compatible(TwoAndOne(), BothRunning().sched)
  {
    assert !Conflict(TaskAfter([]), TaskAfter([]));
  }

  lemma BothRunningAgree()
    ensures Agree(TwoAndOne(), 2, BothRunning(), {})
  {
    ExampleIsLinked();
    ExampleIsShaped();
    ExampleIsCompatible();
    ExampleIsInOrder();
  }

  lemma ExampleIsInOrder()
    ensures Safety.RanAfterDependencies(TwoAndOne(), BothRunning().sched)
    ensures Safety.DispatchedAfterDependencies(TwoAndOne(), BothRunning().sched)
  {
    ExamplePlanIsSound();
  }

  lemma EachCouldFail(t: TaskId)
    requires t == "a" || t == "b"
    ensures AllFail().poll(t).Failed? && CanFinish(TwoAndOne(), AllFail(), Willing(), BothRunning().rows, t)
  {
    EachCouldBlock(t);
  }

  lemma EachCouldBlock(t: TaskId)
    requires t == "a" || t == "b"
    ensures var rows := BothRunning().rows;
            CanBlockAll(TwoAndOne(), rows[t := Moved(rows[t], FAILED)], t, Willing())
  {
  }

  lemma WaitsForBoth()
    ensures SharedDependent(TwoAndOne(), BothRunning().rows, "a", "b", "c")
  {
    var g := TwoAndOne().Graph();
    ExamplePlanIsSound();
    assert g.PathFromTo(["c", "a"], "c", "a");
    assert g.PathFromTo(["c", "b"], "c", "b");
  }

  lemma PairIsOrder(l: Loop, order: seq<TaskId>, a: TaskId, b: TaskId)
    requires a in l.sched.active && b in l.sched.active && a != b && (order == [a, b] || order == [b, a])
    ensures Sessions(l, order) && a in order && b in order
  {
    assert order[0] in order && order[1] in order;
  }

  lemma SharingRaises(plan: Plan, maxWorkers: int, adapter: Adapter, host: Host, l: Loop, order: seq<TaskId>,
                      a: TaskId, b: TaskId, u: TaskId)
    requires Agree(plan, maxWorkers, l, {}) && Sessions(l, order) && a in order && b in order && a != b
    requires adapter.poll(a).Failed? && adapter.poll(b).Failed? && SharedDependent(plan, l.rows, a, b, u)
    ensures !CanPoll(plan, adapter, host, l, order, |order|)
  {
    assert FailsBeside(adapter, order, a, b);
    PollingRaisesExactly(plan, maxWorkers, adapter, host, l, order);
  }

  /** Each of the two could fail by itself; together they make the step raise, whichever is polled first. */
  lemma TwoFailuresRaise(order: seq<TaskId>)
    requires order == ["a", "b"] || order == ["b", "a"]
    ensures Agree(TwoAndOne(), 2, BothRunning(), {}) && Sessions(BothRunning(), order)
    ensures !CanPoll(TwoAndOne(), AllFail(), Willing(), BothRunning(), order, |order|)
  {
    BothRunningAgree();
    WaitsForBoth();
    PairIsOrder(BothRunning(), order, "a", "b");
    SharingRaises(TwoAndOne(), 2, AllFail(), Willing(), BothRunning(), order, "a", "b", "c");
  }
}
