/**
 The run loop (orchestrator/core/loop.py): one controller driving scheduler, ledger, leases
 and adapter sessions.

 Every durable write is one commit, and `trace` records the durable state after each, so
 each element of `trace` is a state a crash can leave behind.
 */
module RunLoop {
  import opened Wrappers
  import opened Ledger
  import opened Scheduler
  import opened DependencyGraph
  import opened LoopModel
  import opened StepOutcome
  import Lease
  import Safety = SchedulerSafety

  type TaskId = DependencyGraph.TaskId

  method ListOf(keys: set<TaskId>) returns (list: seq<TaskId>)
    ensures NoDuplicates(list) && Elements(list) == keys
  {
    var todo := keys;
    list := [];
    while todo != {}
      invariant NoDuplicates(list) && todo <= keys && Elements(list) == keys - todo
      decreases |todo|
    {
      var t :| t in todo;
      assert t !in Elements(list) && Elements(list + [t]) == Elements(list) + {t};
      list := list + [t];
      todo := todo - {t};
    }
  }

  class RunLoopController {
    const ledger: StateLedger
    const leases: Lease.RuntimeLeaseManager
    const scheduler: DAGScheduler
    var sessions: map<TaskId, Session>
    ghost var trace: seq<Durable>
    ghost var orderly: bool

    ghost function Now(): Durable
      reads ledger, leases
    {
      Durable(ledger.rows, leases.View())
    }

    ghost function Snap(): Loop
      reads this, ledger, leases, scheduler
    {
      Loop(ledger.rows, leases.View(), scheduler.View(), sessions)
    }

    /**
     The trace is crash safe and ends in the present; while `orderly` stands, a fresh
     scheduler could start from any of its states.
     */
    ghost predicate Traced()
      reads this`trace, this`orderly, ledger, leases
    {
      && CrashSafe(trace) && trace[|trace| - 1] == Now()
      && (orderly ==> AllOrderly(scheduler.plan, scheduler.maxWorkers, trace))
    }

    /** Moving this task to RUNNING would leave the ledger orderly. */
    ghost predicate OrderlyStart(t: TaskId)
      requires t in ledger.rows
      reads ledger
    {
      Orderly(scheduler.plan, scheduler.maxWorkers, Transitioned(ledger.rows, t, RUNNING, None))
    }

    /** Puts the present state on the trace. */
    ghost method Record()
      requires CrashSafe(trace) && SafeCommit(trace[|trace| - 1], Now())
      requires orderly ==> AllOrderly(scheduler.plan, scheduler.maxWorkers, trace + [Now()])
      modifies this`trace
      ensures Traced() && trace == old(trace) + [Now()]
    {
      CrashSafeExtends(trace, Now());
      trace := trace + [Now()];
    }

    constructor (ledger: StateLedger, leases: Lease.RuntimeLeaseManager, scheduler: DAGScheduler)
      ensures Traced() && sessions == map[] && trace == [Durable(ledger.rows, leases.View())]
      ensures orderly == Orderly(scheduler.plan, scheduler.maxWorkers, ledger.rows)
      ensures this.ledger == ledger && this.leases == leases && this.scheduler == scheduler
    {
      this.ledger, this.leases, this.scheduler := ledger, leases, scheduler;
      sessions := map[];
      trace := [Durable(ledger.rows, leases.View())];
      orderly := Orderly(scheduler.plan, scheduler.maxWorkers, ledger.rows);
    }

    // -------------------------------------------------------------------------------------
    // Durable writes
    // -------------------------------------------------------------------------------------

    ghost method RecordTransition(before: Durable, t: TaskId, c: Change, schemaAccepts: bool)
      requires CrashSafe(trace) && trace[|trace| - 1] == before
      requires orderly ==> AllOrderly(scheduler.plan, scheduler.maxWorkers, trace)
      requires t in before.rows && Transition(t, before.rows[t], c, NoManager, schemaAccepts).Ok?
      requires Now() == before.(rows := before.rows[t := Applied(before.rows[t], c)])
      requires c.to.RUNNING? ==>
                 t in leases.leases && (orderly ==> Orderly(scheduler.plan, scheduler.maxWorkers, ledger.rows))
      modifies this`trace
      ensures Traced() && trace == old(trace) + [Now()]
    {
      TransitionRecorded(scheduler.plan, scheduler.maxWorkers, trace, orderly, before, t, c, schemaAccepts);
      Record();
    }

    method CommitTransition(t: TaskId, to: TaskStatus, digest: Option<string>, schemaAccepts: bool)
        returns (e: Option<StepError>)
      requires Traced() && (to.RUNNING? ==> t in leases.leases)
      requires to.RUNNING? ==> digest == None && (orderly && t in ledger.rows ==> OrderlyStart(t))
      modifies ledger, this`trace
      ensures Traced() && old(trace) <= trace
      ensures e.None? <==> t in old(ledger.rows) && CanMove(t, old(ledger.rows)[t], to, digest, schemaAccepts)
      ensures e.None? ==> ledger.rows == Transitioned(old(ledger.rows), t, to, digest)
      ensures e.None? ==> MovedTo(old(ledger.rows)[t], ledger.rows[t], to, digest)
      ensures e.Some? ==> ledger.rows == old(ledger.rows) && trace == old(trace) && e.value.LedgerRefused?
    {
      var current := ledger.GetState(t);
      if current.Err? { return Some(LedgerRefused(t, current.error)); }
      var c := Plainly(current.value, to, digest);
      ghost var before := Now();
      var r := ledger.DoTransition(t, c, NoManager, schemaAccepts);
      if r.Err? { return Some(LedgerRefused(t, r.error)); }
      RecordTransition(before, t, c, schemaAccepts);
      PlainMoveExactly(t, current.value, to, digest, schemaAccepts);
      return None;
    }

    method CommitAcquire(t: TaskId, adapter: Adapter, host: Host) returns (epoch: Option<nat>)
      requires Traced()
      modifies leases, this`trace
      ensures Traced() && old(trace) <= trace
      ensures epoch == if CanLease(adapter, host, old(leases.View()), t)
                       then Some(Lease.NewEpoch(old(leases.View()), t)) else None
      ensures leases.View() == LeasedFor(adapter, host, old(leases.View()), t)
    {
      if !host.leaseStoreReachable(t) { return None; }
      ghost var before := Now();
      var r := leases.AcquireLease(t, WorkerOf(t), host.pid, adapter.leaseTimeout(t), host.now(t), host.live0(t),
                                   host.live1(t));
      if r.Err? { return None; }
      AcquireCommit(before, t, WorkerOf(t), host.pid, adapter.leaseTimeout(t), host.now(t), host.live0(t),
                    host.live1(t));
      if orderly { LeaseKeepsTrace(scheduler.plan, scheduler.maxWorkers, trace, before, Now()); }
      Record();
      return Some(r.value);
    }

    method CommitRelease(t: TaskId, worker: string, epoch: nat)
      requires Traced() && (t in ledger.rows ==> !ledger.rows[t].status.RUNNING?)
      modifies leases, this`trace
      ensures Traced() && old(trace) <= trace
      ensures leases.View() == Lease.Release(old(leases.View()), t, worker, epoch)
    {
      ghost var before := Now();
      leases.ReleaseLease(t, worker, epoch);
      ReleaseCommit(before, t, worker, epoch);
      if orderly { LeaseKeepsTrace(scheduler.plan, scheduler.maxWorkers, trace, before, Now()); }
      Record();
    }

    // -------------------------------------------------------------------------------------
    // Starting up
    // -------------------------------------------------------------------------------------

    method Register(t: TaskId, spec: string, policy: string, base: Option<string>, host: Host)
        returns (r: Result<TaskState, StepError>)
      requires Traced() && t in scheduler.plan.tasks
      modifies ledger, this`trace
      ensures Traced() && old(trace) <= trace
      ensures r.Ok? <==> (t !in old(ledger.rows) ==> host.schemaAccepts(t, PROPOSED))
      ensures r.Ok? ==> r.value == RowOr(old(ledger.rows), t, Initial(spec, policy, base))
      ensures r.Ok? ==> ledger.rows == old(ledger.rows)[t := r.value]
      ensures r.Err? ==> ledger.rows == old(ledger.rows) && r.error.LedgerRefused?
    {
      var current := ledger.GetState(t);
      if current.Ok? {
        assert ledger.rows == ledger.rows[t := current.value];
        return Ok(current.value);
      }
      ghost var before := Now();
      var created := ledger.InitializeTask(t, spec, policy, base, host.schemaAccepts(t, PROPOSED));
      if created.Err? { return Err(LedgerRefused(t, created.error)); }
      RegisterCommit(before, t, spec, policy, base);
      if orderly {
        RegisterKeepsTrace(scheduler.plan, scheduler.maxWorkers, trace, before, Now(), t, Initial(spec, policy, base));
      }
      Record();
      return Ok(created.value);
    }

    /** Recovery never runs a task again; it needs the lease of the run it takes over. */
    method Reattach(t: TaskId, adapter: Adapter) returns (e: Option<StepError>)
      modifies this`sessions
      ensures e.None? <==> && adapter.recovers && t in leases.leases && (adapter.validates ==> adapter.contextValid(t))
                           && adapter.recover(t).Some?
      ensures e.None? ==>
        var row := leases.leases[t];
        sessions == old(sessions)[t := Session(adapter.recover(t).value, row.worker, row.epoch)]
      ensures e.Some? ==> sessions == old(sessions)
      ensures e.Some? && e.value.LeaseMissing? ==> !adapter.recovers || t !in leases.leases
    {
      var lease := leases.GetActiveLease(t);
      if !adapter.recovers || lease.None? { return Some(LeaseMissing(t)); }
      if adapter.validates {
        if !adapter.contextValid(t) { return Some(ContextRefused(t)); }
      }
      var session := adapter.recover(t);
      if session.None? { return Some(RecoveryRefused(t)); }
      sessions := sessions[t := Session(session.value, lease.value.worker, lease.value.epoch)];
      return None;
    }

    /** The task's row, and a session if it needs one. */
    method LoadState(t: TaskId, spec: string, policy: string, base: Option<string>, adapter: Adapter, host: Host)
        returns (r: Result<TaskState, StepError>)
      requires Traced() && t in scheduler.plan.tasks
      modifies ledger, this`sessions, this`trace
      ensures Traced() && old(trace) <= trace && sessions.Keys <= old(sessions).Keys + {t}
      ensures r.Ok? <==> CanRecover(adapter, host, old(Snap()), t, Initial(spec, policy, base))
      ensures r.Ok? ==> r.value == RowOr(old(ledger.rows), t, Initial(spec, policy, base))
      ensures r.Ok? ==> ledger.rows == old(ledger.rows)[t := r.value]
      ensures r.Ok? ==> sessions == Reattached(adapter, host, old(Snap()), t, Initial(spec, policy, base))
      ensures r.Err? && r.error.LeaseMissing? ==> !adapter.recovers || !RunningIsLeased(old(Now()))
    {
      r := Register(t, spec, policy, base, host);
      if r.Err? { return; }
      if r.value.status.RUNNING? && t !in sessions {
        var e := Reattach(t, adapter);
        if e.Some? { return Err(e.value); }
      }
    }

    method LoadOne(t: TaskId, spec: string, policy: string, base: Option<string>, adapter: Adapter, host: Host)
        returns (e: Option<StepError>)
      requires Traced() && scheduler.Valid() && t in scheduler.plan.tasks
      modifies ledger, scheduler, this`sessions, this`trace
      ensures Traced() && old(trace) <= trace && scheduler.Valid() && sessions.Keys <= old(sessions).Keys + {t}
      ensures e.None? <==> CanRecover(adapter, host, old(Snap()), t, Initial(spec, policy, base))
      ensures e.None? ==>
                Snap() == Recovered(scheduler.plan, adapter, host, old(Snap()), t, Initial(spec, policy, base))
      ensures e.Some? && e.value.LeaseMissing? ==> !adapter.recovers || !RunningIsLeased(old(Now()))
    {
      var state := LoadState(t, spec, policy, base, adapter, host);
      if state.Err? { return Some(state.error); }
      var unknown := scheduler.UpdateTaskStatus(t, state.value.status);
      e := None;
    }

    method LoadNext(order: seq<TaskId>, i: nat, spec: string, policy: string, base: Option<string>,
                    adapter: Adapter, host: Host, ghost before: Loop) returns (e: Option<StepError>)
      requires Traced() && scheduler.Valid() && NoDuplicates(order) && i < |order| && order[i] in scheduler.plan.tasks
      requires Snap() == RecoveredAll(scheduler.plan, adapter, host, before, order[..i], Initial(spec, policy, base))
      modifies ledger, scheduler, this`sessions, this`trace
      ensures Traced() && old(trace) <= trace && scheduler.Valid() && sessions.Keys <= old(sessions).Keys + {order[i]}
      ensures e.None? <==> CanRecover(adapter, host, before, order[i], Initial(spec, policy, base))
      ensures e.None? ==>
                Snap() == RecoveredAll(scheduler.plan, adapter, host, before, order[..i + 1],
                                       Initial(spec, policy, base))
      ensures e.Some? && e.value.LeaseMissing? ==> !adapter.recovers || !RunningIsLeased(trace[0])
    {
      CrashSafeMeans(trace, |trace| - 1);
      assert order[..i + 1][..i] == order[..i];
      assert order[i] !in order[..i];
      LoadingIsPointwise(scheduler.plan, adapter, host, before, order[..i], Initial(spec, policy, base), order[i]);
      e := LoadOne(order[i], spec, policy, base, adapter, host);
    }

    method LoadAll(spec: string, policy: string, base: Option<string>, adapter: Adapter, host: Host)
        returns (e: Option<StepError>)
      requires Traced() && scheduler.Valid() && sessions.Keys <= scheduler.plan.tasks.Keys
      modifies ledger, scheduler, this`sessions, this`trace
      ensures Traced() && old(trace) <= trace && scheduler.Valid() && sessions.Keys <= scheduler.plan.tasks.Keys
      ensures e.None? <==>
                CanLoad(adapter, host, old(Snap()), scheduler.plan.order, Initial(spec, policy, base),
                        |scheduler.plan.order|)
      ensures e.None? ==> (
        Snap() == RecoveredAll(scheduler.plan, adapter, host, old(Snap()), scheduler.plan.order,
                               Initial(spec, policy, base)))
      ensures e.Some? && e.value.LeaseMissing? ==> !adapter.recovers || !RunningIsLeased(trace[0])
    {
      var order := scheduler.plan.order;
      ghost var initial := Initial(spec, policy, base);
      PlanOrder(scheduler.plan);
      for i := 0 to |order|
        invariant Traced() && old(trace) <= trace && scheduler.Valid() && sessions.Keys <= scheduler.plan.tasks.Keys
        invariant Snap() == RecoveredAll(scheduler.plan, adapter, host, old(Snap()), order[..i], initial)
        invariant CanLoad(adapter, host, old(Snap()), order, initial, i)
      {
        e := LoadNext(order, i, spec, policy, base, adapter, host, old(Snap()));
        if e.Some? { CannotLoad(adapter, host, old(Snap()), order, initial, i, |order|); return; }
      }
      TakeAll(order);
      e := None;
    }

    /**
     Loads every task of the plan.  A crash-safe database never lacks a lease it needs, and an
     orderly one, loaded afresh or beside live sessions, leaves everything in agreement.
     */
    method InitializeTasks(spec: string, policy: string, base: Option<string>, adapter: Adapter, host: Host)
        returns (e: Option<StepError>)
      requires Traced() && scheduler.Valid() && sessions.Keys <= scheduler.plan.tasks.Keys
      modifies ledger, scheduler, this`sessions, this`trace
      ensures Traced() && old(trace) <= trace && scheduler.Valid() && sessions.Keys <= scheduler.plan.tasks.Keys
      ensures e.None? <==>
                forall t | t in scheduler.plan.tasks ::
                  CanRecover(adapter, host, old(Snap()), t, Initial(spec, policy, base))
      ensures e.None? ==> (
        Snap() == RecoveredAll(scheduler.plan, adapter, host, old(Snap()), scheduler.plan.order,
                               Initial(spec, policy, base)))
      ensures e.None? ==>
                forall t | t in scheduler.plan.tasks ::
                  LoadedMeans(adapter, old(Snap()), Snap(), Initial(spec, policy, base), t)
      ensures e.Some? && e.value.LeaseMissing? ==> !adapter.recovers || !RunningIsLeased(trace[0])
      ensures e.None? && old(Loadable(scheduler.plan, scheduler.maxWorkers, Snap())) ==>
                Agree(scheduler.plan, scheduler.maxWorkers, Snap(), {})
    {
      LoadsThePlan(scheduler.plan, adapter, host, Snap(), Initial(spec, policy, base));
      e := LoadAll(spec, policy, base, adapter, host);
      if e.None? {
        LoadingSummary(scheduler.plan, scheduler.maxWorkers, adapter, host, old(Snap()), Initial(spec, policy, base));
        LoadingThePlanMeans(scheduler.plan, adapter, host, old(Snap()), Initial(spec, policy, base));
      }
    }

    // -------------------------------------------------------------------------------------
    // Polling one session
    // -------------------------------------------------------------------------------------

    method BlockOne(dep: TaskId, host: Host) returns (e: Option<StepError>)
      requires Traced()
      modifies ledger, this`trace
      ensures Traced() && old(trace) <= trace
      ensures e.None? <==> (dep in old(ledger.rows) ==> CanBlock(dep, old(ledger.rows)[dep], host))
      ensures e.None? ==> (
        ledger.rows == if dep in old(ledger.rows) then old(ledger.rows)[dep := BlockedRow(old(ledger.rows)[dep])]
                       else old(ledger.rows))
      ensures e.Some? ==> ledger.rows == old(ledger.rows) && e.value.LedgerRefused?
    {
      if dep !in ledger.rows { return None; }
      var row := ledger.rows[dep];
      if row.status.FAILED? || row.status.DONE? {
        assert ledger.rows == ledger.rows[dep := row];
        return None;
      }
      e := CommitTransition(dep, BLOCKED, None, host.schemaAccepts(dep, BLOCKED));
    }

    /** The loop over the dependents; stops at the first one the ledger will not block. */
    method BlockEach(dependents: seq<TaskId>, host: Host) returns (e: Option<StepError>)
      requires Traced() && NoDuplicates(dependents)
      modifies ledger, this`trace
      ensures Traced() && old(trace) <= trace && (e.None? ==> ledger.rows.Keys == old(ledger.rows).Keys)
      ensures e.None? <==> forall u | u in dependents && u in old(ledger.rows) :: CanBlock(u, old(ledger.rows)[u], host)
      ensures e.None? ==> forall u | u in old(ledger.rows) ::
                ledger.rows[u] == if u in dependents then BlockedRow(old(ledger.rows)[u]) else old(ledger.rows)[u]
      ensures e.Some? ==> e.value.LedgerRefused?
    {
      ghost var seen: set<TaskId> := {};
      for i := 0 to |dependents|
        invariant Traced() && old(trace) <= trace && ledger.rows.Keys == old(ledger.rows).Keys
        invariant forall k | 0 <= k < |dependents| :: dependents[k] in seen <==> k < i
        invariant forall u | u in seen :: u in dependents
        invariant forall u | u in old(ledger.rows) ::
          ledger.rows[u] == if u in seen then BlockedRow(old(ledger.rows)[u]) else old(ledger.rows)[u]
        invariant forall u | u in old(ledger.rows) && u in seen :: CanBlock(u, old(ledger.rows)[u], host)
      {
        e := BlockOne(dependents[i], host);
        if e.Some? { return; }
        seen := seen + {dependents[i]};
      }
      assert forall u :: u in dependents <==> u in seen;
      e := None;
    }

    /** Ledger half of the failure cascade. */
    method BlockDependents(t: TaskId, host: Host) returns (e: Option<StepError>)
      requires Traced() && scheduler.Valid()
      modifies ledger, this`trace
      ensures Traced() && old(trace) <= trace
      ensures e.None? <==> CanBlockAll(scheduler.plan, old(ledger.rows), t, host)
      ensures e.None? ==> ledger.rows == CascadedRows(scheduler.plan, old(ledger.rows), t)
      ensures e.Some? ==> e.value.LedgerRefused?
    {
      var dependents := GetDependents(scheduler.plan.Graph(), t, scheduler.topo);
      e := BlockEach(dependents, host);
    }

    method CompleteSession(t: TaskId, sess: Session, digest: Option<string>, host: Host) returns (e: Option<StepError>)
      requires Traced() && scheduler.Valid() && t in scheduler.taskStatuses
      modifies ledger, leases, scheduler, this`trace
      ensures Traced() && old(trace) <= trace && scheduler.Valid()
      ensures e.None? <==>
                t in old(ledger.rows)
                  && CanMove(t, old(ledger.rows)[t], VALIDATING, digest, host.schemaAccepts(t, VALIDATING))
      ensures e.None? ==>
        && ledger.rows == Transitioned(old(ledger.rows), t, VALIDATING, digest)
        && MovedTo(old(ledger.rows)[t], ledger.rows[t], VALIDATING, digest)
        && leases.View() == Lease.Release(old(leases.View()), t, sess.worker, sess.epoch)
        && scheduler.View() == Updated(scheduler.plan, old(scheduler.View()), t, VALIDATING)
      ensures e.Some? ==> Snap() == old(Snap()) && e.value.LedgerRefused?
    {
      e := CommitTransition(t, VALIDATING, digest, host.schemaAccepts(t, VALIDATING));
      if e.Some? { return; }
      var unknown := scheduler.UpdateTaskStatus(t, VALIDATING);
      CommitRelease(t, sess.worker, sess.epoch);
    }

    method FailSession(t: TaskId, sess: Session, host: Host) returns (e: Option<StepError>)
      requires Traced() && scheduler.Valid() && t in scheduler.taskStatuses
      modifies ledger, leases, scheduler, this`trace
      ensures Traced() && old(trace) <= trace && scheduler.Valid()
      ensures e.None? <==>
        && t in old(ledger.rows) && CanMove(t, old(ledger.rows)[t], FAILED, None, host.schemaAccepts(t, FAILED))
        && CanBlockAll(scheduler.plan, old(ledger.rows)[t := Moved(old(ledger.rows)[t], FAILED)], t, host)
      ensures e.None? ==>
        && ledger.rows == CascadedRows(scheduler.plan, old(ledger.rows)[t := Moved(old(ledger.rows)[t], FAILED)], t)
        && leases.View() == Lease.Release(old(leases.View()), t, sess.worker, sess.epoch)
        && scheduler.View() == Updated(scheduler.plan, old(scheduler.View()), t, FAILED)
      ensures e.Some? ==> leases.View() == old(leases.View()) && e.value.LedgerRefused?
    {
      e := CommitTransition(t, FAILED, None, host.schemaAccepts(t, FAILED));
      if e.Some? { return; }
      var unknown := scheduler.UpdateTaskStatus(t, FAILED);
      e := BlockDependents(t, host);
      if e.Some? { return; }
      assert !scheduler.plan.Graph().Reaches(t, t) by { NeverOnItself(scheduler.plan, scheduler.topo, t); }
      CommitRelease(t, sess.worker, sess.epoch);
    }

    /** An uncertain outcome: blocked, and the lease kept, since nothing shows that the worker is gone. */
    method BlockSession(t: TaskId, host: Host) returns (e: Option<StepError>)
      requires Traced() && scheduler.Valid() && t in scheduler.taskStatuses
      modifies ledger, scheduler, this`trace
      ensures Traced() && old(trace) <= trace && scheduler.Valid()
      ensures e.None? <==>
                t in old(ledger.rows) && CanMove(t, old(ledger.rows)[t], BLOCKED, None, host.schemaAccepts(t, BLOCKED))
      ensures e.None? ==>
        && ledger.rows == old(ledger.rows)[t := Moved(old(ledger.rows)[t], BLOCKED)]
        && scheduler.View() == Updated(scheduler.plan, old(scheduler.View()), t, BLOCKED)
      ensures e.Some? ==> Snap() == old(Snap()) && e.value.LedgerRefused?
    {
      e := CommitTransition(t, BLOCKED, None, host.schemaAccepts(t, BLOCKED));
      if e.Some? { return; }
      var unknown := scheduler.UpdateTaskStatus(t, BLOCKED);
    }

    /** Polling one session: ledger first, then scheduler, then the lease. */
    method PollSession(t: TaskId, adapter: Adapter, host: Host) returns (finished: bool, e: Option<StepError>)
      requires Traced() && scheduler.Valid() && t in sessions && t in scheduler.taskStatuses
      modifies ledger, leases, scheduler, this`trace
      ensures Traced() && old(trace) <= trace && scheduler.Valid()
      ensures e.None? <==> CanFinish(scheduler.plan, adapter, host, old(ledger.rows), t)
      ensures e.None? && t !in old(ledger.rows) ==> Snap() == old(Snap())
      ensures e.None? ==> finished == !adapter.poll(t).Pending?
      ensures e.Some? ==> !finished && leases.View() == old(leases.View())
      ensures e.Some? ==> (
        || e.value.LedgerRefused?
        || (e.value == EvidenceDisagrees(t) && Snap() == old(Snap()) && adapter.poll(t).Completed?))
      ensures e.None? && t in old(ledger.rows) ==> Snap() == Polled(scheduler.plan, adapter, old(Snap()), t)
    {
      var sess := sessions[t];
      match adapter.poll(t) {
        case Completed =>
          if !adapter.evidenceAgrees(t) { return false, Some(EvidenceDisagrees(t)); }
          e := CompleteSession(t, sess, adapter.digest(t), host);
          return e.None?, e;
        case Uncertain =>
          e := BlockSession(t, host);
          return e.None?, e;
        case Failed =>
          e := FailSession(t, sess, host);
          return e.None?, e;
        case Pending =>
          return false, None;
      }
    }

    method PollNext(order: seq<TaskId>, i: nat, adapter: Adapter, host: Host, ghost before: Loop, done: set<TaskId>)
        returns (done': set<TaskId>, e: Option<StepError>)
      requires Traced() && scheduler.Valid() && i < |order| && order[i] in sessions && order[i] in scheduler.plan.tasks
      requires Snap() == PolledAll(scheduler.plan, adapter, before, order[..i])
      requires done == Finished(adapter, Elements(order[..i]))
      modifies ledger, leases, scheduler, this`trace
      ensures Traced() && old(trace) <= trace && scheduler.Valid()
      ensures e.None? <==> CanPollAt(scheduler.plan, adapter, host, before, order, i)
      ensures e.None? ==> Snap() == PolledAll(scheduler.plan, adapter, before, order[..i + 1])
      ensures e.None? ==> done' == Finished(adapter, Elements(order[..i + 1]))
      ensures e.Some? ==> e.value.LedgerRefused? || e.value.EvidenceDisagrees?
    {
      assert order[..i + 1][..i] == order[..i];
      FinishedNext(adapter, order, i);
      var finished;
      finished, e := PollSession(order[i], adapter, host);
      done' := if finished then done + {order[i]} else done;
    }

    method PollEach(order: seq<TaskId>, adapter: Adapter, host: Host) returns (done: set<TaskId>, e: Option<StepError>)
      requires Traced() && scheduler.Valid()
      requires forall i | 0 <= i < |order| :: order[i] in sessions && order[i] in scheduler.plan.tasks
      modifies ledger, leases, scheduler, this`trace
      ensures Traced() && old(trace) <= trace && scheduler.Valid()
      ensures e.None? <==> CanPoll(scheduler.plan, adapter, host, old(Snap()), order, |order|)
      ensures e.None? ==> Snap() == PolledAll(scheduler.plan, adapter, old(Snap()), order)
      ensures e.None? ==> done == Finished(adapter, Elements(order))
      ensures e.Some? ==> e.value.LedgerRefused? || e.value.EvidenceDisagrees?
    {
      done := {};
      for i := 0 to |order|
        invariant Traced() && old(trace) <= trace && scheduler.Valid() && sessions == old(sessions)
        invariant Snap() == PolledAll(scheduler.plan, adapter, old(Snap()), order[..i])
        invariant done == Finished(adapter, Elements(order[..i]))
        invariant CanPoll(scheduler.plan, adapter, host, old(Snap()), order, i)
      {
        done, e := PollNext(order, i, adapter, host, old(Snap()), done);
        if e.Some? { CannotPoll(scheduler.plan, adapter, host, old(Snap()), order, i, |order|); return; }
      }
      TakeAll(order);
      e := None;
    }

    /** First phase of a step: poll every session, then forget the finished ones. */
    method PollAll(adapter: Adapter, host: Host) returns (worked: bool, e: Option<StepError>, ghost order: seq<TaskId>)
      requires Traced() && scheduler.Valid() && sessions.Keys <= scheduler.plan.tasks.Keys
      modifies ledger, leases, scheduler, this`sessions, this`trace
      ensures Traced() && old(trace) <= trace && scheduler.Valid() && sessions.Keys <= old(sessions).Keys
      ensures NoDuplicates(order) && Elements(order) == old(sessions).Keys
      ensures e.None? <==> CanPoll(scheduler.plan, adapter, host, old(Snap()), order, |order|)
      ensures e.None? ==> Snap() == AfterPolling(scheduler.plan, adapter, old(Snap()), order)
      ensures e.None? ==> worked == (Finished(adapter, old(sessions).Keys) != {})
      ensures e.Some? ==> e.value.LedgerRefused? || e.value.EvidenceDisagrees?
    {
      var listed := ListOf(sessions.Keys);
      order := listed;
      assert forall i | 0 <= i < |listed| :: listed[i] in Elements(listed);
      var done;
      done, e := PollEach(listed, adapter, host);
      if e.Some? { return false, e, order; }
      sessions := sessions - done;
      worked := done != {};
    }

    // -------------------------------------------------------------------------------------
    // Dispatching
    // -------------------------------------------------------------------------------------

    method Prepare(t: TaskId, adapter: Adapter) returns (e: Option<StepError>)
      requires t in scheduler.plan.tasks
      ensures e.None? <==> Prepared(scheduler.plan, adapter, ledger.rows, t)
      ensures e.Some? ==> !e.value.StartUncertain?
    {
      if scheduler.plan.tasks[t].worktree == "" { return Some(WorktreeMissing(t)); }
      if adapter.validates {
        var current := ledger.GetState(t);
        if current.Err? { return Some(LedgerRefused(t, current.error)); }
        if !adapter.contextValid(t) { return Some(ContextRefused(t)); }
      }
      return None;
    }

    /** The scheduler's dispatch never raises here; the ledger's transition can. */
    method MarkRunning(t: TaskId, host: Host) returns (e: Option<StepError>)
      requires Traced() && scheduler.Valid() && t in leases.leases
      requires t in Dispatchable(scheduler.plan, scheduler.maxWorkers, scheduler.View())
      requires orderly && t in ledger.rows ==> OrderlyStart(t)
      modifies ledger, scheduler, this`trace
      ensures Traced() && old(trace) <= trace && scheduler.Valid() && t in scheduler.taskStatuses
      ensures e.None? <==> && t in old(ledger.rows)
                           && CanMove(t, old(ledger.rows)[t], RUNNING, None, host.schemaAccepts(t, RUNNING))
      ensures e.None? ==> ledger.rows == old(ledger.rows)[t := Moved(old(ledger.rows)[t], RUNNING)]
      ensures e.Some? ==> e.value.LedgerRefused?
      ensures scheduler.View() == Dispatched(old(scheduler.View()), t)
    {
      var refused := scheduler.Dispatch(t);
      e := CommitTransition(t, RUNNING, None, host.schemaAccepts(t, RUNNING));
    }

    /** An uncertain start blocks the task, in ledger and scheduler, and keeps its lease. */
    method StartSession(t: TaskId, epoch: nat, adapter: Adapter, host: Host) returns (e: Option<StepError>)
      requires Traced() && scheduler.Valid() && t in scheduler.taskStatuses
      modifies ledger, scheduler, this`sessions, this`trace
      ensures Traced() && old(trace) <= trace && scheduler.Valid()
      ensures e.None? <==> adapter.start(t).Some?
      ensures e.None? ==>
        && ledger.rows == old(ledger.rows) && scheduler.View() == old(scheduler.View())
        && sessions == old(sessions)[t := Session(adapter.start(t).value, WorkerOf(t), epoch)]
      ensures e.Some? ==> sessions == old(sessions) && (e.value == StartUncertain(t) || e.value.LedgerRefused?)
      ensures e.Some? ==> (e.value == StartUncertain(t) <==>
        && t in old(ledger.rows) && CanMove(t, old(ledger.rows)[t], BLOCKED, None, host.schemaAccepts(t, BLOCKED)))
      ensures e.Some? && e.value.StartUncertain? && t in leases.leases ==> LeftUncertain(t)
      ensures e == Some(StartUncertain(t)) ==>
        && t in old(ledger.rows) && t in ledger.rows && ledger.rows == old(ledger.rows)[t := ledger.rows[t]]
        && MovedTo(old(ledger.rows)[t], ledger.rows[t], BLOCKED, None)
        && scheduler.View() == Updated(scheduler.plan, old(scheduler.View()), t, BLOCKED)
    {
      var started := adapter.start(t);
      if started.Some? {
        sessions := sessions[t := Session(started.value, WorkerOf(t), epoch)];
        return None;
      }
      e := CommitTransition(t, BLOCKED, None, host.schemaAccepts(t, BLOCKED));
      if e.Some? { return; }
      var unknown := scheduler.UpdateTaskStatus(t, BLOCKED);
      return Some(StartUncertain(t));
    }

    /** What a start that may or may not have happened leaves: blocked in ledger and scheduler, and still leased. */
    ghost predicate LeftUncertain(t: TaskId)
      reads ledger, leases, scheduler
    {
      && t in ledger.rows && ledger.rows[t].status == BLOCKED && t in leases.leases
      && t in scheduler.taskStatuses && scheduler.taskStatuses[t] == BLOCKED
    }

    /** Scheduler, then ledger, then the adapter. */
    method Launch(t: TaskId, epoch: nat, adapter: Adapter, host: Host) returns (e: Option<StepError>)
      requires Traced() && scheduler.Valid() && t in leases.leases
      requires t in Dispatchable(scheduler.plan, scheduler.maxWorkers, scheduler.View())
      requires orderly && t in ledger.rows ==> OrderlyStart(t)
      modifies ledger, scheduler, this`sessions, this`trace
      ensures Traced() && old(trace) <= trace && scheduler.Valid()
      ensures e.None? <==> && t in old(ledger.rows) && adapter.start(t).Some?
                           && CanMove(t, old(ledger.rows)[t], RUNNING, None, host.schemaAccepts(t, RUNNING))
      ensures e.None? ==>
        && ledger.rows == old(ledger.rows)[t := Moved(old(ledger.rows)[t], RUNNING)]
        && scheduler.View() == Dispatched(old(scheduler.View()), t)
        && sessions == old(sessions)[t := Session(adapter.start(t).value, WorkerOf(t), epoch)]
      ensures e.Some? ==> sessions == old(sessions) && leases.View() == old(leases.View())
      ensures e.Some? && e.value.StartUncertain? ==> LeftUncertain(e.value.task)
    {
      e := MarkRunning(t, host);
      if e.Some? { return; }
      e := StartSession(t, epoch, adapter, host);
    }

    method DispatchOne(t: TaskId, adapter: Adapter, host: Host) returns (e: Option<StepError>)
      requires Traced() && scheduler.Valid() && t in scheduler.plan.tasks
      requires t in Dispatchable(scheduler.plan, scheduler.maxWorkers, scheduler.View())
      requires orderly && t in ledger.rows ==> OrderlyStart(t)
      modifies ledger, leases, scheduler, this`sessions, this`trace
      ensures Traced() && old(trace) <= trace && scheduler.Valid() && sessions.Keys <= old(sessions).Keys + {t}
      ensures e.None? <==> CanStart(scheduler.plan, adapter, host, old(Snap()), t)
      ensures e.None? ==> Snap() == StartedIf(adapter, host, old(Snap()), t)
      ensures e.Some? && e.value.StartUncertain? ==> LeftUncertain(e.value.task)
    {
      e := Prepare(t, adapter);
      if e.Some? { return; }
      var epoch := CommitAcquire(t, adapter, host);
      if epoch.None? { return None; }
      e := Launch(t, epoch.value, adapter, host);
    }

    method DispatchNext(list: seq<TaskId>, i: nat, adapter: Adapter, host: Host, ghost before: Loop)
        returns (e: Option<StepError>)
      requires Traced() && scheduler.Valid() && NoDuplicates(list) && i < |list|
      requires Snap() == StartedAll(adapter, host, before, list[..i])
      requires StillListed(scheduler.plan, scheduler.maxWorkers, scheduler.View(), list, i)
      requires orderly ==> JustifiedAt(scheduler.plan, scheduler.maxWorkers, adapter, host, before, list, i)
      modifies ledger, leases, scheduler, this`sessions, this`trace
      ensures Traced() && old(trace) <= trace && scheduler.Valid()
      ensures old(sessions).Keys <= scheduler.plan.tasks.Keys ==> sessions.Keys <= scheduler.plan.tasks.Keys
      ensures e.None? <==> CanStartAt(scheduler.plan, adapter, host, before, list, i)
      ensures e.None? ==> Snap() == StartedAll(adapter, host, before, list[..i + 1])
      ensures e.Some? && e.value.StartUncertain? ==> LeftUncertain(e.value.task)
      ensures e.None? ==> StillListed(scheduler.plan, scheduler.maxWorkers, scheduler.View(), list, i + 1)
    {
      assert list[..i + 1][..i] == list[..i];
      RestStaysDispatchable(scheduler.plan, scheduler.maxWorkers, adapter, host, Snap(), list, i);
      e := DispatchOne(list[i], adapter, host);
    }

    method DispatchEach(list: seq<TaskId>, adapter: Adapter, host: Host) returns (e: Option<StepError>)
      requires Traced() && scheduler.Valid() && sessions.Keys <= scheduler.plan.tasks.Keys
      requires NoDuplicates(list) && StillListed(scheduler.plan, scheduler.maxWorkers, scheduler.View(), list, 0)
      requires orderly ==> Justified(scheduler.plan, scheduler.maxWorkers, adapter, host, Snap(), list)
      modifies ledger, leases, scheduler, this`sessions, this`trace
      ensures Traced() && old(trace) <= trace && scheduler.Valid() && sessions.Keys <= scheduler.plan.tasks.Keys
      ensures e.None? <==> CanDispatch(scheduler.plan, adapter, host, old(Snap()), list, |list|)
      ensures e.None? ==> Snap() == StartedAll(adapter, host, old(Snap()), list)
      ensures e.Some? && e.value.StartUncertain? ==> LeftUncertain(e.value.task)
    {
      for i := 0 to |list|
        invariant Traced() && old(trace) <= trace && scheduler.Valid() && sessions.Keys <= scheduler.plan.tasks.Keys
        invariant Snap() == StartedAll(adapter, host, old(Snap()), list[..i])
        invariant CanDispatch(scheduler.plan, adapter, host, old(Snap()), list, i)
        invariant StillListed(scheduler.plan, scheduler.maxWorkers, scheduler.View(), list, i)
      {
        e := DispatchNext(list, i, adapter, host, old(Snap()));
        if e.Some? { CannotDispatch(scheduler.plan, adapter, host, old(Snap()), list, i, |list|); return; }
      }
      TakeAll(list);
      e := None;
    }

    /** Second phase: dispatch the list computed once at its start. */
    method DispatchAll(adapter: Adapter, host: Host) returns (e: Option<StepError>)
      requires Traced() && scheduler.Valid() && sessions.Keys <= scheduler.plan.tasks.Keys
      requires orderly ==>
        Justified(scheduler.plan, scheduler.maxWorkers, adapter, host, Snap(),
                  Dispatchable(scheduler.plan, scheduler.maxWorkers, scheduler.View()))
      modifies ledger, leases, scheduler, this`sessions, this`trace
      ensures Traced() && old(trace) <= trace && scheduler.Valid() && sessions.Keys <= scheduler.plan.tasks.Keys
      ensures var list := Dispatchable(scheduler.plan, scheduler.maxWorkers, old(scheduler.View()));
              && (e.None? <==> CanDispatch(scheduler.plan, adapter, host, old(Snap()), list, |list|))
              && (e.None? ==> Snap() == StartedAll(adapter, host, old(Snap()), list))
      ensures e.Some? && e.value.StartUncertain? ==> LeftUncertain(e.value.task)
    {
      var list := scheduler.GetDispatchableTasks();
      DispatchableAreCandidates(scheduler.plan, scheduler.maxWorkers, scheduler.View());
      e := DispatchEach(list, adapter, host);
    }

    /** Keeps `orderly` where the step began in agreement; otherwise nothing is claimed of what follows. */
    ghost method Justify(before: Loop, order: seq<TaskId>, adapter: Adapter, host: Host)
      requires Traced() && Snap() == AfterPolling(scheduler.plan, adapter, before, order)
      requires NoDuplicates(order) && Elements(order) == before.sessions.Keys
      modifies this`orderly
      ensures Traced()
      ensures Agree(scheduler.plan, scheduler.maxWorkers, before, {}) ==> orderly == old(orderly)
      ensures orderly ==>
        Justified(scheduler.plan, scheduler.maxWorkers, adapter, host, Snap(),
                  Dispatchable(scheduler.plan, scheduler.maxWorkers, scheduler.View()))
    {
      if Agree(scheduler.plan, scheduler.maxWorkers, before, {}) {
        DispatchIsJustified(scheduler.plan, scheduler.maxWorkers, adapter, host, before, order);
      } else {
        orderly := false;
      }
    }

    /** One cycle of the loop: true when something finished or is still active. */
    method Step(adapter: Adapter, host: Host) returns (r: Result<bool, StepError>, ghost order: seq<TaskId>)
      requires Traced() && scheduler.Valid() && sessions.Keys <= scheduler.plan.tasks.Keys
      modifies ledger, leases, scheduler, this`sessions, this`trace, this`orderly
      ensures Traced() && old(trace) <= trace && scheduler.Valid() && sessions.Keys <= scheduler.plan.tasks.Keys
      ensures NoDuplicates(order) && Elements(order) == old(sessions).Keys
      ensures r.Ok? <==> CanStep(scheduler.plan, scheduler.maxWorkers, adapter, host, old(Snap()), order)
      ensures r.Ok? ==>
        && Snap() == Stepped(scheduler.plan, scheduler.maxWorkers, adapter, host, old(Snap()), order)
        && r.value == (Finished(adapter, old(sessions).Keys) != {} || sessions != map[])
      ensures old(Agree(scheduler.plan, scheduler.maxWorkers, Snap(), {})) ==>
        && (r.Ok? <==> StepGoesThrough(scheduler.plan, scheduler.maxWorkers, adapter, host, old(Snap()), order))
        && orderly == old(orderly)
      ensures r.Err? && r.error.StartUncertain? ==> LeftUncertain(r.error.task)
      ensures r.Ok? && old(Agree(scheduler.plan, scheduler.maxWorkers, Snap(), {})) ==>
                StepDoes(scheduler.plan, scheduler.maxWorkers, adapter, host, old(Snap()), Snap())
    {
      var worked, e;
      worked, e, order := PollAll(adapter, host);
      StepOutcomeSummary(scheduler.plan, scheduler.maxWorkers, adapter, host, old(Snap()), order);
      if e.Some? { return Err(e.value), order; }
      Justify(old(Snap()), order, adapter, host);
      e := DispatchAll(adapter, host);
      if e.Some? { return Err(e.value), order; }
      r := Ok(worked || sessions != map[]);
    }

    /** The report at the end of a run, read from the ledger task by task. */
    method Summarize() returns (summary: map<TaskId, Option<TaskStatus>>)
      requires scheduler.Valid()
      ensures summary == Summary(scheduler.plan, ledger.rows)
    {
      var order := scheduler.plan.order;
      PlanOrder(scheduler.plan);
      summary := map[];
      for i := 0 to |order|
        invariant summary.Keys == Elements(order[..i])
        invariant forall t | t in summary ::
                  summary[t] == if t in ledger.rows then Some(ledger.rows[t].status) else None
      {
        assert order[..i + 1] == order[..i] + [order[i]];
        var current := ledger.GetState(order[i]);
        summary := summary[order[i] := if current.Ok? then Some(current.value.status) else None];
      }
      TakeAll(order);
    }

    /** One more step of a run that has not been idle so far. */
    method StepOn(adapters: nat -> Adapter, hosts: nat -> Host, i: nat, ghost maxIterations: nat,
                  ghost states: seq<Loop>)
        returns (r: Result<bool, StepError>, ghost more: seq<Loop>)
      requires Traced() && scheduler.Valid() && sessions.Keys <= scheduler.plan.tasks.Keys
      requires Busy(scheduler.plan, scheduler.maxWorkers, adapters, hosts)(states)
      requires |states| == i + 1 && states[i] == Snap() && i < maxIterations
      modifies ledger, leases, scheduler, this`sessions, this`trace, this`orderly
      ensures Traced() && old(trace) <= trace && scheduler.Valid() && sessions.Keys <= scheduler.plan.tasks.Keys
      ensures more == if r.Ok? then states + [Snap()] else states
      ensures r.Ok? && !r.value ==> Busy(scheduler.plan, scheduler.maxWorkers, adapters, hosts)(more)
      ensures r.Err? || r.value ==>
                RunEnded(scheduler.plan, scheduler.maxWorkers, adapters, hosts, more, maxIterations, r.Err?)
      ensures AgreesIn(scheduler.plan, scheduler.maxWorkers, more)(0) ==>
                AgreesIn(scheduler.plan, scheduler.maxWorkers, states)(0) && orderly == old(orderly)
    {
      BusyRunAgrees(scheduler.plan, scheduler.maxWorkers, adapters, hosts, states, i);
      var step, order := Step(adapters(i), hosts(i));
      if step.Err? {
        RunStops(scheduler.plan, scheduler.maxWorkers, adapters, hosts, states, order, maxIterations, i);
        return Err(step.error), states;
      }
      RunGoesOn(scheduler.plan, scheduler.maxWorkers, adapters, hosts, states, Snap(), order, maxIterations, i);
      AgreesFromTheStart(scheduler.plan, scheduler.maxWorkers, states, Snap());
      return Ok(!step.value && sessions == map[]), states + [Snap()];
    }

    /** The loop itself. */
    method RunSteps(maxIterations: nat, adapters: nat -> Adapter, hosts: nat -> Host)
        returns (e: Option<StepError>, ghost states: seq<Loop>)
      requires Traced() && scheduler.Valid() && sessions.Keys <= scheduler.plan.tasks.Keys
      modifies ledger, leases, scheduler, this`sessions, this`trace, this`orderly
      ensures Traced() && old(trace) <= trace && scheduler.Valid() && sessions.Keys <= scheduler.plan.tasks.Keys
      ensures states != [] && states[0] == old(Snap()) && (e.None? ==> states[|states| - 1] == Snap())
      ensures RunEnded(scheduler.plan, scheduler.maxWorkers, adapters, hosts, states, maxIterations, e.Some?)
      ensures AgreesIn(scheduler.plan, scheduler.maxWorkers, states)(0) ==> orderly == old(orderly)
    {
      var i := 0;
      states := [Snap()];
      BusyAtFirst(scheduler.plan, scheduler.maxWorkers, adapters, hosts, Snap());
      while i < maxIterations
        invariant 0 <= i <= maxIterations && |states| == i + 1 && states[0] == old(Snap()) && states[i] == Snap()
        invariant Busy(scheduler.plan, scheduler.maxWorkers, adapters, hosts)(states)
        invariant Traced() && old(trace) <= trace && scheduler.Valid() && sessions.Keys <= scheduler.plan.tasks.Keys
        invariant AgreesIn(scheduler.plan, scheduler.maxWorkers, states)(0) ==> orderly == old(orderly)
      {
        var idle;
        idle, states := StepOn(adapters, hosts, i, maxIterations, states);
        if idle.Err? { return Some(idle.error), states; }
        i := i + 1;
        if idle.value { return None, states; }
      }
      EndsUsedUp(scheduler.plan, scheduler.maxWorkers, adapters, hosts, states, maxIterations);
      e := None;
    }

    /**
     Whole runs: however the adapter and the host answer each time, the agreement is never
     lost, a run that raises still leaves nothing a restart could not load, and the run ends
     early exactly at the first step that finished nothing and left no session.
     */
    method RunUntilIdle(maxIterations: nat, adapters: nat -> Adapter, hosts: nat -> Host)
        returns (r: Result<map<TaskId, Option<TaskStatus>>, StepError>, ghost states: seq<Loop>)
      requires Traced() && scheduler.Valid() && sessions.Keys <= scheduler.plan.tasks.Keys
      modifies ledger, leases, scheduler, this`sessions, this`trace, this`orderly
      ensures Traced() && old(trace) <= trace && scheduler.Valid() && sessions.Keys <= scheduler.plan.tasks.Keys
      ensures states != [] && states[0] == old(Snap()) && (r.Ok? ==> states[|states| - 1] == Snap())
      ensures RunEnded(scheduler.plan, scheduler.maxWorkers, adapters, hosts, states, maxIterations, r.Err?)
      ensures r.Ok? ==> r.value.Keys == scheduler.plan.tasks.Keys && forall t | t in r.value ::
        r.value[t] == if t in ledger.rows then Some(ledger.rows[t].status) else None
      ensures AgreeAt(scheduler.plan, scheduler.maxWorkers, states, 0) ==>
                orderly == old(orderly) && forall i | 0 <= i < |states| ::
                  AgreeAt(scheduler.plan, scheduler.maxWorkers, states, i)
    {
      var e;
      e, states := RunSteps(maxIterations, adapters, hosts);
      forall i | 0 <= i < |states| && AgreeAt(scheduler.plan, scheduler.maxWorkers, states, 0)
        ensures AgreeAt(scheduler.plan, scheduler.maxWorkers, states, i)
      {
        LoopRunAgrees(scheduler.plan, scheduler.maxWorkers, adapters, hosts, states, i);
      }
      if e.Some? { return Err(e.value), states; }
      var summary := Summarize();
      r := Ok(summary);
    }
  }
}
