/**
 What one step of the run loop (orchestrator/core/loop.py) leaves behind, said of the ledger
 rows, the scheduler's statuses, the leases and the sessions themselves, task by task, and
 when it raises, said of what the ledger, the adapter and the host answer.
 */
module StepOutcome {
  import opened Wrappers
  import opened Ledger
  import opened Scheduler
  import opened DependencyGraph
  import opened LoopModel
  import Lease
  import Safety = SchedulerSafety

  type TaskId = DependencyGraph.TaskId

  // ---------------------------------------------------------------------------------------
  // Tasks without a session
  // ---------------------------------------------------------------------------------------

  /** A session found failed, of a task that `u` needs. */
  ghost predicate FailureBelow(plan: Plan, adapter: Adapter, l: Loop, u: TaskId) {
    exists a :: a in l.sessions && adapter.poll(a) == Failed && plan.Graph().Reaches(u, a)
  }

  lemma FailureIsHit(plan: Plan, adapter: Adapter, l: Loop, order: seq<TaskId>, u: TaskId)
    requires forall t :: t in order <==> t in l.sessions
    ensures HitBy(plan, adapter, order, u) <==> FailureBelow(plan, adapter, l, u)
  {
    if a :| FailsUnder(plan, adapter, order, u, a) { assert a in l.sessions; }
    if a :| a in l.sessions && adapter.poll(a) == Failed && plan.Graph().Reaches(u, a) {
      assert FailsUnder(plan, adapter, order, u, a);
    }
  }

  /** The row of a task that did not run: blocked by a failure below it unless closed, else as it was. */
  ghost predicate CascadeReached(plan: Plan, adapter: Adapter, before: Loop, after: Loop, u: TaskId)
    requires u in before.rows
  {
    && u in after.rows
    && (FailureBelow(plan, adapter, before, u) && before.rows[u].status != FAILED && before.rows[u].status != DONE ==>
          MovedTo(before.rows[u], after.rows[u], BLOCKED, None))
    && (!FailureBelow(plan, adapter, before, u) || before.rows[u].status == FAILED || before.rows[u].status == DONE ==>
          after.rows[u] == before.rows[u])
  }

  /** A task found without a session is started, blocked by a failure below it, or left as it was. */
  ghost predicate WaiterStepped(plan: Plan, adapter: Adapter, host: Host, before: Loop, after: Loop, u: TaskId)
    requires u in before.rows
  {
    if u in after.sessions then
      && NowRunning(adapter, host, before, after, u) && before.rows[u].status == READY
      && LeaseIsFree(host, before.db, u) && !FailureBelow(plan, adapter, before, u)
    else
      && CascadeReached(plan, adapter, before, after, u)
      && SameAt(before.db.leases, after.db.leases, u) && SameAt(before.db.epochs, after.db.epochs, u)
  }

  lemma {:induction false} PollingSparesLeases(plan: Plan, adapter: Adapter, l: Loop, order: seq<TaskId>, u: TaskId)
    requires u !in order
    ensures var m := PolledAll(plan, adapter, l, order);
            SameAt(l.db.leases, m.db.leases, u) && m.db.epochs == l.db.epochs && m.sessions == l.sessions
  {
    if order != [] {
      assert order == order[..|order| - 1] + [order[|order| - 1]];
      PollingSparesLeases(plan, adapter, l, order[..|order| - 1], u);
    }
  }

  lemma BlockedMeans(plan: Plan, adapter: Adapter, l: Loop, m: Loop, order: seq<TaskId>, u: TaskId)
    requires forall t :: t in order <==> t in l.sessions
    requires u in l.rows && BlockedOnce(plan, adapter, l, m, order, u)
    ensures CascadeReached(plan, adapter, l, m, u)
  {
    FailureIsHit(plan, adapter, l, order, u);
    MovedMeans(l.rows[u], BLOCKED);
  }

  /** Half way through a step that does not raise. */
  lemma WaiterAfterPolling(plan: Plan, maxWorkers: int, adapter: Adapter, l: Loop, order: seq<TaskId>, u: TaskId)
    requires Agree(plan, maxWorkers, l, {}) && NoDuplicates(order) && Elements(order) == l.sessions.Keys
    requires NothingShared(plan, adapter, l.rows, order) && u in l.rows && u !in l.sessions
    ensures var mid := AfterPolling(plan, adapter, l, order);
            && CascadeReached(plan, adapter, l, mid, u) && u !in mid.sessions
            && SameAt(l.db.leases, mid.db.leases, u) && SameAt(l.db.epochs, mid.db.epochs, u)
  {
    SessionsListed(plan, l, order);
    PollingBlocksOnce(plan, maxWorkers, adapter, l, order, u);
    BlockedMeans(plan, adapter, l, PolledAll(plan, adapter, l, order), order, u);
    PollingSparesLeases(plan, adapter, l, order, u);
  }

  lemma ListedShowsReady(plan: Plan, maxWorkers: int, s: State, u: TaskId)
    requires Shaped(plan, s) && u in Dispatchable(plan, maxWorkers, s)
    ensures u in plan.tasks && u in s.statuses && s.statuses[u] == READY
  {
    DispatchableAreCandidates(plan, maxWorkers, s);
  }

  lemma ReadyInLedger(plan: Plan, s: State, rows: map<TaskId, TaskState>, u: TaskId)
    requires Shown(plan, s, rows) && u in plan.tasks && u in s.statuses && s.statuses[u] == READY
    ensures u in rows && rows[u].status == READY
  {
  }

  /** A listed task is READY in the ledger too, so no failure below it has just blocked it. */
  lemma ListedIsReady(plan: Plan, maxWorkers: int, adapter: Adapter, l: Loop, mid: Loop, u: TaskId)
    requires Shaped(plan, mid.sched) && Shown(plan, mid.sched, mid.rows)
    requires u in Dispatchable(plan, maxWorkers, mid.sched)
    requires u in l.rows && CascadeReached(plan, adapter, l, mid, u)
    ensures mid.rows[u] == l.rows[u] && l.rows[u].status == READY && !FailureBelow(plan, adapter, l, u)
  {
    ListedShowsReady(plan, maxWorkers, mid.sched, u);
    ReadyInLedger(plan, mid.sched, mid.rows, u);
  }

  lemma StartedWaiter(plan: Plan, adapter: Adapter, host: Host, l: Loop, mid: Loop, after: Loop, u: TaskId)
    requires NowRunning(adapter, host, mid, after, u) && LeaseIsFree(host, mid.db, u)
    requires u in l.rows && mid.rows[u] == l.rows[u] && l.rows[u].status == READY && !FailureBelow(plan, adapter, l, u)
    requires SameAt(l.db.leases, mid.db.leases, u) && SameAt(l.db.epochs, mid.db.epochs, u)
    ensures WaiterStepped(plan, adapter, host, l, after, u)
  {
  }

  lemma KeptWaiter(plan: Plan, adapter: Adapter, host: Host, l: Loop, mid: Loop, after: Loop, u: TaskId)
    requires Kept(mid, after, u) && u in l.rows && u !in mid.sessions && CascadeReached(plan, adapter, l, mid, u)
    requires SameAt(l.db.leases, mid.db.leases, u) && SameAt(l.db.epochs, mid.db.epochs, u)
    ensures WaiterStepped(plan, adapter, host, l, after, u)
  {
  }

  lemma WaiterAfterDispatching(plan: Plan, maxWorkers: int, adapter: Adapter, host: Host, l: Loop, mid: Loop, u: TaskId)
    requires Agree(plan, maxWorkers, mid, {}) && u in l.rows && u !in mid.sessions
    requires CascadeReached(plan, adapter, l, mid, u)
    requires SameAt(l.db.leases, mid.db.leases, u) && SameAt(l.db.epochs, mid.db.epochs, u)
    ensures var after := StartedAll(adapter, host, mid, Dispatchable(plan, maxWorkers, mid.sched));
            WaiterStepped(plan, adapter, host, l, after, u)
  {
    var list := Dispatchable(plan, maxWorkers, mid.sched);
    var after := StartedAll(adapter, host, mid, list);
    assert NoDuplicates(list) by { DispatchableAreCandidates(plan, maxWorkers, mid.sched); }
    DispatchingSettles(adapter, host, mid, list, u);
    if u in list && Startable(adapter, host, mid, u) {
      ListedIsReady(plan, maxWorkers, adapter, l, mid, u);
      LeaseExactly(adapter, host, mid.db, u);
      StartedWaiter(plan, adapter, host, l, mid, after, u);
    } else {
      KeptWaiter(plan, adapter, host, l, mid, after, u);
    }
  }

  /** So every task that had a row and no session is accounted for. */
  lemma WaitersAreStepped(plan: Plan, maxWorkers: int, adapter: Adapter, host: Host, l: Loop, order: seq<TaskId>,
                          u: TaskId)
    requires Agree(plan, maxWorkers, l, {}) && NoDuplicates(order) && Elements(order) == l.sessions.Keys
    requires NothingShared(plan, adapter, l.rows, order) && u in l.rows && u !in l.sessions
    ensures WaiterStepped(plan, adapter, host, l, Stepped(plan, maxWorkers, adapter, host, l, order), u)
  {
    SessionsListed(plan, l, order);
    StepAgrees(plan, maxWorkers, adapter, host, l, order);
    WaiterAfterPolling(plan, maxWorkers, adapter, l, order, u);
    WaiterAfterDispatching(plan, maxWorkers, adapter, host, l, AfterPolling(plan, adapter, l, order), u);
  }

  // ---------------------------------------------------------------------------------------
  // The scheduler between the two phases
  // ---------------------------------------------------------------------------------------

  /** The status a task shows once all sessions have been polled. */
  ghost predicate ShowsAfterPolling(plan: Plan, adapter: Adapter, before: State, shown: State, u: TaskId, polled: bool,
                                    hit: bool)
    requires u in before.statuses && u in shown.statuses
  {
    && (polled && adapter.poll(u) == Completed ==> shown.statuses[u] == VALIDATING)
    && (polled && adapter.poll(u) == Failed ==> shown.statuses[u] == FAILED)
    && (polled && adapter.poll(u) == Uncertain ==> shown.statuses[u] == BLOCKED)
    && (polled && adapter.poll(u) == Pending ==> shown.statuses[u] == RUNNING)
    && (!polled && hit ==> shown.statuses[u] == BLOCKED)
    && (!polled && !hit ==> shown.statuses[u] == before.statuses[u])
    && (u in shown.active <==> u in before.active && (polled ==> adapter.poll(u) == Pending))
    && shown.attempts == before.attempts
  }

  /** `m` shows what polling the sessions of `order` makes of `l`. */
  ghost predicate ShowsAt(plan: Plan, adapter: Adapter, s: State, shown: State, order: seq<TaskId>, u: TaskId) {
    && u in s.statuses && u in shown.statuses
    && ShowsAfterPolling(plan, adapter, s, shown, u, u in order, HitBy(plan, adapter, order, u))
  }

  lemma {:induction false} PollingShows(plan: Plan, maxWorkers: int, adapter: Adapter, l: Loop, order: seq<TaskId>,
                                        u: TaskId)
    requires Agree(plan, maxWorkers, l, {}) && Sessions(l, order) && u in plan.tasks && u in l.sched.statuses
    ensures ShowsAt(plan, adapter, l.sched, PolledAll(plan, adapter, l, order).sched, order, u)
  {
    if order == [] {
      assert !HitBy(plan, adapter, order, u);
    } else {
      var init, t := order[..|order| - 1], order[|order| - 1];
      AboutToPoll(plan, maxWorkers, adapter, l, order, u);
      PollingShows(plan, maxWorkers, adapter, l, init, u);
      SplitLast(order);
      ShowsOneMore(plan, adapter, l.sched, PolledAll(plan, adapter, l, init), init, t, u);
    }
  }

  lemma SplitLast<T>(s: seq<T>)
    requires s != []
    ensures s == s[..|s| - 1] + [s[|s| - 1]]
  {
  }

  /** When the last session of the order is about to be polled, its task still runs, and nothing polled needs it. */
  lemma AboutToPoll(plan: Plan, maxWorkers: int, adapter: Adapter, l: Loop, order: seq<TaskId>, u: TaskId)
    requires Agree(plan, maxWorkers, l, {}) && Sessions(l, order) && order != []
    ensures var init, t := order[..|order| - 1], order[|order| - 1];
            var m := PolledAll(plan, adapter, l, init);
            && Sessions(l, init) && t !in init && t in l.sched.active && !plan.Graph().Reaches(t, t)
            && Shaped(plan, m.sched) && t in m.sched.active && t in m.rows && t in m.sessions
            && m.sched.statuses[t] == RUNNING && (u in init ==> !plan.Graph().Reaches(u, t))
  {
    var init, t := order[..|order| - 1], order[|order| - 1];
    SessionsLast(l, order);
    PollingAgrees(plan, maxWorkers, adapter, l, init);
    NotYetPolled(plan, maxWorkers, adapter, l, PolledAll(plan, adapter, l, init), Elements(init), t);
    RunningApart(plan, maxWorkers, l.sched, t, t);
    if u in init { RunningApart(plan, maxWorkers, l.sched, u, t); }
  }

  lemma ShowsOneMore(plan: Plan, adapter: Adapter, s: State, m: Loop, init: seq<TaskId>, t: TaskId, u: TaskId)
    requires Shaped(plan, m.sched) && t in m.sched.active && t in m.rows && t in m.sessions && t !in init
    requires m.sched.statuses[t] == RUNNING && !plan.Graph().Reaches(t, t) && u in plan.tasks && u in s.statuses
    requires t in s.active && (u in init ==> !plan.Graph().Reaches(u, t))
    requires ShowsAt(plan, adapter, s, m.sched, init, u)
    ensures ShowsAt(plan, adapter, s, Polled(plan, adapter, m, t).sched, init + [t], u)
  {
    HitByMore(plan, adapter, init, t, u);
    PollShows(plan, adapter, m, t, u);
  }

  lemma PollShows(plan: Plan, adapter: Adapter, m: Loop, t: TaskId, u: TaskId)
    requires Shaped(plan, m.sched) && t in m.sched.active && t in m.rows && t in m.sessions
    requires m.sched.statuses[t] == RUNNING && !plan.Graph().Reaches(t, t) && u in plan.tasks
    ensures var shown := Polled(plan, adapter, m, t).sched;
            && u in shown.statuses && shown.attempts == m.sched.attempts
            && (u == t ==> ShowsAfterPolling(plan, adapter, m.sched, shown, u, true, false))
            && (u != t ==> (u in shown.active <==> u in m.sched.active))
            && (u != t ==> (
                  shown.statuses[u] == if adapter.poll(t) == Failed && plan.Graph().Reaches(u, t) then BLOCKED
                                       else m.sched.statuses[u]))
  {
  }

  /** What the second phase chooses from: every task's status once the first phase is over. */
  lemma ScheduleAfterPolling(plan: Plan, maxWorkers: int, adapter: Adapter, l: Loop, order: seq<TaskId>, u: TaskId)
    requires Agree(plan, maxWorkers, l, {}) && NoDuplicates(order) && Elements(order) == l.sessions.Keys
    requires u in plan.tasks
    ensures var shown := AfterPolling(plan, adapter, l, order).sched;
            && u in shown.statuses
            && ShowsAfterPolling(plan, adapter, l.sched, shown, u, u in l.sessions, FailureBelow(plan, adapter, l, u))
  {
    SessionsListed(plan, l, order);
    FailureIsHit(plan, adapter, l, order, u);
    PollingShows(plan, maxWorkers, adapter, l, order, u);
  }

  /** And whom it starts: exactly the listed tasks whose lease is free. */
  lemma StartsExactly(plan: Plan, maxWorkers: int, adapter: Adapter, host: Host, l: Loop, order: seq<TaskId>, u: TaskId)
    requires Agree(plan, maxWorkers, l, {}) && NoDuplicates(order) && Elements(order) == l.sessions.Keys
    requires StepGoesThrough(plan, maxWorkers, adapter, host, l, order) && u !in l.sessions
    ensures u in Stepped(plan, maxWorkers, adapter, host, l, order).sessions <==>
              && u in Dispatchable(plan, maxWorkers, AfterPolling(plan, adapter, l, order).sched)
              && LeaseIsFree(host, l.db, u)
  {
    var mid := AfterPolling(plan, adapter, l, order);
    SessionsListed(plan, l, order);
    StepAgrees(plan, maxWorkers, adapter, host, l, order);
    PollingSparesLeases(plan, adapter, l, order, u);
    DispatchableAreCandidates(plan, maxWorkers, mid.sched);
    DispatchingSettles(adapter, host, mid, Dispatchable(plan, maxWorkers, mid.sched), u);
    LeaseExactly(adapter, host, mid.db, u);
  }

  // ---------------------------------------------------------------------------------------
  // The whole step
  // ---------------------------------------------------------------------------------------

  /** Every task accounted for: those found with a session, and those without. */
  ghost predicate StepMeans(plan: Plan, adapter: Adapter, host: Host, before: Loop, after: Loop) {
    && (forall t | t in before.sessions :: SessionStepped(adapter, before, after, t))
    && (forall u | u in before.rows && u !in before.sessions :: WaiterStepped(plan, adapter, host, before, after, u))
    && after.rows.Keys == before.rows.Keys
  }

  lemma {:induction false} StartingKeepsKeys(adapter: Adapter, host: Host, l: Loop, list: seq<TaskId>)
    ensures StartedAll(adapter, host, l, list).rows.Keys == l.rows.Keys
  {
    if list != [] { StartingKeepsKeys(adapter, host, l, list[..|list| - 1]); }
  }

  lemma StepMeansExactly(plan: Plan, maxWorkers: int, adapter: Adapter, host: Host, l: Loop, order: seq<TaskId>)
    requires Agree(plan, maxWorkers, l, {}) && NoDuplicates(order) && Elements(order) == l.sessions.Keys
    requires CanStep(plan, maxWorkers, adapter, host, l, order)
    ensures StepMeans(plan, adapter, host, l, Stepped(plan, maxWorkers, adapter, host, l, order))
  {
    StepSummary(plan, maxWorkers, adapter, host, l, order);
    var mid := AfterPolling(plan, adapter, l, order);
    PollingKeepsKeys(plan, adapter, l, order);
    StartingKeepsKeys(adapter, host, mid, Dispatchable(plan, maxWorkers, mid.sched));
    forall u | u in l.rows && u !in l.sessions
      ensures WaiterStepped(plan, adapter, host, l, Stepped(plan, maxWorkers, adapter, host, l, order), u)
    {
      WaitersAreStepped(plan, maxWorkers, adapter, host, l, order, u);
    }
  }

  /** Agreement again, and every task accounted for. */
  ghost predicate StepDoes(plan: Plan, maxWorkers: int, adapter: Adapter, host: Host, before: Loop, after: Loop) {
    StepKeeps(plan, maxWorkers, adapter, before, after) && StepMeans(plan, adapter, host, before, after)
  }

  lemma StepOutcomeSummary(plan: Plan, maxWorkers: int, adapter: Adapter, host: Host, l: Loop, order: seq<TaskId>)
    requires NoDuplicates(order) && Elements(order) == l.sessions.Keys
    ensures Agree(plan, maxWorkers, l, {}) ==>
      && (CanStep(plan, maxWorkers, adapter, host, l, order) <==>
            StepGoesThrough(plan, maxWorkers, adapter, host, l, order))
      && (CanStep(plan, maxWorkers, adapter, host, l, order) ==>
            StepDoes(plan, maxWorkers, adapter, host, l, Stepped(plan, maxWorkers, adapter, host, l, order)))
  {
    StepSummary(plan, maxWorkers, adapter, host, l, order);
    if Agree(plan, maxWorkers, l, {}) && CanStep(plan, maxWorkers, adapter, host, l, order) {
      StepMeansExactly(plan, maxWorkers, adapter, host, l, order);
    }
  }

  // ---------------------------------------------------------------------------------------
  // Many steps
  // ---------------------------------------------------------------------------------------

  ghost predicate PollOrder(l: Loop, order: seq<TaskId>) {
    NoDuplicates(order) && Elements(order) == l.sessions.Keys
  }

  /** One step that polls in this order and goes through. */
  ghost predicate StepsBy(plan: Plan, maxWorkers: int, adapter: Adapter, host: Host, before: Loop, after: Loop,
                          order: seq<TaskId>) {
    && PollOrder(before, order) && CanStep(plan, maxWorkers, adapter, host, before, order)
    && after == Stepped(plan, maxWorkers, adapter, host, before, order)
  }

  ghost predicate StepsTo(plan: Plan, maxWorkers: int, adapter: Adapter, host: Host, before: Loop, after: Loop) {
    exists order :: StepsBy(plan, maxWorkers, adapter, host, before, after, order)
  }

  /** In every order of polling the step goes through. */
  ghost predicate MayStep(plan: Plan, maxWorkers: int, adapter: Adapter, host: Host, l: Loop) {
    forall order | PollOrder(l, order) :: CanStep(plan, maxWorkers, adapter, host, l, order)
  }

  ghost predicate StepsAt(plan: Plan, maxWorkers: int, adapters: nat -> Adapter, hosts: nat -> Host, states: seq<Loop>,
                          i: nat) {
    i + 1 < |states| && StepsTo(plan, maxWorkers, adapters(i), hosts(i), states[i], states[i + 1])
  }

  /** Each state is one step of the loop from the one before it. */
  ghost predicate IsLoopRun(plan: Plan, maxWorkers: int, adapters: nat -> Adapter, hosts: nat -> Host,
                            states: seq<Loop>) {
    states != [] && forall i | 0 <= i < |states| - 1 :: StepsAt(plan, maxWorkers, adapters, hosts, states, i)
  }

  lemma StepsAgree(plan: Plan, maxWorkers: int, adapter: Adapter, host: Host, before: Loop, after: Loop)
    requires StepsTo(plan, maxWorkers, adapter, host, before, after) && Agree(plan, maxWorkers, before, {})
    ensures Agree(plan, maxWorkers, after, {}) && StepMeans(plan, adapter, host, before, after)
  {
    var order :| StepsBy(plan, maxWorkers, adapter, host, before, after, order);
    SessionsListed(plan, before, order);
    StepAgrees(plan, maxWorkers, adapter, host, before, order);
    StepMeansExactly(plan, maxWorkers, adapter, host, before, order);
  }

  ghost predicate AgreeAt(plan: Plan, maxWorkers: int, states: seq<Loop>, i: nat) {
    i < |states| && Agree(plan, maxWorkers, states[i], {})
  }

  lemma StepHandsOn(plan: Plan, maxWorkers: int, adapters: nat -> Adapter, hosts: nat -> Host, states: seq<Loop>,
                    i: nat)
    requires IsLoopRun(plan, maxWorkers, adapters, hosts, states) && i + 1 < |states|
    ensures AgreesIn(plan, maxWorkers, states)(i) ==> AgreesIn(plan, maxWorkers, states)(i + 1)
  {
    assert StepsAt(plan, maxWorkers, adapters, hosts, states, i);
    if AgreeAt(plan, maxWorkers, states, i) {
      StepsAgree(plan, maxWorkers, adapters(i), hosts(i), states[i], states[i + 1]);
    }
  }

  /** What each of the first `n` indices hands on to the next holds at `n` if it holds at 0. */
  lemma {:induction false} HandedOn(holds: nat -> bool, n: nat)
    requires forall k: nat | k < n :: holds(k) ==> holds(k + 1)
    ensures holds(0) ==> holds(n)
  {
    if n > 0 { HandedOn(holds, n - 1); }
  }

  /** A run that starts in agreement is in agreement at every state. */
  lemma LoopRunAgrees(plan: Plan, maxWorkers: int, adapters: nat -> Adapter, hosts: nat -> Host, states: seq<Loop>,
                      i: nat)
    requires IsLoopRun(plan, maxWorkers, adapters, hosts, states) && i < |states|
    ensures AgreeAt(plan, maxWorkers, states, 0) ==> AgreeAt(plan, maxWorkers, states, i)
  {
    var holds := AgreesIn(plan, maxWorkers, states);
    StepsHandOn(plan, maxWorkers, adapters, hosts, states, i);
    HandedOn(holds, i);
  }

  ghost function AgreesIn(plan: Plan, maxWorkers: int, states: seq<Loop>): nat -> bool {
    (k: nat) => AgreeAt(plan, maxWorkers, states, k)
  }

  lemma StepsHandOn(plan: Plan, maxWorkers: int, adapters: nat -> Adapter, hosts: nat -> Host, states: seq<Loop>,
                    i: nat)
    requires IsLoopRun(plan, maxWorkers, adapters, hosts, states) && i < |states|
    ensures forall k: nat | k < i ::
              AgreesIn(plan, maxWorkers, states)(k) ==> AgreesIn(plan, maxWorkers, states)(k + 1)
  {
    forall k: nat | k < i
      ensures AgreesIn(plan, maxWorkers, states)(k) ==> AgreesIn(plan, maxWorkers, states)(k + 1)
    {
      StepHandsOn(plan, maxWorkers, adapters, hosts, states, k);
    }
  }

  /** The step into state `i` finished nothing, and left no session. */
  ghost predicate IdleAt(adapters: nat -> Adapter, states: seq<Loop>, i: int) {
    && i < |states| && i > 0 && states[i].sessions == map[]
    && AllPending(adapters(i - 1), states[i - 1])
  }

  ghost predicate AllPending(adapter: Adapter, l: Loop) { forall t | t in l.sessions :: adapter.poll(t) == Pending }

  /** A run that was idle at most after its last step. */
  ghost predicate EndsRun(plan: Plan, maxWorkers: int, adapters: nat -> Adapter, hosts: nat -> Host,
                          states: seq<Loop>) {
    && IsLoopRun(plan, maxWorkers, adapters, hosts, states)
    && forall i | 0 < i < |states| - 1 :: !IdleAt(adapters, states, i)
  }

  /** All iterations were used, or the last of them was idle. */
  ghost predicate EndsInTime(adapters: nat -> Adapter, states: seq<Loop>, maxIterations: nat) {
    || |states| == maxIterations + 1
    || (|states| <= maxIterations && IdleAt(adapters, states, |states| - 1))
  }

  /** Iterations were left, and the next step raises in some order of polling. */
  ghost predicate RaisesNext(plan: Plan, maxWorkers: int, adapters: nat -> Adapter, hosts: nat -> Host,
                             states: seq<Loop>, maxIterations: nat) {
    var i := |states| - 1;
    0 <= i < maxIterations && !MayStep(plan, maxWorkers, adapters(i), hosts(i), states[i])
  }

  ghost predicate BusyRun(plan: Plan, maxWorkers: int, adapters: nat -> Adapter, hosts: nat -> Host,
                          states: seq<Loop>) {
    EndsRun(plan, maxWorkers, adapters, hosts, states) && !IdleAt(adapters, states, |states| - 1)
  }

  ghost function Busy(plan: Plan, maxWorkers: int, adapters: nat -> Adapter, hosts: nat -> Host): seq<Loop> -> bool {
    (states: seq<Loop>) => BusyRun(plan, maxWorkers, adapters, hosts, states)
  }

  lemma BusyMeans(plan: Plan, maxWorkers: int, adapters: nat -> Adapter, hosts: nat -> Host, states: seq<Loop>)
    ensures Busy(plan, maxWorkers, adapters, hosts)(states) <==> BusyRun(plan, maxWorkers, adapters, hosts, states)
  {
  }

  lemma BusyAtFirst(plan: Plan, maxWorkers: int, adapters: nat -> Adapter, hosts: nat -> Host, l: Loop)
    ensures Busy(plan, maxWorkers, adapters, hosts)([l])
  {
  }

  lemma StepStays(plan: Plan, maxWorkers: int, adapters: nat -> Adapter, hosts: nat -> Host, states: seq<Loop>,
                  next: Loop, i: nat)
    requires IsLoopRun(plan, maxWorkers, adapters, hosts, states) && i + 1 < |states|
    ensures StepsAt(plan, maxWorkers, adapters, hosts, states + [next], i)
  {
    assert StepsAt(plan, maxWorkers, adapters, hosts, states, i);
    assert (states + [next])[i] == states[i] && (states + [next])[i + 1] == states[i + 1];
  }

  lemma StepComes(plan: Plan, maxWorkers: int, adapters: nat -> Adapter, hosts: nat -> Host, states: seq<Loop>,
                  next: Loop, i: nat)
    requires |states| == i + 1 && StepsTo(plan, maxWorkers, adapters(i), hosts(i), states[i], next)
    ensures StepsAt(plan, maxWorkers, adapters, hosts, states + [next], i)
  {
    assert (states + [next])[i] == states[i] && (states + [next])[i + 1] == next;
  }

  lemma RunGrows(plan: Plan, maxWorkers: int, adapters: nat -> Adapter, hosts: nat -> Host, states: seq<Loop>,
                 next: Loop, i: nat)
    requires IsLoopRun(plan, maxWorkers, adapters, hosts, states) && |states| == i + 1
    requires StepsAt(plan, maxWorkers, adapters, hosts, states + [next], i)
    ensures IsLoopRun(plan, maxWorkers, adapters, hosts, states + [next])
  {
    forall k | 0 <= k < i ensures StepsAt(plan, maxWorkers, adapters, hosts, states + [next], k) {
      StepStays(plan, maxWorkers, adapters, hosts, states, next, k);
    }
  }

  lemma NotIdleBefore(adapters: nat -> Adapter, states: seq<Loop>, next: Loop, k: nat)
    requires k < |states| && !IdleAt(adapters, states, k)
    ensures !IdleAt(adapters, states + [next], k)
  {
  }

  lemma LoopRunExtends(plan: Plan, maxWorkers: int, adapters: nat -> Adapter, hosts: nat -> Host, states: seq<Loop>,
                       next: Loop, i: nat)
    requires BusyRun(plan, maxWorkers, adapters, hosts, states) && |states| == i + 1
    requires StepsTo(plan, maxWorkers, adapters(i), hosts(i), states[i], next)
    ensures EndsRun(plan, maxWorkers, adapters, hosts, states + [next])
  {
    StepComes(plan, maxWorkers, adapters, hosts, states, next, i);
    RunGrows(plan, maxWorkers, adapters, hosts, states, next, i);
    forall k | 0 < k < |states| ensures !IdleAt(adapters, states + [next], k) {
      NotIdleBefore(adapters, states, next, k);
    }
  }

  lemma IdleExactly(adapters: nat -> Adapter, states: seq<Loop>, next: Loop)
    requires states != []
    ensures IdleAt(adapters, states + [next], |states|) <==>
              Finished(adapters(|states| - 1), states[|states| - 1].sessions.Keys) == {} && next.sessions == map[]
  {
    var more, i := states + [next], |states| - 1;
    var finished := Finished(adapters(i), states[i].sessions.Keys);
    forall t | t in states[i].sessions ensures t in finished <==> adapters(i).poll(t) != Pending {}
    assert more[i] == states[i] && more[i + 1] == next;
  }

  /** How a run ends: where a step raises, at the first idle step, or with the iterations used up. */
  ghost predicate RunEnded(plan: Plan, maxWorkers: int, adapters: nat -> Adapter, hosts: nat -> Host,
                           states: seq<Loop>, maxIterations: nat, raised: bool) {
    && EndsRun(plan, maxWorkers, adapters, hosts, states)
    && (!raised ==> EndsInTime(adapters, states, maxIterations))
    && (raised ==> RaisesNext(plan, maxWorkers, adapters, hosts, states, maxIterations))
  }

  /** One more step of a busy run: it ends there if the step was idle, and is as busy as before otherwise. */
  lemma RunGoesOn(plan: Plan, maxWorkers: int, adapters: nat -> Adapter, hosts: nat -> Host, states: seq<Loop>,
                  next: Loop, order: seq<TaskId>, maxIterations: nat, i: nat)
    requires Busy(plan, maxWorkers, adapters, hosts)(states) && |states| == i + 1 && i < maxIterations
    requires StepsBy(plan, maxWorkers, adapters(i), hosts(i), states[i], next, order)
    ensures var idle := Finished(adapters(i), states[i].sessions.Keys) == {} && next.sessions == map[];
            && (idle ==> RunEnded(plan, maxWorkers, adapters, hosts, states + [next], maxIterations, false))
            && (!idle ==> Busy(plan, maxWorkers, adapters, hosts)(states + [next]))
  {
    BusyMeans(plan, maxWorkers, adapters, hosts, states);
    LoopRunExtends(plan, maxWorkers, adapters, hosts, states, next, i);
    IdleExactly(adapters, states, next);
    BusyMeans(plan, maxWorkers, adapters, hosts, states + [next]);
  }

  /** A busy run whose next step raises. */
  lemma RunStops(plan: Plan, maxWorkers: int, adapters: nat -> Adapter, hosts: nat -> Host, states: seq<Loop>,
                 order: seq<TaskId>, maxIterations: nat, i: nat)
    requires Busy(plan, maxWorkers, adapters, hosts)(states) && |states| == i + 1 && i < maxIterations
    requires PollOrder(states[i], order) && !CanStep(plan, maxWorkers, adapters(i), hosts(i), states[i], order)
    ensures RunEnded(plan, maxWorkers, adapters, hosts, states, maxIterations, true)
  {
    BusyMeans(plan, maxWorkers, adapters, hosts, states);
  }

  lemma EndsUsedUp(plan: Plan, maxWorkers: int, adapters: nat -> Adapter, hosts: nat -> Host, states: seq<Loop>,
                   maxIterations: nat)
    requires Busy(plan, maxWorkers, adapters, hosts)(states) && |states| == maxIterations + 1
    ensures RunEnded(plan, maxWorkers, adapters, hosts, states, maxIterations, false)
  {
    BusyMeans(plan, maxWorkers, adapters, hosts, states);
  }

  lemma BusyRunAgrees(plan: Plan, maxWorkers: int, adapters: nat -> Adapter, hosts: nat -> Host, states: seq<Loop>,
                      i: nat)
    requires Busy(plan, maxWorkers, adapters, hosts)(states) && i < |states|
    ensures AgreesIn(plan, maxWorkers, states)(0) ==> Agree(plan, maxWorkers, states[i], {})
  {
    BusyMeans(plan, maxWorkers, adapters, hosts, states);
    LoopRunAgrees(plan, maxWorkers, adapters, hosts, states, i);
  }

  lemma AgreesFromTheStart(plan: Plan, maxWorkers: int, states: seq<Loop>, next: Loop)
    requires states != []
    ensures AgreesIn(plan, maxWorkers, states + [next])(0) <==> AgreesIn(plan, maxWorkers, states)(0)
  {
    assert (states + [next])[0] == states[0];
  }

  // ---------------------------------------------------------------------------------------
  // When it raises
  // ---------------------------------------------------------------------------------------

  /** The ledger lets this dependent be blocked, or the cascade passes it by. */
  ghost predicate MayBeBlocked(host: Host, u: TaskId, row: TaskState) {
    || row.status in {FAILED, DONE}
    || (row.status in {PROPOSED, READY, RUNNING, VALIDATING} && host.schemaAccepts(u, BLOCKED)
        && row.prHeadSha != Some(""))
  }

  lemma BlockExactly(u: TaskId, row: TaskState, host: Host)
    ensures CanBlock(u, row, host) <==> MayBeBlocked(host, u, row)
  {
    PlainMoveExactly(u, row, BLOCKED, None, host.schemaAccepts(u, BLOCKED));
  }

  /** When one session, by itself, can be polled without raising. */
  lemma FinishExactly(plan: Plan, adapter: Adapter, host: Host, rows: map<TaskId, TaskState>, t: TaskId)
    requires t in rows && !plan.Graph().Reaches(t, t)
    ensures CanFinish(plan, adapter, host, rows, t) <==>
              var row := rows[t];
              match adapter.poll(t)
              case Pending => true
              case Completed =>
                && adapter.evidenceAgrees(t) && row.status == RUNNING && host.schemaAccepts(t, VALIDATING)
                && row.prHeadSha != Some("")
              case Uncertain =>
                && row.status in {PROPOSED, READY, RUNNING, VALIDATING} && host.schemaAccepts(t, BLOCKED)
                && row.prHeadSha != Some("")
              case Failed =>
                && row.status in {RUNNING, VALIDATING, REVIEW, READY_FOR_MERGE} && host.schemaAccepts(t, FAILED)
                && row.prHeadSha != Some("")
                && forall u | u in rows && plan.Graph().Reaches(u, t) :: MayBeBlocked(host, u, rows[u])
  {
    PlainMoveExactly(t, rows[t], VALIDATING, adapter.digest(t), host.schemaAccepts(t, VALIDATING));
    PlainMoveExactly(t, rows[t], BLOCKED, None, host.schemaAccepts(t, BLOCKED));
    PlainMoveExactly(t, rows[t], FAILED, None, host.schemaAccepts(t, FAILED));
    forall u | u in rows ensures CanBlock(u, rows[u], host) <==> MayBeBlocked(host, u, rows[u]) {
      BlockExactly(u, rows[u], host);
    }
    var after := rows[t := Moved(rows[t], FAILED)];
    assert forall u | u in rows && plan.Graph().Reaches(u, t) :: after[u] == rows[u];
  }

  /** When one listed task can be started, or passed over for want of its lease, without raising. */
  lemma StartExactly(plan: Plan, adapter: Adapter, host: Host, l: Loop, t: TaskId)
    requires t in plan.tasks
    ensures CanStart(plan, adapter, host, l, t) <==>
              && plan.tasks[t].worktree != "" && (adapter.validates ==> t in l.rows && adapter.contextValid(t))
              && (LeaseIsFree(host, l.db, t) ==>
                    && t in l.rows && l.rows[t].status == READY && host.schemaAccepts(t, RUNNING)
                    && l.rows[t].prHeadSha != Some("") && adapter.start(t) != None)
  {
    LeaseExactly(adapter, host, l.db, t);
    if t in l.rows { PlainMoveExactly(t, l.rows[t], RUNNING, None, host.schemaAccepts(t, RUNNING)); }
  }

  // ---------------------------------------------------------------------------------------
  // Starting up
  // ---------------------------------------------------------------------------------------

  /** What loading leaves of one task: a new row if it had none, a session if it needs one. */
  ghost predicate LoadedMeans(adapter: Adapter, before: Loop, after: Loop, initial: TaskState, t: TaskId) {
    && t in after.rows && after.rows[t] == (if t in before.rows then before.rows[t] else initial)
    && (if t in before.sessions then t in after.sessions && after.sessions[t] == before.sessions[t]
        else if after.rows[t].status == RUNNING then
          && t in after.sessions && t in before.db.leases && adapter.recover(t) == Some(after.sessions[t].id)
          && after.sessions[t].worker == before.db.leases[t].worker
          && after.sessions[t].epoch == before.db.leases[t].epoch
        else t !in after.sessions)
  }

  lemma {:induction false} LoadingMeans(plan: Plan, adapter: Adapter, host: Host, l: Loop, order: seq<TaskId>,
                                        initial: TaskState, u: TaskId)
    requires NoDuplicates(order) && forall t | t in order :: CanRecover(adapter, host, l, t, initial)
    requires forall t | t in order :: t in l.sched.statuses
    ensures var after := RecoveredAll(plan, adapter, host, l, order, initial);
            && after.db == l.db && after.sched.statuses.Keys == l.sched.statuses.Keys
            && (if u in order then LoadedMeans(adapter, l, after, initial, u) else Untried(l, after, u))
  {
    if order != [] {
      var init, t := order[..|order| - 1], order[|order| - 1];
      ListLast(order);
      assert order == init + [t];
      LoadingMeans(plan, adapter, host, l, init, initial, u);
      LoadingIsPointwise(plan, adapter, host, l, init, initial, t);
    }
  }

  lemma LoadingThePlanMeans(plan: Plan, adapter: Adapter, host: Host, l: Loop, initial: TaskState)
    requires Shaped(plan, l.sched)
    requires forall t | t in plan.tasks :: CanRecover(adapter, host, l, t, initial)
    ensures var after := RecoveredAll(plan, adapter, host, l, plan.order, initial);
            && after.db == l.db && forall t | t in plan.tasks :: LoadedMeans(adapter, l, after, initial, t)
  {
    PlanOrder(plan);
    forall t | t in plan.order ensures t in plan.tasks { assert t in Elements(plan.order); }
    forall t | t in plan.tasks
      ensures LoadedMeans(adapter, l, RecoveredAll(plan, adapter, host, l, plan.order, initial), initial, t)
    {
      assert t in Elements(plan.order);
      LoadingMeans(plan, adapter, host, l, plan.order, initial, t);
    }
    LoadingMeans(plan, adapter, host, l, plan.order, initial, "");
  }

  /** Loading a task goes through exactly when a task recorded as running, and not attached, can be recovered. */
  lemma RecoverExactly(adapter: Adapter, host: Host, l: Loop, t: TaskId, initial: TaskState)
    requires initial.status == PROPOSED
    ensures CanRecover(adapter, host, l, t, initial) <==>
              if t !in l.rows then host.schemaAccepts(t, PROPOSED)
              else l.rows[t].status == RUNNING && t !in l.sessions ==>
                && adapter.recovers && t in l.db.leases && (adapter.validates ==> adapter.contextValid(t))
                && adapter.recover(t) != None
  {
  }
}
