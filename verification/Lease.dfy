/**
 Runtime leases (orchestrator/core/lease.py): one row per leased task, and a second table
 that remembers the last epoch of every task so that epochs never repeat.
 */
module Lease {
  import opened Wrappers

  type TaskId = string

  datatype Row = Row(worker: string, epoch: nat, heartbeat: real, pid: int, acquiredAt: real, timeout: real)

  /** The two tables of the database. */
  datatype Db = Db(leases: map<TaskId, Row>, epochs: map<TaskId, nat>)

  const EMPTY := Db(map[], map[])

  datatype LeaseError = AlreadyLeased | HolderStillAlive | LeaseLost | LeaseExpired

  // ---------------------------------------------------------------------------------------
  // The transactions
  // ---------------------------------------------------------------------------------------

  predicate Stale(row: Row, now: real) { now - row.heartbeat > row.timeout }

  function NewEpoch(db: Db, task: TaskId): nat {
    if task in db.leases then db.leases[task].epoch + 1
    else if task in db.epochs then db.epochs[task] + 1
    else 1
  }

  /**
   A held lease is taken over only from a process found dead.  The source probes twice;
   `live0` and `live1` are the live processes at the two probes.
   */
  function Acquire(db: Db, task: TaskId, worker: string, pid: int, timeout: real, now: real,
                   live0: set<int>, live1: set<int>): Result<Db, LeaseError> {
    if task in db.leases && db.leases[task].pid in live0 && !Stale(db.leases[task], now) then Err(AlreadyLeased)
    else if task in db.leases && db.leases[task].pid in live1 then Err(HolderStillAlive)
    else
      var epoch := NewEpoch(db, task);
      Ok(Db(db.leases[task := Row(worker, epoch, now, pid, now, timeout)], db.epochs[task := epoch]))
  }

  predicate Holds(db: Db, task: TaskId, worker: string, epoch: nat) {
    task in db.leases && db.leases[task].epoch == epoch && db.leases[task].worker == worker
  }

  function Heartbeat(db: Db, task: TaskId, worker: string, epoch: nat, now: real): Result<Db, LeaseError> {
    if !Holds(db, task, worker, epoch) then Err(LeaseLost)
    else if Stale(db.leases[task], now) then Err(LeaseExpired)
    else Ok(db.(leases := db.leases[task := db.leases[task].(heartbeat := now)]))
  }

  /** A delete keyed by worker and epoch: a stranger's release is silently nothing. */
  function Release(db: Db, task: TaskId, worker: string, epoch: nat): Db {
    if Holds(db, task, worker, epoch) then db.(leases := db.leases - {task}) else db
  }

  class RuntimeLeaseManager {
    var leases: map<TaskId, Row>
    var epochs: map<TaskId, nat>

    ghost function View(): Db
      reads this
    {
      Db(leases, epochs)
    }

    constructor ()
      ensures View() == EMPTY
    {
      leases, epochs := map[], map[];
    }

    method AcquireLease(task: TaskId, worker: string, pid: int, timeout: real, now: real,
                        live0: set<int>, live1: set<int>) returns (r: Result<nat, LeaseError>)
      modifies this
      ensures var spec := Acquire(old(View()), task, worker, pid, timeout, now, live0, live1);
              && View() == (if spec.Ok? then spec.value else old(View()))
              && r == (if spec.Ok? then Ok(spec.value.epochs[task]) else Err(spec.error))
      ensures View() == After(old(View()), DoAcquire(task, worker, pid, timeout, now, live0, live1))
    {
      var newEpoch: nat;
      if task in leases {
        var row := leases[task];
        var stale := now - row.heartbeat > row.timeout;
        if row.pid in live0 && !stale { return Err(AlreadyLeased); }
        if row.pid in live1 { return Err(HolderStillAlive); }
        newEpoch := row.epoch + 1;
        leases := leases[task := row.(worker := worker, epoch := newEpoch, heartbeat := now, pid := pid,
                                      acquiredAt := now, timeout := timeout)];
      } else {
        newEpoch := if task in epochs then epochs[task] + 1 else 1;
        leases := leases[task := Row(worker, newEpoch, now, pid, now, timeout)];
      }
      epochs := epochs[task := newEpoch];
      return Ok(newEpoch);
    }

    method DoHeartbeat(task: TaskId, worker: string, epoch: nat, now: real) returns (e: Option<LeaseError>)
      modifies this
      ensures var spec := Heartbeat(old(View()), task, worker, epoch, now);
              && View() == (if spec.Ok? then spec.value else old(View()))
              && e == (if spec.Ok? then None else Some(spec.error))
      ensures View() == After(old(View()), DoBeat(task, worker, epoch, now))
    {
      if task !in leases || leases[task].epoch != epoch || leases[task].worker != worker { return Some(LeaseLost); }
      if now - leases[task].heartbeat > leases[task].timeout { return Some(LeaseExpired); }
      leases := leases[task := leases[task].(heartbeat := now)];
      return None;
    }

    method ReleaseLease(task: TaskId, worker: string, epoch: nat)
      modifies this
      ensures View() == Release(old(View()), task, worker, epoch)
      ensures View() == After(old(View()), DoRelease(task, worker, epoch))
    {
      if task in leases && leases[task].worker == worker && leases[task].epoch == epoch {
        leases := leases - {task};
      }
    }

    method GetActiveLease(task: TaskId) returns (r: Option<Row>)
      ensures r == (if task in leases then Some(leases[task]) else None)
    {
      r := if task in leases then Some(leases[task]) else None;
    }
  }

  // ---------------------------------------------------------------------------------------
  // All histories of all workers
  // ---------------------------------------------------------------------------------------

  datatype Step =
    | DoAcquire(task: TaskId, worker: string, pid: int, timeout: real, now: real, live0: set<int>, live1: set<int>)
    | DoBeat(task: TaskId, worker: string, epoch: nat, now: real)
    | DoRelease(task: TaskId, worker: string, epoch: nat)

  function Try(db: Db, step: Step): Result<Db, LeaseError> {
    match step
    case DoAcquire(task, worker, pid, timeout, now, live0, live1) =>
      Acquire(db, task, worker, pid, timeout, now, live0, live1)
    case DoBeat(task, worker, epoch, now) => Heartbeat(db, task, worker, epoch, now)
    case DoRelease(task, worker, epoch) => Ok(Release(db, task, worker, epoch))
  }

  function After(db: Db, step: Step): Db { var r := Try(db, step); if r.Ok? then r.value else db }

  function Exec(history: seq<Step>): Db {
    if history == [] then EMPTY else After(Exec(history[..|history| - 1]), history[|history| - 1])
  }

  predicate AcquiresAt(history: seq<Step>, task: TaskId, i: nat) {
    i < |history| && history[i].DoAcquire? && history[i].task == task && Try(Exec(history[..i]), history[i]).Ok?
  }

  predicate BeatsAt(history: seq<Step>, task: TaskId, i: nat) {
    i < |history| && history[i].DoBeat? && history[i].task == task && Try(Exec(history[..i]), history[i]).Ok?
  }

  /** The epoch an acquisition handed out. */
  function EpochOf(history: seq<Step>, task: TaskId, i: nat): nat
    requires AcquiresAt(history, task, i)
  {
    NewEpoch(Exec(history[..i]), task)
  }

  lemma ExecNext(history: seq<Step>, n: nat)
    requires n < |history|
    ensures Exec(history[..n + 1]) == After(Exec(history[..n]), history[n])
  {
    assert history[..n + 1][..n] == history[..n];
  }

  ghost predicate Fenced(db: Db) {
    forall t :: t in db.leases ==> t in db.epochs && db.leases[t].epoch == db.epochs[t]
  }

  lemma StepKeepsFence(db: Db, step: Step)
    requires Fenced(db)
    ensures Fenced(After(db, step))
    ensures forall t :: t in db.epochs ==> t in After(db, step).epochs && After(db, step).epochs[t] >= db.epochs[t]
  {
  }

  /** In every history a present row carries the stored epoch of its task. */
  lemma {:induction false} RowCarriesStoredEpoch(history: seq<Step>)
    ensures Fenced(Exec(history))
  {
    if history != [] {
      RowCarriesStoredEpoch(history[..|history| - 1]);
      StepKeepsFence(Exec(history[..|history| - 1]), history[|history| - 1]);
    }
  }

  lemma {:induction false} StoredEpochGrows(history: seq<Step>, m: nat, task: TaskId)
    requires m <= |history| && task in Exec(history[..m]).epochs
    ensures task in Exec(history).epochs && Exec(history).epochs[task] >= Exec(history[..m]).epochs[task]
    decreases |history| - m
  {
    if m == |history| {
      assert history[..m] == history;
    } else {
      ExecNext(history, m);
      RowCarriesStoredEpoch(history[..m]);
      StepKeepsFence(Exec(history[..m]), history[m]);
      StoredEpochGrows(history, m + 1, task);
    }
  }

  /** After an acquisition the task's stored epoch never drops below the one handed out. */
  lemma EpochKept(history: seq<Step>, task: TaskId, i: nat, m: nat)
    requires AcquiresAt(history, task, i) && i < m <= |history|
    ensures task in Exec(history[..m]).epochs && Exec(history[..m]).epochs[task] >= EpochOf(history, task, i)
  {
    ExecNext(history, i);
    assert history[..m][..i + 1] == history[..i + 1];
    StoredEpochGrows(history[..m], i + 1, task);
  }

  /** Fencing: successive acquisitions of a task return strictly larger epochs, releases or not. */
  lemma EpochsStrictlyIncrease(history: seq<Step>, task: TaskId, i: nat, j: nat)
    requires AcquiresAt(history, task, i) && AcquiresAt(history, task, j) && i < j
    ensures EpochOf(history, task, i) < EpochOf(history, task, j)
  {
    EpochKept(history, task, i, j);
    RowCarriesStoredEpoch(history[..j]);
  }

  /** Whoever holds a superseded epoch can neither prolong nor remove anybody's lease. */
  lemma StaleHolderIsPowerless(history: seq<Step>, task: TaskId, i: nat, j: nat, worker: string, now: real)
    requires AcquiresAt(history, task, i) && AcquiresAt(history, task, j) && i < j
    ensures var (db, epoch) := (Exec(history), EpochOf(history, task, i));
            && After(db, DoBeat(task, worker, epoch, now)) == db
            && After(db, DoRelease(task, worker, epoch)) == db
  {
    EpochsStrictlyIncrease(history, task, i, j);
    EpochKept(history, task, j, |history|);
    assert history[..|history|] == history;
    RowCarriesStoredEpoch(history);
  }

  predicate WritesAt(history: seq<Step>, task: TaskId, m: nat) {
    AcquiresAt(history, task, m) || BeatsAt(history, task, m)
  }

  /** Step m is the latest committed write of this task's heartbeat before n, and left `row`. */
  ghost predicate LastWrite(history: seq<Step>, task: TaskId, n: nat, m: nat, row: Row) {
    && m < n <= |history| && WritesAt(history, task, m)
    && task in Exec(history[..m + 1]).leases && Exec(history[..m + 1]).leases[task] == row
    && row.heartbeat == history[m].now
    && forall k: nat | m < k < n :: !WritesAt(history, task, k)
  }

  /** A step that does not write a lease's heartbeat leaves the row alone or deletes it. */
  lemma OtherStepsLeaveRow(history: seq<Step>, task: TaskId, n: nat)
    requires n < |history| && !WritesAt(history, task, n) && task in Exec(history[..n + 1]).leases
    ensures task in Exec(history[..n]).leases && Exec(history[..n]).leases[task] == Exec(history[..n + 1]).leases[task]
  {
    ExecNext(history, n);
  }

  lemma {:induction false} RowShowsLastWrite(history: seq<Step>, task: TaskId, n: nat)
    requires n <= |history| && task in Exec(history[..n]).leases
    ensures exists m: nat :: LastWrite(history, task, n, m, Exec(history[..n]).leases[task])
    decreases n
  {
    assert history[..0] == [];
    var row := Exec(history[..n]).leases[task];
    if WritesAt(history, task, n - 1) {
      ExecNext(history, n - 1);
      assert LastWrite(history, task, n, n - 1, row);
    } else {
      OtherStepsLeaveRow(history, task, n - 1);
      RowShowsLastWrite(history, task, n - 1);
      var m: nat :| LastWrite(history, task, n - 1, m, row);
      assert LastWrite(history, task, n, m, row);
    }
  }

  /**
   A committed heartbeat follows the previous write of the same lease (its acquisition or an
   earlier heartbeat, same worker and epoch) by at most the lease's timeout.
   */
  lemma HeartbeatsAreNeverFarApart(history: seq<Step>, task: TaskId, k: nat)
    requires BeatsAt(history, task, k)
    ensures exists m: nat, row: Row ::
              && LastWrite(history, task, k, m, row)
              && row.epoch == history[k].epoch && row.worker == history[k].worker
              && history[k].now - history[m].now <= row.timeout
  {
    RowShowsLastWrite(history, task, k);
    var row := Exec(history[..k]).leases[task];
    var m: nat :| LastWrite(history, task, k, m, row);
  }

  predicate ReleasesAt(history: seq<Step>, task: TaskId, k: nat) {
    && k < |history| && history[k].DoRelease? && history[k].task == task
    && Holds(Exec(history[..k]), task, history[k].worker, history[k].epoch)
  }

  /** A row goes exactly at an effective release: one by the holder, under the epoch in force. */
  lemma RowGoesExactly(history: seq<Step>, task: TaskId, k: nat)
    requires k < |history| && task in Exec(history[..k]).leases
    ensures task !in Exec(history[..k + 1]).leases <==> ReleasesAt(history, task, k)
  {
    ExecNext(history, k);
  }

  /** Between an acquisition and the next acquisition or effective release, the holder stands. */
  lemma {:induction false} HolderStands(history: seq<Step>, task: TaskId, i: nat, j: nat)
    requires AcquiresAt(history, task, i) && i < j <= |history|
    requires forall k: nat | i < k < j :: !AcquiresAt(history, task, k) && !ReleasesAt(history, task, k)
    ensures task in Exec(history[..j]).leases
    ensures Exec(history[..j]).leases[task].pid == history[i].pid
    ensures Exec(history[..j]).leases[task].epoch == EpochOf(history, task, i)
    decreases j
  {
    ExecNext(history, j - 1);
    if j > i + 1 {
      HolderStands(history, task, i, j - 1);
      assert !AcquiresAt(history, task, j - 1) && !ReleasesAt(history, task, j - 1);
    }
  }

  /** Whoever acquires a lease its holder has not released has found that holder's process dead. */
  lemma TakeoverNeedsDeath(history: seq<Step>, task: TaskId, i: nat, j: nat)
    requires AcquiresAt(history, task, i) && AcquiresAt(history, task, j) && i < j
    requires forall k: nat | i < k < j :: !AcquiresAt(history, task, k) && !ReleasesAt(history, task, k)
    ensures history[i].pid !in history[j].live1
  {
    HolderStands(history, task, i, j);
  }

  /**
   The clock is read before the transaction starts.  A heartbeat that read it early and
   committed late moves the lease's time back, and the worker's next beat in good time is
   refused.  It happens exactly when the reading is older than the row (and the timeout is
   one under which a beat can succeed at all).
   */
  lemma LateHeartbeatCanLoseTheLease(db: Db, task: TaskId, worker: string, epoch: nat, late: real)
    requires Heartbeat(db, task, worker, epoch, late).Ok?
    ensures late < db.leases[task].heartbeat && db.leases[task].timeout >= 0.0 <==>
            exists next: real ::
              && next >= db.leases[task].heartbeat
              && Heartbeat(db, task, worker, epoch, next).Ok?
              && Heartbeat(Heartbeat(db, task, worker, epoch, late).value, task, worker, epoch, next).Err?
  {
    var row := db.leases[task];
    if late < row.heartbeat && row.timeout >= 0.0 {
      var next := row.heartbeat + row.timeout;
      assert Heartbeat(db, task, worker, epoch, next).Ok?;
      assert Heartbeat(Heartbeat(db, task, worker, epoch, late).value, task, worker, epoch, next).Err?;
    }
  }

  // ---------------------------------------------------------------------------------------
  // The three operations, field by field
  // ---------------------------------------------------------------------------------------

  /** The rows of the other tasks are as they were. */
  ghost predicate OthersStay(before: Db, after: Db, task: TaskId) {
    && before.leases - {task} == after.leases - {task} && before.epochs - {task} == after.epochs - {task}
  }

  /**
   Exactly when a lease can be had, and the row it comes with: a holder is displaced when it
   was found dead twice, or was silent for longer than its timeout and then found dead.
   */
  lemma AcquireExactly(db: Db, task: TaskId, worker: string, pid: int, timeout: real, now: real,
                       live0: set<int>, live1: set<int>)
    ensures var r := Acquire(db, task, worker, pid, timeout, now, live0, live1);
            && (r.Ok? <==> task in db.leases ==>
                  && db.leases[task].pid !in live1
                  && (db.leases[task].pid in live0 ==> now > db.leases[task].heartbeat + db.leases[task].timeout))
            && (r.Ok? ==>
                  && task in r.value.leases && task in r.value.epochs && OthersStay(db, r.value, task)
                  && r.value.leases[task].worker == worker && r.value.leases[task].pid == pid
                  && r.value.leases[task].timeout == timeout
                  && r.value.leases[task].heartbeat == now && r.value.leases[task].acquiredAt == now
                  && r.value.leases[task].epoch == r.value.epochs[task]
                  && r.value.epochs[task] == 1 + (if task in db.leases then db.leases[task].epoch
                                                  else if task in db.epochs then db.epochs[task] else 0))
            && (r.Err? && r.error == AlreadyLeased <==>
                  && task in db.leases && db.leases[task].pid in live0
                  && now <= db.leases[task].heartbeat + db.leases[task].timeout)
  {
    var r := Acquire(db, task, worker, pid, timeout, now, live0, live1);
    if r.Ok? {
      assert r.value.leases - {task} == db.leases - {task};
      assert r.value.epochs - {task} == db.epochs - {task};
    }
  }

  /** A lease whose holder is dead can be had at once, however fresh it is. */
  lemma DeadHolderIsReplaced(db: Db, task: TaskId, worker: string, pid: int, timeout: real, now: real,
                             live0: set<int>, live1: set<int>)
    requires task in db.leases ==> db.leases[task].pid !in live0 + live1
    ensures Acquire(db, task, worker, pid, timeout, now, live0, live1).Ok?
  {
    AcquireExactly(db, task, worker, pid, timeout, now, live0, live1);
  }

  /** Exactly when a heartbeat is accepted, and that it moves one time and nothing else. */
  lemma HeartbeatExactly(db: Db, task: TaskId, worker: string, epoch: nat, now: real)
    ensures var r := Heartbeat(db, task, worker, epoch, now);
            && (r.Ok? <==> && task in db.leases && db.leases[task].worker == worker && db.leases[task].epoch == epoch
                           && now <= db.leases[task].heartbeat + db.leases[task].timeout)
            && (r.Ok? ==>
                  && task in r.value.leases && OthersStay(db, r.value, task) && r.value.epochs == db.epochs
                  && r.value.leases[task].heartbeat == now
                  && r.value.leases[task].worker == worker && r.value.leases[task].epoch == epoch
                  && r.value.leases[task].timeout == db.leases[task].timeout
                  && r.value.leases[task].pid == db.leases[task].pid
                  && r.value.leases[task].acquiredAt == db.leases[task].acquiredAt)
            && (r.Err? && r.error == LeaseLost <==>
                  !(task in db.leases && db.leases[task].worker == worker && db.leases[task].epoch == epoch))
  {
    var r := Heartbeat(db, task, worker, epoch, now);
    if r.Ok? { assert r.value.leases - {task} == db.leases - {task}; }
  }

  /** A release removes the row of this worker and epoch, keeps every epoch, and does nothing else. */
  lemma ReleaseExactly(db: Db, task: TaskId, worker: string, epoch: nat)
    ensures var after := Release(db, task, worker, epoch);
            && after.epochs == db.epochs && OthersStay(db, after, task)
            && (task in after.leases <==>
                  task in db.leases && !(db.leases[task].worker == worker && db.leases[task].epoch == epoch))
            && (task in after.leases ==> after.leases[task] == db.leases[task])
  {
    var after := Release(db, task, worker, epoch);
    assert after.leases - {task} == db.leases - {task};
  }
}
