/**
 The bounded mock broker (orchestrator/bounded_credential_mock.py): one-use handles to a
 credential store, with cancellation and deadlines.

 `execute` has two critical sections with an unlocked middle.  Each section, each step of
 the middle, and every tick of the clock is one step here, and the steps of any number of
 callers interleave freely.
 */
module Broker {
  import opened Wrappers

  type Handle = string

  const TRIAL := "runpod.trial.once"
  const MONITOR := "mattermost.monitor.once"
  const OPERATIONS := {TRIAL, MONITOR}

  /** The bytes of "synthetic-fixture". */
  const FIXTURE: seq<bv8> := [115, 121, 110, 116, 104, 101, 116, 105, 99, 45, 102, 105, 120, 116, 117, 114, 101]

  datatype TrialApproval = TrialApproval(
    approvalId: string, task: string, operation: string, targetRef: string, budgetCap: real, deadline: real,
    planDigest: string)

  /** The context object; its cancel flag is the handle's membership in `cancelled`. */
  datatype Context = Context(approval: TrialApproval, deadline: real, grantedAt: real)

  datatype Entry = Entry(context: Context, entryDeadline: real)

  datatype Status = OK | FAILED | CANCELLED | EXPIRED | DENIED

  datatype Phase = Entered | Holding | Judged(good: bool) | Ended(status: Status)

  /** One admitted `execute` call and the buffer it reads the credential into. */
  datatype Execution = Execution(handle: Handle, context: Context, phase: Phase, buffer: seq<bv8>)

  datatype Event = Event(action: string, status: Status)

  datatype System = System(
    clock: real, stores: map<string, seq<bv8>>, pending: map<Handle, Entry>, active: map<Handle, Context>,
    issued: set<string>, cancelled: set<Handle>, grants: map<Handle, Context>,
    executions: seq<Execution>, readLog: seq<Handle>, audit: seq<Event>)

  function Start(clock: real, stores: map<string, seq<bv8>>): System {
    System(clock, stores, map[], map[], {}, {}, map[], [], [], [])
  }

  datatype Step =
    | Tick(now: real)
    | Grant(approval: TrialApproval, ttl: int, now: real, handle: Handle)
    | Enter(handle: Handle, operation: string, task: string, later: real)
    | Read(e: nat, fails: bool)
    | Adapt(e: nat)
    | Finish(e: nat)
    | Cancel(handle: Handle)
    | Delete(operation: string, fails: bool)

  // ---------------------------------------------------------------------------------------
  // One step
  // ---------------------------------------------------------------------------------------

  predicate Grantable(a: TrialApproval, ttl: int, now: real) {
    && a.operation in OPERATIONS
    && a.approvalId != "" && a.task != "" && a.targetRef != "" && a.planDigest != ""
    && 0 < ttl <= 60 && a.budgetCap >= 0.0 && a.deadline > now
  }

  function Min(a: real, b: real): real { if a <= b then a else b }

  /** A monitor operation ends within five minutes of its grant; the grant itself within its ttl. */
  function ContextFor(a: TrialApproval, now: real): Context {
    Context(a, if a.operation == MONITOR then Min(a.deadline, now + 300.0) else a.deadline, now)
  }

  predicate Stopped(s: System, h: Handle, c: Context) { h in s.cancelled || s.clock >= c.deadline }

  /** Whether a request gets in; the entry deadline is compared with a second reading of the clock. */
  predicate Admits(s: System, h: Handle, operation: string, task: string, later: real) {
    && operation in OPERATIONS && h in s.pending
    && s.pending[h].context.approval.task == task && s.pending[h].context.approval.operation == operation
    && !Stopped(s, h, s.pending[h].context) && later < s.pending[h].entryDeadline
  }

  /** The verdict of the final critical section. */
  function Verdict(s: System, x: Execution): Status {
    if x.handle in s.cancelled then CANCELLED
    else if s.clock >= x.context.deadline then EXPIRED
    else if x.phase == Judged(true) then OK else FAILED
  }

  function Zeros(n: nat): seq<bv8> { seq(n, _ => 0) }

  function Audited(status: Status): Event { Event("execute", if status.OK? || status.FAILED? then status else DENIED) }

  function PendingOf(s: System, operation: string): set<Handle> {
    set h | h in s.pending && s.pending[h].context.approval.operation == operation
  }

  function ActiveOf(s: System, operation: string): set<Handle> {
    set h | h in s.active && s.active[h].approval.operation == operation
  }

  function Next(s: System, step: Step): System {
    match step
    case Tick(now) => if now >= s.clock then s.(clock := now) else s
    case Grant(a, ttl, now, h) =>
      if now > s.clock || !Grantable(a, ttl, now) || a.approvalId in s.issued || h in s.grants then s
      else
        var c := ContextFor(a, now);
        s.(pending := s.pending[h := Entry(c, Min(now + ttl as real, c.deadline))],
           issued := s.issued + {a.approvalId}, grants := s.grants[h := c])
    case Enter(h, operation, task, later) =>
      if later < s.clock || !Admits(s, h, operation, task, later) then s
      else s.(clock := later, pending := s.pending - {h}, active := s.active[h := s.pending[h].context],
              executions := s.executions + [Execution(h, s.pending[h].context, Entered, [])])
    case Read(e, fails) =>
      if e >= |s.executions| || !s.executions[e].phase.Entered? then s
      else
        var x := s.executions[e];
        var op := x.context.approval.operation;
        if fails || op !in s.stores then
          s.(executions := s.executions[e := x.(phase := Judged(false))], readLog := s.readLog + [x.handle])
        else
          s.(executions := s.executions[e := x.(phase := Holding, buffer := s.stores[op])],
             readLog := s.readLog + [x.handle])
    case Adapt(e) =>
      if e >= |s.executions| || !s.executions[e].phase.Holding? then s
      else
        var x := s.executions[e];
        var good := !Stopped(s, x.handle, x.context) && x.buffer == FIXTURE;
        s.(executions := s.executions[e := x.(phase := Judged(good))])
    case Finish(e) =>
      if e >= |s.executions| || !s.executions[e].phase.Judged? then s
      else
        var x := s.executions[e];
        s.(executions := s.executions[e := x.(phase := Ended(Verdict(s, x)), buffer := Zeros(|x.buffer|))],
           active := s.active - {x.handle}, audit := s.audit + [Audited(Verdict(s, x))])
    case Cancel(h) =>
      s.(cancelled := if h in s.pending || h in s.active then s.cancelled + {h} else s.cancelled,
         pending := s.pending - {h}, audit := s.audit + [Event("revoke", OK)])
    case Delete(operation, fails) =>
      if operation !in OPERATIONS then s
      else
        s.(cancelled := s.cancelled + PendingOf(s, operation) + ActiveOf(s, operation),
           pending := s.pending - PendingOf(s, operation),
           stores := if fails then s.stores else s.stores - {operation},
           audit := s.audit + [Event("delete", if fails then FAILED else OK)])
  }

  function Exec(start: System, steps: seq<Step>): System {
    if steps == [] then start else Next(Exec(start, steps[..|steps| - 1]), steps[|steps| - 1])
  }

  // ---------------------------------------------------------------------------------------
  // What every interleaving keeps
  // ---------------------------------------------------------------------------------------

  /** Every handle is of a grant, and pending and active handles are apart. */
  ghost predicate Handles(s: System) {
    && (forall h | h in s.pending :: h in s.grants && s.pending[h].context == s.grants[h] && h !in s.active)
    && (forall h | h in s.active :: h in s.grants && s.active[h] == s.grants[h])
    && (forall h | h in s.cancelled :: h in s.grants && h !in s.pending)
  }

  /** Each approval has at most one grant. */
  ghost predicate Grants(s: System) {
    && (forall h | h in s.grants :: s.grants[h].approval.approvalId in s.issued)
    && (forall g, h | g in s.grants && h in s.grants
                      && s.grants[g].approval.approvalId == s.grants[h].approval.approvalId :: g == h)
  }

  /** Deadlines as granted. */
  ghost predicate Deadlines(s: System) {
    && (forall h | h in s.grants ::
          && s.grants[h].grantedAt <= s.clock && s.grants[h].deadline <= s.grants[h].approval.deadline
          && (s.grants[h].approval.operation == MONITOR ==> s.grants[h].deadline <= s.grants[h].grantedAt + 300.0))
    && (forall h | h in s.pending ::
          s.pending[h].entryDeadline <= s.pending[h].context.grantedAt + 60.0
          && s.pending[h].entryDeadline <= s.pending[h].context.deadline)
  }

  predicate ExecutionFits(s: System, x: Execution) {
    && x.handle in s.grants && x.context == s.grants[x.handle] && x.handle !in s.pending
    && (x.phase.Ended? <==> x.handle !in s.active)
    && (if x.phase.Entered? then x.buffer == [] && x.handle !in s.readLog else x.handle in s.readLog)
    && (x.phase == Judged(true) ==> x.buffer == FIXTURE)
    && (x.phase.Ended? ==> x.buffer == Zeros(|x.buffer|))
  }

  ghost predicate Executions(s: System) {
    && (forall e | 0 <= e < |s.executions| :: ExecutionFits(s, s.executions[e]))
    && (forall d, e | 0 <= d < e < |s.executions| :: s.executions[d].handle != s.executions[e].handle)
    && (forall h | h in s.readLog :: h in s.grants && h !in s.pending)
    && (forall i, j | 0 <= i < j < |s.readLog| :: s.readLog[i] != s.readLog[j])
  }

  lemma GrantKeepsHandles(s: System, step: Step)
    requires Handles(s) && step.Grant?
    ensures Handles(Next(s, step))
  {
  }

  /** Handles only move from pending to active or out, and become cancelled on the way out. */
  ghost predicate Moved(s: System, next: System) {
    && next.grants == s.grants
    && (forall h | h in next.pending :: h in s.pending && next.pending[h] == s.pending[h] && h !in next.cancelled)
    && (forall h | h in next.active :: h in next.grants && next.active[h] == next.grants[h] && h !in next.pending)
    && (forall h | h in next.cancelled :: h in s.cancelled || h in s.pending || h in s.active)
  }

  lemma DeleteMoves(s: System, step: Step)
    requires Handles(s) && step.Delete?
    ensures Moved(s, Next(s, step))
  {
  }

  lemma EnterMoves(s: System, step: Step)
    requires Handles(s) && step.Enter?
    ensures Moved(s, Next(s, step))
  {
  }

  lemma CancelMoves(s: System, step: Step)
    requires Handles(s) && step.Cancel?
    ensures Moved(s, Next(s, step))
  {
  }

  lemma OthersShrink(s: System, step: Step)
    requires step.Tick? || step.Read? || step.Adapt? || step.Finish?
    ensures var next := Next(s, step);
            && next.pending == s.pending && next.cancelled == s.cancelled && next.grants == s.grants
            && forall h | h in next.active :: h in s.active && next.active[h] == s.active[h]
  {
  }

  lemma OthersMove(s: System, step: Step)
    requires Handles(s) && (step.Tick? || step.Read? || step.Adapt? || step.Finish?)
    ensures Moved(s, Next(s, step))
  {
    OthersShrink(s, step);
  }

  lemma MovedKeepsHandles(s: System, next: System)
    requires Handles(s) && Moved(s, next)
    ensures Handles(next)
  {
  }

  lemma HandlesKept(s: System, step: Step)
    requires Handles(s)
    ensures Handles(Next(s, step))
  {
    if step.Grant? {
      GrantKeepsHandles(s, step);
    } else {
      match step {
        case Delete(_, _) => DeleteMoves(s, step);
        case Enter(_, _, _, _) => EnterMoves(s, step);
        case Cancel(_) => CancelMoves(s, step);
        case _ => OthersMove(s, step);
      }
      MovedKeepsHandles(s, Next(s, step));
    }
  }

  lemma GrantsKept(s: System, step: Step)
    requires Grants(s)
    ensures Grants(Next(s, step))
  {
  }

  lemma DeadlinesKept(s: System, step: Step)
    requires Handles(s) && Deadlines(s)
    ensures Deadlines(Next(s, step))
  {
  }

  lemma EnterKeepsExecutions(s: System, step: Step)
    requires Handles(s) && Executions(s) && step.Enter?
    ensures Executions(Next(s, step))
  {
  }

  /** One execution moves on; nothing else about the other handles changes. */
  lemma ReplaceKeepsExecutions(s: System, next: System, e: nat, x: Execution)
    requires Executions(s) && e < |s.executions| && x.handle == s.executions[e].handle
    requires next.executions == s.executions[e := x] && ExecutionFits(next, x)
    requires next.grants == s.grants && next.pending == s.pending
    requires forall h | h != x.handle :: h in next.active <==> h in s.active
    requires next.readLog == s.readLog || (next.readLog == s.readLog + [x.handle] && x.handle !in s.readLog)
    ensures Executions(next)
  {
    forall d | 0 <= d < |next.executions| ensures ExecutionFits(next, next.executions[d]) {
      if d != e { assert ExecutionFits(s, s.executions[d]) && s.executions[d].handle != x.handle; }
    }
  }

  lemma ReadKeepsExecutions(s: System, step: Step)
    requires Executions(s) && step.Read?
    ensures Executions(Next(s, step))
  {
    var next := Next(s, step);
    if next != s {
      assert ExecutionFits(s, s.executions[step.e]);
      ReplaceKeepsExecutions(s, next, step.e, next.executions[step.e]);
    }
  }

  lemma AdaptKeepsExecutions(s: System, step: Step)
    requires Executions(s) && step.Adapt?
    ensures Executions(Next(s, step))
  {
    var next := Next(s, step);
    if next != s {
      assert ExecutionFits(s, s.executions[step.e]);
      ReplaceKeepsExecutions(s, next, step.e, next.executions[step.e]);
    }
  }

  lemma FinishKeepsExecutions(s: System, step: Step)
    requires Executions(s) && step.Finish?
    ensures Executions(Next(s, step))
  {
    var next := Next(s, step);
    if next != s {
      assert ExecutionFits(s, s.executions[step.e]);
      ReplaceKeepsExecutions(s, next, step.e, next.executions[step.e]);
    }
  }

  lemma OthersKeepExecutions(s: System, step: Step)
    requires Handles(s) && Executions(s) && (step.Tick? || step.Grant? || step.Cancel? || step.Delete?)
    ensures Executions(Next(s, step))
  {
  }

  lemma ExecutionsKept(s: System, step: Step)
    requires Handles(s) && Executions(s)
    ensures Executions(Next(s, step))
  {
    match step
    case Enter(_, _, _, _) => EnterKeepsExecutions(s, step);
    case Read(_, _) => ReadKeepsExecutions(s, step);
    case Adapt(_) => AdaptKeepsExecutions(s, step);
    case Finish(_) => FinishKeepsExecutions(s, step);
    case _ => OthersKeepExecutions(s, step);
  }

  ghost predicate Sound(s: System) { Handles(s) && Grants(s) && Deadlines(s) && Executions(s) }

  lemma StepKeepsSound(s: System, step: Step)
    requires Sound(s)
    ensures Sound(Next(s, step))
  {
    HandlesKept(s, step);
    GrantsKept(s, step);
    DeadlinesKept(s, step);
    ExecutionsKept(s, step);
  }

  lemma StartIsSound(clock: real, stores: map<string, seq<bv8>>)
    ensures Sound(Start(clock, stores))
  {
  }

  lemma {:induction false} AlwaysSound(clock: real, stores: map<string, seq<bv8>>, steps: seq<Step>)
    ensures Sound(Exec(Start(clock, stores), steps))
  {
    if steps == [] {
      StartIsSound(clock, stores);
    } else {
      AlwaysSound(clock, stores, steps[..|steps| - 1]);
      StepKeepsSound(Exec(Start(clock, stores), steps[..|steps| - 1]), steps[|steps| - 1]);
    }
  }

  // ---------------------------------------------------------------------------------------
  // One approval, one handle, one read
  // ---------------------------------------------------------------------------------------

  /** Two reads of a store for the same approval are the same read: one handle each, used once. */
  lemma OneReadPerApproval(clock: real, stores: map<string, seq<bv8>>, steps: seq<Step>, i: nat, j: nat)
    requires var s := Exec(Start(clock, stores), steps);
             && i < |s.readLog| && j < |s.readLog| && s.readLog[i] in s.grants && s.readLog[j] in s.grants
             && s.grants[s.readLog[i]].approval.approvalId == s.grants[s.readLog[j]].approval.approvalId
    ensures i == j
  {
    AlwaysSound(clock, stores, steps);
    var s := Exec(Start(clock, stores), steps);
    assert s.readLog[i] == s.readLog[j];
  }

  /** A read is always by an admitted call, whose handle nobody can use again. */
  lemma HandlesAreUsedUp(clock: real, stores: map<string, seq<bv8>>, steps: seq<Step>, i: nat)
    requires i < |Exec(Start(clock, stores), steps).readLog|
    ensures var s := Exec(Start(clock, stores), steps);
            s.readLog[i] in s.grants && s.readLog[i] !in s.pending && s.pending.Keys !! s.active.Keys
  {
    AlwaysSound(clock, stores, steps);
    var s := Exec(Start(clock, stores), steps);
    assert s.readLog[i] in s.readLog;
  }

  // ---------------------------------------------------------------------------------------
  // Cancellation
  // ---------------------------------------------------------------------------------------

  /** A call that means this handle: its cancel, or a delete of its operation. */
  predicate Means(s: System, step: Step, h: Handle) {
    && h in s.grants
    && (step == Cancel(h)
        || (step.Delete? && step.operation in OPERATIONS && step.operation == s.grants[h].approval.operation))
  }

  predicate CancelsAt(start: System, steps: seq<Step>, h: Handle, k: nat) {
    k < |steps| && Means(Exec(start, steps[..k]), steps[k], h)
  }

  predicate Open(s: System, h: Handle) { h in s.pending || h in s.active }

  lemma CancelStep(s: System, step: Step, h: Handle)
    requires Handles(s)
    ensures h in Next(s, step).cancelled <==> h in s.cancelled || (Means(s, step, h) && Open(s, h))
  {
  }

  lemma ClosedStays(s: System, step: Step, h: Handle)
    requires Handles(s) && h in s.grants && !Open(s, h)
    ensures h in Next(s, step).grants && !Open(Next(s, step), h)
  {
  }

  lemma GrantStays(s: System, step: Step, h: Handle)
    requires h in s.grants
    ensures h in Next(s, step).grants && Next(s, step).grants[h] == s.grants[h]
  {
  }

  /** Some call so far meant this handle, after its grant. */
  ghost predicate Meant(start: System, steps: seq<Step>, h: Handle) {
    exists k: nat :: CancelsAt(start, steps, h, k)
  }

  lemma MeantGrows(start: System, steps: seq<Step>, h: Handle)
    requires steps != []
    ensures var n := |steps| - 1;
            Meant(start, steps, h) <==> Meant(start, steps[..n], h) || Means(Exec(start, steps[..n]), steps[n], h)
  {
    var n := |steps| - 1;
    forall k: nat | k < n ensures CancelsAt(start, steps[..n], h, k) <==> CancelsAt(start, steps, h, k) {
      assert steps[..n][..k] == steps[..k];
    }
    assert CancelsAt(start, steps, h, n) <==> Means(Exec(start, steps[..n]), steps[n], h);
  }

  lemma NothingMeantBefore(start: System, steps: seq<Step>, h: Handle)
    requires h !in Exec(start, steps).grants
    ensures !Meant(start, steps, h)
  {
    assert steps[..|steps|] == steps;
    forall k: nat ensures !CancelsAt(start, steps, h, k) {
      if k <= |steps| { NotGrantedBefore(start, steps, h, k, |steps|); }
    }
  }

  /** A handle still open is cancelled exactly when, since its grant, some call meant it. */
  lemma {:induction false} CancelledExactly(clock: real, stores: map<string, seq<bv8>>, steps: seq<Step>, h: Handle)
    requires Open(Exec(Start(clock, stores), steps), h)
    ensures h in Exec(Start(clock, stores), steps).cancelled <==> Meant(Start(clock, stores), steps, h)
    decreases |steps|
  {
    var start := Start(clock, stores);
    if steps != [] {
      var n := |steps| - 1;
      AlwaysSound(clock, stores, steps[..n]);
      CancelStep(Exec(start, steps[..n]), steps[n], h);
      MeantGrows(start, steps, h);
      if h in Exec(start, steps[..n]).grants {
        if !Open(Exec(start, steps[..n]), h) { ClosedStays(Exec(start, steps[..n]), steps[n], h); }
        CancelledExactly(clock, stores, steps[..n], h);
      } else {
        NothingMeantBefore(start, steps[..n], h);
      }
    }
  }

  lemma {:induction false} NotGrantedBefore(start: System, steps: seq<Step>, h: Handle, k: nat, n: nat)
    requires k <= n <= |steps| && h !in Exec(start, steps[..n]).grants
    ensures h !in Exec(start, steps[..k]).grants
    decreases n
  {
    if k < n {
      assert steps[..n][..n - 1] == steps[..n - 1];
      if h in Exec(start, steps[..n - 1]).grants {
        GrantStays(Exec(start, steps[..n - 1]), steps[n - 1], h);
      }
      NotGrantedBefore(start, steps, h, k, n - 1);
    }
  }

  predicate FinishesAt(start: System, steps: seq<Step>, e: nat, n: nat) {
    && n < |steps| && steps[n] == Finish(e)
    && e < |Exec(start, steps[..n]).executions| && Exec(start, steps[..n]).executions[e].phase.Judged?
  }

  /** The status a call comes back with. */
  function StatusAt(start: System, steps: seq<Step>, e: nat, n: nat): Status
    requires FinishesAt(start, steps, e, n)
  {
    Verdict(Exec(start, steps[..n]), Exec(start, steps[..n]).executions[e])
  }

  /**
   Cancelled, if and only if a cancel of the handle or a delete of its operation completed
   between its grant and the final critical section, wherever the call stood at that moment.
   */
  lemma CancellationIsNeverMissed(clock: real, stores: map<string, seq<bv8>>, steps: seq<Step>, e: nat, n: nat)
    requires FinishesAt(Start(clock, stores), steps, e, n)
    ensures StatusAt(Start(clock, stores), steps, e, n).CANCELLED? <==>
            var h := Exec(Start(clock, stores), steps[..n]).executions[e].handle;
            exists k: nat :: k < n && CancelsAt(Start(clock, stores), steps, h, k)
  {
    var start := Start(clock, stores);
    var s := Exec(start, steps[..n]);
    AlwaysSound(clock, stores, steps[..n]);
    assert ExecutionFits(s, s.executions[e]);
    var h := s.executions[e].handle;
    CancelledExactly(clock, stores, steps[..n], h);
    forall k: nat | k < n ensures CancelsAt(start, steps[..n], h, k) <==> CancelsAt(start, steps, h, k) {
      assert steps[..n][..k] == steps[..k];
    }
  }

  /** "ok" comes in time, for the right bytes, and not after any cancellation. */
  lemma OkIsTimely(clock: real, stores: map<string, seq<bv8>>, steps: seq<Step>, e: nat, n: nat)
    requires FinishesAt(Start(clock, stores), steps, e, n) && StatusAt(Start(clock, stores), steps, e, n).OK?
    ensures var s := Exec(Start(clock, stores), steps[..n]);
            var x := s.executions[e];
            && s.clock < x.context.deadline <= x.context.approval.deadline
            && (x.context.approval.operation == MONITOR ==> s.clock < x.context.grantedAt + 300.0)
            && x.buffer == FIXTURE && x.handle in s.readLog
            && forall k: nat | k < n :: !CancelsAt(Start(clock, stores), steps, x.handle, k)
  {
    AlwaysSound(clock, stores, steps[..n]);
    var s := Exec(Start(clock, stores), steps[..n]);
    assert ExecutionFits(s, s.executions[e]);
    CancellationIsNeverMissed(clock, stores, steps, e, n);
  }

  /** Entry needs the trusted task, the granted operation, and a grant at most a minute old. */
  lemma EntryIsTimely(clock: real, stores: map<string, seq<bv8>>, steps: seq<Step>, h: Handle, operation: string,
                      task: string, later: real)
    requires var s := Exec(Start(clock, stores), steps); later >= s.clock && Admits(s, h, operation, task, later)
    ensures var s := Exec(Start(clock, stores), steps);
            && h in s.grants && s.grants[h].approval.task == task && s.grants[h].approval.operation == operation
            && later < s.grants[h].grantedAt + 60.0 && later < s.grants[h].approval.deadline
            && forall k: nat :: !CancelsAt(Start(clock, stores), steps, h, k)
  {
    AlwaysSound(clock, stores, steps);
    CancelledExactly(clock, stores, steps, h);
  }

  /** After a call has come back its buffer holds nothing but zeros, whatever the outcome. */
  lemma BuffersAreWiped(clock: real, stores: map<string, seq<bv8>>, steps: seq<Step>, e: nat)
    requires e < |Exec(Start(clock, stores), steps).executions|
    requires Exec(Start(clock, stores), steps).executions[e].phase.Ended?
    ensures forall i | 0 <= i < |Exec(Start(clock, stores), steps).executions[e].buffer| ::
              Exec(Start(clock, stores), steps).executions[e].buffer[i] == 0
  {
    AlwaysSound(clock, stores, steps);
    var s := Exec(Start(clock, stores), steps);
    assert ExecutionFits(s, s.executions[e]);
  }

  // ---------------------------------------------------------------------------------------
  // Each step by the fields of the state
  // ---------------------------------------------------------------------------------------

  lemma FixtureSpells()
    ensures |FIXTURE| == |"synthetic-fixture"|
    ensures forall i | 0 <= i < |FIXTURE| :: FIXTURE[i] as int == "synthetic-fixture"[i] as int
  {
  }

  /** A valid approval: a known operation, nothing empty, one minute at most, no negative budget, not yet over. */
  ghost predicate ValidGrant(a: TrialApproval, ttl: int, now: real) {
    && (a.operation == "runpod.trial.once" || a.operation == "mattermost.monitor.once")
    && a.approvalId != "" && a.task != "" && a.targetRef != "" && a.planDigest != ""
    && ttl > 0 && ttl < 61 && !(a.budgetCap < 0.0) && now < a.deadline
  }

  /** The handle a grant hands out: when it may be entered, and when what it enters must end. */
  ghost predicate EntryFor(entry: Entry, a: TrialApproval, ttl: int, now: real) {
    var context := entry.context;
    && context.approval == a && context.grantedAt == now
    && context.deadline <= a.deadline
    && (a.operation == "mattermost.monitor.once" ==> context.deadline <= now + 300.0)
    && (context.deadline == a.deadline
        || (a.operation == "mattermost.monitor.once" && context.deadline == now + 300.0))
    && entry.entryDeadline <= now + ttl as real && entry.entryDeadline <= context.deadline
    && (entry.entryDeadline == now + ttl as real || entry.entryDeadline == context.deadline)
  }

  lemma GrantExactly(s: System, a: TrialApproval, ttl: int, now: real, h: Handle)
    requires now <= s.clock && h !in s.grants
    ensures var next := Next(s, Grant(a, ttl, now, h));
            if ValidGrant(a, ttl, now) && a.approvalId !in s.issued then
              && h in next.pending && EntryFor(next.pending[h], a, ttl, now)
              && next.pending - {h} == s.pending - {h} && next.issued == s.issued + {a.approvalId}
              && h in next.grants && next.grants[h] == next.pending[h].context
              && next.stores == s.stores && next.active == s.active && next.cancelled == s.cancelled
            else next == s
  {
  }

  /** Who is let in: the named handle, pending and unstopped, for its own task and operation, in time. */
  ghost predicate MayEnter(s: System, h: Handle, operation: string, task: string, later: real) {
    && (operation == "runpod.trial.once" || operation == "mattermost.monitor.once")
    && h in s.pending && h !in s.cancelled
    && s.pending[h].context.approval.task == task && s.pending[h].context.approval.operation == operation
    && s.clock < s.pending[h].context.deadline && later < s.pending[h].entryDeadline
  }

  lemma EnterExactly(s: System, h: Handle, operation: string, task: string, later: real)
    requires later >= s.clock
    ensures Admits(s, h, operation, task, later) <==> MayEnter(s, h, operation, task, later)
    ensures var next := Next(s, Enter(h, operation, task, later));
            if MayEnter(s, h, operation, task, later) then
              && h !in next.pending && h in next.active && next.active[h] == s.pending[h].context
              && next.executions == s.executions + [Execution(h, s.pending[h].context, Entered, [])]
              && next.clock == later && next.stores == s.stores && next.cancelled == s.cancelled
            else next == s
  {
  }

  /** The read and the fixed adapter: good for the fixture's bytes, unstopped, and for nothing else. */
  lemma ReadExactly(s: System, e: nat, fails: bool)
    requires e < |s.executions| && s.executions[e].phase.Entered?
    ensures var x, next := s.executions[e], Next(s, Read(e, fails));
            var operation := x.context.approval.operation;
            && e < |next.executions| && next.readLog == s.readLog + [x.handle] && next.stores == s.stores
            && (if !fails && operation in s.stores
                then next.executions[e].phase == Holding && next.executions[e].buffer == s.stores[operation]
                else next.executions[e].phase == Judged(false) && next.executions[e].buffer == x.buffer)
  {
  }

  lemma AdaptExactly(s: System, e: nat)
    requires e < |s.executions| && s.executions[e].phase.Holding?
    ensures var x, next := s.executions[e], Next(s, Adapt(e));
            && e < |next.executions| && next.executions[e].buffer == x.buffer
            && next.executions[e].phase ==
                 Judged(x.handle !in s.cancelled && s.clock < x.context.deadline && x.buffer == FIXTURE)
  {
  }

  /** The final critical section: cancelled before expired, expired before the adapter's own verdict. */
  lemma FinishExactly(s: System, e: nat)
    requires e < |s.executions| && s.executions[e].phase.Judged?
    ensures var x, next := s.executions[e], Next(s, Finish(e));
            && e < |next.executions| && next.executions[e].phase.Ended? && x.handle !in next.active
            && next.active == s.active - {x.handle} && next.cancelled == s.cancelled
            && |next.executions[e].buffer| == |x.buffer|
            && (forall i | 0 <= i < |x.buffer| :: next.executions[e].buffer[i] == 0)
            && var status := next.executions[e].phase.status;
               && (status == CANCELLED <==> x.handle in s.cancelled)
               && (status == EXPIRED <==> x.handle !in s.cancelled && s.clock >= x.context.deadline)
               && (status == OK <==> x.handle !in s.cancelled && s.clock < x.context.deadline && x.phase.good)
               && status != DENIED
               && |next.audit| == |s.audit| + 1
               && next.audit == s.audit + [Event("execute", if status == OK then OK
                                                            else if status == FAILED then FAILED else DENIED)]
  {
  }

  lemma CancelExactly(s: System, h: Handle)
    ensures var next := Next(s, Cancel(h));
            && h !in next.pending && next.pending == s.pending - {h} && next.active == s.active
            && (forall g :: g in next.cancelled <==> g in s.cancelled || (g == h && (h in s.pending || h in s.active)))
            && next.stores == s.stores && next.audit == s.audit + [Event("revoke", OK)]
  {
  }

  /** A delete stops everything of its operation and, unless the store fails, removes its credential. */
  lemma DeleteExactly(s: System, operation: string, fails: bool)
    requires operation == "runpod.trial.once" || operation == "mattermost.monitor.once"
    ensures var next := Next(s, Delete(operation, fails));
            && (forall h :: h in next.pending <==>
                  h in s.pending && s.pending[h].context.approval.operation != operation)
            && (forall h | h in next.pending :: next.pending[h] == s.pending[h])
            && (forall h :: h in next.cancelled <==>
                  || h in s.cancelled
                  || (h in s.pending && s.pending[h].context.approval.operation == operation)
                  || (h in s.active && s.active[h].approval.operation == operation))
            && next.active == s.active
            && (fails ==> next.stores == s.stores)
            && (!fails ==> operation !in next.stores)
            && (forall o | o in s.stores && o != operation :: o in next.stores && next.stores[o] == s.stores[o])
            && next.audit == s.audit + [Event("delete", if fails then FAILED else OK)]
  {
  }

  /** Step `k` granted this handle this entry. */
  ghost predicate GrantedAt(steps: seq<Step>, k: nat, h: Handle, entry: Entry) {
    && k < |steps| && steps[k].Grant? && steps[k].handle == h
    && ValidGrant(steps[k].approval, steps[k].ttl, steps[k].now)
    && EntryFor(entry, steps[k].approval, steps[k].ttl, steps[k].now)
  }

  ghost predicate WasGranted(steps: seq<Step>, h: Handle, entry: Entry) {
    exists k: nat :: GrantedAt(steps, k, h, entry)
  }

  lemma PendingStep(s: System, step: Step, h: Handle)
    requires h in Next(s, step).pending
    ensures (h in s.pending && Next(s, step).pending[h] == s.pending[h])
            || (step.Grant? && step.handle == h && ValidGrant(step.approval, step.ttl, step.now)
                && EntryFor(Next(s, step).pending[h], step.approval, step.ttl, step.now))
  {
  }

  /** Every pending handle was granted, with a valid approval, and carries that grant's own limits. */
  lemma {:induction false} PendingWasGranted(clock: real, stores: map<string, seq<bv8>>, steps: seq<Step>, h: Handle)
    requires h in Exec(Start(clock, stores), steps).pending
    ensures WasGranted(steps, h, Exec(Start(clock, stores), steps).pending[h])
  {
    if steps != [] {
      var n := |steps| - 1;
      var before, entry := Exec(Start(clock, stores), steps[..n]), Exec(Start(clock, stores), steps).pending[h];
      PendingStep(before, steps[n], h);
      if h in before.pending && before.pending[h] == entry {
        PendingWasGranted(clock, stores, steps[..n], h);
        var k: nat :| GrantedAt(steps[..n], k, h, entry);
        assert GrantedAt(steps, k, h, entry);
      } else {
        assert GrantedAt(steps, n, h, entry);
      }
    }
  }

  /**
   So whoever enters was granted the handle by an earlier call, for this task and operation,
   less than that call's own ttl ago, itself at most a minute.
   */
  lemma EntryFollowsGrant(clock: real, stores: map<string, seq<bv8>>, steps: seq<Step>, h: Handle, operation: string,
                          task: string, later: real) returns (k: nat)
    requires var s := Exec(Start(clock, stores), steps); later >= s.clock && Admits(s, h, operation, task, later)
    ensures k < |steps| && steps[k].Grant? && steps[k].handle == h
    ensures steps[k].approval.task == task && steps[k].approval.operation == operation
    ensures 0 < steps[k].ttl <= 60 && later < steps[k].now + steps[k].ttl as real
    ensures later < steps[k].approval.deadline
    ensures operation == "mattermost.monitor.once" ==> later < steps[k].now + 300.0
    ensures operation in {"runpod.trial.once", "mattermost.monitor.once"}
  {
    var s := Exec(Start(clock, stores), steps);
    EnterExactly(s, h, operation, task, later);
    PendingWasGranted(clock, stores, steps, h);
    k :| GrantedAt(steps, k, h, s.pending[h]);
  }

  lemma StoresOnlyGo(s: System, step: Step, operation: string)
    requires operation !in s.stores
    ensures operation !in Next(s, step).stores
  {
  }

  lemma {:induction false} DeletedStays(start: System, steps: seq<Step>, m: nat, operation: string)
    requires m <= |steps| && operation !in Exec(start, steps[..m]).stores
    ensures operation !in Exec(start, steps).stores
    decreases |steps| - m
  {
    if m < |steps| {
      assert steps[..m + 1][..m] == steps[..m];
      StoresOnlyGo(Exec(start, steps[..m]), steps[m], operation);
      DeletedStays(start, steps, m + 1, operation);
    } else {
      assert steps[..m] == steps;
    }
  }

  /** Once a delete has succeeded, no later read of that operation's credential brings a byte. */
  lemma DeletedIsUnreadable(start: System, steps: seq<Step>, m: nat, n: nat, operation: string, e: nat, fails: bool)
    requires m < n < |steps| && steps[m] == Delete(operation, false) && steps[n] == Read(e, fails)
    requires operation == "runpod.trial.once" || operation == "mattermost.monitor.once"
    requires var s := Exec(start, steps[..n]);
             && e < |s.executions| && s.executions[e].phase.Entered?
             && s.executions[e].context.approval.operation == operation
    ensures var x, next := Exec(start, steps[..n]).executions[e], Exec(start, steps[..n + 1]);
            && operation !in next.stores && e < |next.executions|
            && next.executions[e].phase == Judged(false) && next.executions[e].buffer == x.buffer
  {
    assert steps[..m + 1][..m] == steps[..m] && steps[..n + 1][..n] == steps[..n];
    DeleteExactly(Exec(start, steps[..m]), operation, false);
    assert steps[..n][..m + 1] == steps[..m + 1];
    DeletedStays(start, steps[..n], m + 1, operation);
    ReadExactly(Exec(start, steps[..n]), e, fails);
  }

  // ---------------------------------------------------------------------------------------
  // The broker object
  // ---------------------------------------------------------------------------------------

  datatype GrantError = InvalidApproval | AlreadyIssued

  /** Overwrites the credential in place. */
  method Wipe(buffer: array<bv8>)
    modifies buffer
    ensures buffer[..] == Zeros(buffer.Length)
  {
    for i := 0 to buffer.Length
      invariant forall k | 0 <= k < i :: buffer[k] == 0
    {
      buffer[i] := 0;
    }
  }

  /** Each method is one critical section, or one part of the unlocked middle, of the source's calls. */
  class BoundedMockBroker {
    var clock: real
    var stores: map<string, seq<bv8>>
    var pending: map<Handle, Entry>
    var active: map<Handle, Context>
    var issued: set<string>
    var cancelled: set<Handle>
    ghost var grants: map<Handle, Context>
    var executions: seq<Execution>
    ghost var readLog: seq<Handle>
    var audit: seq<Event>

    ghost function View(): System
      reads this
    {
      System(clock, stores, pending, active, issued, cancelled, grants, executions, readLog, audit)
    }

    constructor (clock: real, stores: map<string, seq<bv8>>)
      ensures View() == Start(clock, stores)
    {
      this.clock, this.stores := clock, stores;
      pending, active, issued, cancelled, grants := map[], map[], {}, {}, map[];
      executions, readLog, audit := [], [], [];
    }

    method Observe(now: real)
      modifies this`clock
      ensures View() == Next(old(View()), Tick(now))
    {
      if now >= clock { clock := now; }
    }

    /** `now` was read before the lock was taken; the handle is a fresh random token. */
    method GrantTrusted(a: TrialApproval, ttl: int, now: real, handle: Handle) returns (r: Result<Handle, GrantError>)
      requires now <= clock && handle !in grants
      modifies this
      ensures View() == Next(old(View()), Grant(a, ttl, now, handle))
      ensures r == (if !ValidGrant(a, ttl, now) then Err(InvalidApproval)
                    else if a.approvalId in old(issued) then Err(AlreadyIssued)
                    else Ok(handle))
      ensures r.Ok? ==> handle in pending && EntryFor(pending[handle], a, ttl, now) && a.approvalId in issued
    {
      if a.operation !in OPERATIONS || a.approvalId == "" || a.task == "" || a.targetRef == "" || a.planDigest == ""
         || ttl <= 0 || ttl > 60 || a.budgetCap < 0.0 || a.deadline <= now
      { return Err(InvalidApproval); }
      if a.approvalId in issued { return Err(AlreadyIssued); }
      var deadline := a.deadline;
      if a.operation == MONITOR && now + 300.0 < deadline { deadline := now + 300.0; }
      var context := Context(a, deadline, now);
      var entryDeadline := if now + ttl as real <= deadline then now + ttl as real else deadline;
      pending := pending[handle := Entry(context, entryDeadline)];
      issued := issued + {a.approvalId};
      grants := grants[handle := context];
      return Ok(handle);
    }

    /** The first critical section; `None` is a denial, which changes nothing but the clock. */
    method BeginExecute(handle: Handle, operation: string, trustedTask: string, later: real) returns (e: Option<nat>)
      requires later >= clock
      modifies this
      ensures View() == Next(old(View()), Enter(handle, operation, trustedTask, later))
      ensures e.Some? <==> MayEnter(old(View()), handle, operation, trustedTask, later)
      ensures e.Some? ==> e.value == |old(executions)| && e.value < |executions|
    {
      if operation !in OPERATIONS { return None; }
      if handle !in pending { return None; }
      var entry := pending[handle];
      if entry.context.approval.task != trustedTask || entry.context.approval.operation != operation
         || handle in cancelled || clock >= entry.context.deadline || later >= entry.entryDeadline
      { return None; }
      clock := later;
      pending := pending - {handle};
      active := active[handle := entry.context];
      executions := executions + [Execution(handle, entry.context, Entered, [])];
      return Some(|executions| - 1);
    }

    method ReadStore(e: nat, fails: bool)
      requires e < |executions| && executions[e].phase.Entered?
      modifies this
      ensures View() == Next(old(View()), Read(e, fails))
    {
      var x := executions[e];
      var operation := x.context.approval.operation;
      if fails || operation !in stores {
        executions := executions[e := x.(phase := Judged(false))];
      } else {
        executions := executions[e := x.(phase := Holding, buffer := stores[operation])];
      }
      readLog := readLog + [x.handle];
    }

    /** The fixed mock adapter. */
    method RunAdapter(e: nat)
      requires e < |executions| && executions[e].phase.Holding?
      modifies this`executions
      ensures View() == Next(old(View()), Adapt(e))
    {
      var x := executions[e];
      var stopped := x.handle in cancelled || clock >= x.context.deadline;
      executions := executions[e := x.(phase := Judged(!stopped && x.buffer == FIXTURE))];
    }

    /** The wipe and the final critical section. */
    method FinishExecute(e: nat) returns (status: Status)
      requires e < |executions| && executions[e].phase.Judged?
      modifies this
      ensures View() == Next(old(View()), Finish(e)) && status == Verdict(old(View()), old(executions)[e])
      ensures executions[e].phase == Ended(status) && executions[e].handle !in active
      ensures var x := old(executions)[e];
              && (status == CANCELLED <==> x.handle in cancelled)
              && (status == EXPIRED <==> x.handle !in cancelled && clock >= x.context.deadline)
              && (status == OK <==> x.handle !in cancelled && clock < x.context.deadline && x.phase.good)
    {
      var x := executions[e];
      var buffer := new bv8[|x.buffer|](i requires 0 <= i < |x.buffer| => x.buffer[i]);
      Wipe(buffer);
      active := active - {x.handle};
      status := if x.phase.good then OK else FAILED;
      if x.handle in cancelled { status := CANCELLED; }
      else if clock >= x.context.deadline { status := EXPIRED; }
      executions := executions[e := x.(phase := Ended(status), buffer := buffer[..])];
      audit := audit + [Event("execute", if status.OK? || status.FAILED? then status else DENIED)];
    }

    method CancelTrusted(handle: Handle)
      modifies this
      ensures View() == Next(old(View()), Cancel(handle))
      ensures handle !in pending && (Open(old(View()), handle) ==> handle in cancelled)
    {
      if handle in pending || handle in active { cancelled := cancelled + {handle}; }
      pending := pending - {handle};
      audit := audit + [Event("revoke", OK)];
    }

    /** Everything of this operation is cancelled, then the stored credential goes. */
    method DeleteTrusted(operation: string, fails: bool) returns (status: Status)
      modifies this
      ensures View() == Next(old(View()), Delete(operation, fails))
      ensures status == if operation !in OPERATIONS then DENIED else if fails then FAILED else OK
      ensures status == OK ==> operation !in stores
    {
      if operation !in OPERATIONS { return DENIED; }
      CancelPending(operation);
      CancelActive(operation);
      assert pending == old(pending) - PendingOf(old(View()), operation);
      if !fails { stores := stores - {operation}; }
      status := if fails then FAILED else OK;
      audit := audit + [Event("delete", status)];
    }

    method CancelPending(operation: string)
      modifies this`pending, this`cancelled
      ensures var hit := set h | h in old(pending) && old(pending)[h].context.approval.operation == operation;
              cancelled == old(cancelled) + hit && pending == old(pending) - hit
    {
      var todo := pending.Keys;
      ghost var hit: set<Handle> := {};
      while todo != {}
        invariant todo <= pending.Keys <= old(pending).Keys && cancelled == old(cancelled) + hit
        invariant pending == old(pending) - hit
        invariant forall h :: h in hit <==>
          h in old(pending) && h !in todo && old(pending)[h].context.approval.operation == operation
        decreases |todo|
      {
        var h :| h in todo;
        if pending[h].context.approval.operation == operation {
          cancelled := cancelled + {h};
          pending := pending - {h};
          hit := hit + {h};
        }
        todo := todo - {h};
      }
    }

    method CancelActive(operation: string)
      modifies this`cancelled
      ensures cancelled == old(cancelled) + set h | h in active && active[h].approval.operation == operation
    {
      var todo := active.Keys;
      while todo != {}
        invariant todo <= active.Keys
        invariant cancelled ==
                  old(cancelled) + set h | h in active && h !in todo && active[h].approval.operation == operation
        decreases |todo|
      {
        var h :| h in todo;
        if active[h].approval.operation == operation { cancelled := cancelled + {h}; }
        todo := todo - {h};
      }
    }

    /** A call nobody interferes with, from request to answer. */
    method Execute(handle: Handle, operation: string, trustedTask: string, later: real, fails: bool, adapted: real,
                   finished: real)
        returns (status: Status)
      requires later >= clock && adapted >= later && finished >= adapted
      modifies this
      ensures status.DENIED? <==> !MayEnter(old(View()), handle, operation, trustedTask, later)
      ensures !status.DENIED? ==>
        var context := old(pending)[handle].context;
        && handle !in pending && handle !in active
        && (status.EXPIRED? <==> finished >= context.deadline)
        && (status.OK? <==>
              finished < context.deadline && !fails && operation in old(stores) && old(stores)[operation] == FIXTURE)
        && !status.CANCELLED?
    {
      var e := BeginExecute(handle, operation, trustedTask, later);
      if e.None? { return DENIED; }
      status := Middle(e.value, fails, adapted, finished);
    }

    method ReadAndJudge(e: nat, fails: bool, adapted: real)
      requires e < |executions| && executions[e].phase.Entered? && clock <= adapted
      requires executions[e].handle !in cancelled
      modifies this
      ensures pending == old(pending) && cancelled == old(cancelled) && clock == adapted
      ensures var x := old(executions)[e]; var operation := x.context.approval.operation;
              && e < |executions| && executions[e].handle == x.handle && executions[e].context == x.context
              && executions[e].phase.Judged?
              && (executions[e].phase.good <==>
                    adapted < x.context.deadline && !fails && operation in old(stores)
                      && old(stores)[operation] == FIXTURE)
    {
      ReadStore(e, fails);
      Observe(adapted);
      if executions[e].phase.Holding? {
        RunAdapter(e);
      }
    }

    /** The unlocked middle and the final critical section. */
    method Middle(e: nat, fails: bool, adapted: real, finished: real) returns (status: Status)
      requires e < |executions| && executions[e].phase.Entered? && clock <= adapted <= finished
      requires executions[e].handle !in cancelled
      modifies this
      ensures pending == old(pending)
      ensures old(executions)[e].handle !in active
      ensures var x := old(executions)[e]; var operation := x.context.approval.operation;
              && !status.DENIED? && !status.CANCELLED? && (status.EXPIRED? <==> finished >= x.context.deadline)
              && (status.OK? <==>
                    finished < x.context.deadline && !fails && operation in old(stores)
                      && old(stores)[operation] == FIXTURE)
    {
      ReadAndJudge(e, fails, adapted);
      Observe(finished);
      status := FinishExecute(e);
    }
  }
}
