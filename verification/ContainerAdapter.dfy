/**
 At-most-once execution (orchestrator/adapters/container.py): controllers claim a task in an
 execution database, consume an approval token, run a container and record the result.

 Any number of controller processes, over any number of execution databases, share one
 approval table.  Every step below is one commit (or one process event), and steps of
 different processes interleave freely, so a process can die between any two commits.
 Process identity is a PID and its creation time; death is permanent.
 */
module ContainerAdapter {
  import opened Wrappers
  import Approval

  type TaskId = string
  type RunId = string
  type DbPath = string

  datatype Process = Process(pid: int, started: real)

  /** SHA-256 is symbolic: equal digests are digests of equal contexts. */
  datatype Digest = Sha256(of: Approval.Context)

  /** What the container came to, and what was measured of it. */
  datatype Report = Report(exitCode: int, output: string, candidateDigest: Option<string>, changed: seq<string>)

  /** The stored result: the report with the run and the execution digest it belongs to. */
  datatype Evidence = Evidence(run: RunId, executionDigest: string, report: Report)

  /** The status column and the result column, which one UPDATE writes together. */
  datatype Status = RESERVED | ADMITTED | SUCCESS(result: Evidence) | FAILED(result: Evidence) | BLOCKED

  predicate Final(s: Status) { s.SUCCESS? || s.FAILED? }

  /** A row of `executions`: the task is its primary key, and run ids are unique. */
  datatype Record = Record(run: RunId, digest: Digest, token: Approval.TokenId, status: Status, owner: Process)

  type Table = map<TaskId, Record>

  /** How far a `start_task` call has come; `Raised` is its exception handler. */
  datatype Phase = Claimed | Consumed | Admitted | Running | Ran(report: Report) | Raised | Closed

  datatype Call = Call(
    db: DbPath, task: TaskId, run: RunId, ctx: Approval.Context, token: Approval.TokenId, owner: Process,
    phase: Phase, consumedAt: Option<nat>)

  datatype RecoveryPhase = Read | OwnerFoundGone | Over

  /** A `recover_task` call: the row it read, and how far it has come. */
  datatype Recovery = Recovery(db: DbPath, task: TaskId, seen: Record, reader: Process, phase: RecoveryPhase)

  datatype System = System(
    dbs: map<DbPath, Table>, tokens: seq<Approval.Step>, born: set<Process>, alive: set<Process>,
    calls: seq<Call>, recoveries: seq<Recovery>, runs: seq<nat>)

  const START := System(map[], [], {}, {}, [], [], [])

  datatype Step =
    | Token(t: Approval.Step)
    | Spawn(p: Process)
    | Die(p: Process)
    | Reserve(db: DbPath, task: TaskId, run: RunId, ctx: Approval.Context, token: Approval.TokenId, owner: Process)
    | Consume(c: nat, env: Approval.Env)
    | Admit(c: nat)
    | Launch(c: nat)
    | Return(c: nat, report: Report)
    | Conclude(c: nat)
    | Raise(c: nat)
    | Block(c: nat)
    | Abandon(c: nat)
    | ReadRecord(db: DbPath, task: TaskId, ctx: Approval.Context, reader: Process)
    | CheckOwner(r: nat, readable: bool)
    | WriteBlocked(r: nat)

  // ---------------------------------------------------------------------------------------
  // One step
  // ---------------------------------------------------------------------------------------

  function TableOf(dbs: map<DbPath, Table>, db: DbPath): Table { if db in dbs then dbs[db] else map[] }

  predicate Claimable(table: Table, task: TaskId, run: RunId) {
    task !in table && forall t | t in table :: table[t].run != run
  }

  /** UPDATE executions SET status WHERE run_id. */
  function SetStatus(table: Table, run: RunId, status: Status): Table {
    map t | t in table :: if table[t].run == run then table[t].(status := status) else table[t]
  }

  predicate Can(s: System, c: nat) { c < |s.calls| && s.calls[c].owner in s.alive && !s.calls[c].phase.Closed? }

  function Moved(s: System, c: nat, phase: Phase): System
    requires c < |s.calls|
  {
    s.(calls := s.calls[c := s.calls[c].(phase := phase)])
  }

  /** A status write of call `c`, and the phase after it. */
  function Written(s: System, c: nat, status: Status, phase: Phase): System
    requires c < |s.calls|
  {
    Moved(s, c, phase).(dbs := s.dbs[s.calls[c].db := SetStatus(TableOf(s.dbs, s.calls[c].db), s.calls[c].run, status)])
  }

  /** The owner's PID is free, or now belongs to a process with another creation time. */
  predicate OwnerGone(alive: set<Process>, owner: Process, readable: bool) {
    forall q | q in alive && q.pid == owner.pid :: readable && q.started != owner.started
  }

  /** What a call records: the container's exit code decides between the two. */
  function ResultOf(call: Call, report: Report): Status { Recorded(call.run, call.ctx.argvDigest, report) }

  function Recorded(run: RunId, executionDigest: string, report: Report): Status {
    var evidence := Evidence(run, executionDigest, report);
    if report.exitCode == 0 then SUCCESS(evidence) else FAILED(evidence)
  }

  /** The call's own consume, as a transaction of the shared approval table. */
  function ConsumeStep(s: System, c: nat, env: Approval.Env): Approval.Step
    requires c < |s.calls|
  {
    Approval.DoConsume(env, s.calls[c].token, s.calls[c].ctx)
  }

  /** The context a start builds: this action, this task; its argv digest covers manifest, command and inputs. */
  predicate ForExecution(ctx: Approval.Context, task: TaskId) { ctx.action == "task_execution" && ctx.taskId == task }

  function Next(secret: string, s: System, step: Step): System {
    match step
    case Token(t) => s.(tokens := s.tokens + [t])
    case Spawn(p) =>
      if p in s.born || (exists q :: q in s.alive && q.pid == p.pid) then s
      else s.(born := s.born + {p}, alive := s.alive + {p})
    case Die(p) => s.(alive := s.alive - {p})
    case Reserve(db, task, run, ctx, token, owner) =>
      var table := TableOf(s.dbs, db);
      if owner !in s.alive || !ForExecution(ctx, task) || token == "" || !Claimable(table, task, run) then s
      else s.(dbs := s.dbs[db := table[task := Record(run, Sha256(ctx), token, RESERVED, owner)]],
              calls := s.calls + [Call(db, task, run, ctx, token, owner, Claimed, None)])
    case Consume(c, env) =>
      if !Can(s, c) || !s.calls[c].phase.Claimed? then s
      else
        var t := ConsumeStep(s, c, env);
        if Approval.Try(secret, Approval.Exec(secret, s.tokens), t).Ok? then
          s.(tokens := s.tokens + [t],
             calls := s.calls[c := s.calls[c].(phase := Consumed, consumedAt := Some(|s.tokens|))])
        else Moved(s, c, Raised)
    case Admit(c) => if Can(s, c) && s.calls[c].phase.Consumed? then Written(s, c, ADMITTED, Admitted) else s
    case Launch(c) => if Can(s, c) && s.calls[c].phase.Admitted? then Moved(s, c, Running).(runs := s.runs + [c]) else s
    case Return(c, report) => if Can(s, c) && s.calls[c].phase.Running? then Moved(s, c, Ran(report)) else s
    case Conclude(c) =>
      if !Can(s, c) || !s.calls[c].phase.Ran? then s
      else Written(s, c, ResultOf(s.calls[c], s.calls[c].phase.report), Closed)
    case Raise(c) => if Can(s, c) then Moved(s, c, Raised) else s
    case Block(c) => if Can(s, c) && s.calls[c].phase.Raised? then Written(s, c, BLOCKED, Closed) else s
    case Abandon(c) => if Can(s, c) then Moved(s, c, Closed) else s
    case ReadRecord(db, task, ctx, reader) =>
      var table := TableOf(s.dbs, db);
      if reader !in s.alive || task !in table || table[task].digest != Sha256(ctx) || Final(table[task].status) then s
      else s.(recoveries := s.recoveries + [Recovery(db, task, table[task], reader, Read)])
    case CheckOwner(r, readable) =>
      if r >= |s.recoveries| || !s.recoveries[r].phase.Read? || s.recoveries[r].reader !in s.alive then s
      else s.(recoveries := s.recoveries[r := s.recoveries[r].(
               phase := if OwnerGone(s.alive, s.recoveries[r].seen.owner, readable) then OwnerFoundGone else Over)])
    case WriteBlocked(r) =>
      if r >= |s.recoveries| || !s.recoveries[r].phase.OwnerFoundGone? || s.recoveries[r].reader !in s.alive then s
      else
        var rec := s.recoveries[r];
        s.(recoveries := s.recoveries[r := rec.(phase := Over)],
           dbs := s.dbs[rec.db := SetStatus(TableOf(s.dbs, rec.db), rec.seen.run, BLOCKED)])
  }

  function Exec(secret: string, steps: seq<Step>): System {
    if steps == [] then START else Next(secret, Exec(secret, steps[..|steps| - 1]), steps[|steps| - 1])
  }

  // ---------------------------------------------------------------------------------------
  // What every interleaving keeps
  // ---------------------------------------------------------------------------------------

  ghost predicate UniqueRuns(table: Table) {
    forall t, u | t in table && u in table && t != u :: table[t].run != table[u].run
  }

  /** A stored result is one of the row's own run and context; SUCCESS is an exit code of 0, FAILED any other. */
  ghost predicate ResultFits(row: Record) {
    row.status.SUCCESS? || row.status.FAILED? ==>
      && (row.status.SUCCESS? <==> row.status.result.report.exitCode == 0)
      && row.status.result.run == row.run && row.status.result.executionDigest == row.digest.of.argvDigest
  }

  ghost predicate ResultsFit(table: Table) { forall t | t in table :: ResultFits(table[t]) }

  /** The durable row of a call: it is there from the claim on, and only its status moves. */
  ghost predicate OwnsRow(s: System, call: Call) {
    var table := TableOf(s.dbs, call.db);
    && call.task in table && table[call.task].run == call.run && table[call.task].digest == Sha256(call.ctx)
    && table[call.task].token == call.token && table[call.task].owner == call.owner && ForExecution(call.ctx, call.task)
    && (Final(table[call.task].status) ==> call.phase.Closed?)
  }

  ghost predicate Claims(s: System) {
    && (forall c | 0 <= c < |s.calls| :: OwnsRow(s, s.calls[c]))
    && (forall c, d | 0 <= c < d < |s.calls| :: s.calls[c].db != s.calls[d].db || s.calls[c].task != s.calls[d].task)
    && (forall db | db in s.dbs :: UniqueRuns(s.dbs[db]) && ResultsFit(s.dbs[db]))
  }

  /** The call's consume is transaction `consumedAt` of the approval table, in the call's own context. */
  ghost predicate ConsumeCommitted(secret: string, tokens: seq<Approval.Step>, call: Call) {
    call.consumedAt.Some? ==>
      && Approval.ConsumesAt(secret, tokens, call.token, call.consumedAt.value)
      && tokens[call.consumedAt.value].c == call.ctx
  }

  predicate PastConsume(p: Phase) { p.Consumed? || p.Admitted? || p.Running? || p.Ran? }

  ghost predicate Consumptions(secret: string, s: System) {
    && (forall c | 0 <= c < |s.calls| ::
          && ConsumeCommitted(secret, s.tokens, s.calls[c])
          && (PastConsume(s.calls[c].phase) ==> s.calls[c].consumedAt.Some?))
    && (forall c, d | 0 <= c < d < |s.calls| && s.calls[c].consumedAt.Some? ::
          s.calls[c].consumedAt != s.calls[d].consumedAt)
  }

  predicate MayStillRun(p: Phase) { p.Claimed? || p.Consumed? || p.Admitted? }

  ghost predicate RunLog(s: System) {
    && (forall i | 0 <= i < |s.runs| ::
          s.runs[i] < |s.calls| && s.calls[s.runs[i]].consumedAt.Some? && !MayStillRun(s.calls[s.runs[i]].phase))
    && (forall i, j | 0 <= i < j < |s.runs| :: s.runs[i] != s.runs[j])
  }

  ghost predicate Processes(s: System) {
    && s.alive <= s.born
    && (forall db, t | t in TableOf(s.dbs, db) :: TableOf(s.dbs, db)[t].owner in s.born)
    && forall p, q | p in s.alive && q in s.alive && p.pid == q.pid :: p == q
  }

  lemma StatusWrite(s: System, db: DbPath, run: RunId, status: Status)
    ensures var dbs := s.dbs[db := SetStatus(TableOf(s.dbs, db), run, status)];
            && (forall e, t :: t in TableOf(dbs, e) <==> t in TableOf(s.dbs, e))
            && (forall e, t | t in TableOf(s.dbs, e) :: TableOf(dbs, e)[t] ==
                  if e == db && TableOf(s.dbs, e)[t].run == run then TableOf(s.dbs, e)[t].(status := status)
                  else TableOf(s.dbs, e)[t])
  {
  }

  /** A status write by a call, or by recovery, keeps the claims; only the call itself may finish its row. */
  lemma WriteKeepsClaims(s: System, c: nat, status: Status, phase: Phase)
    requires Claims(s) && c < |s.calls| && !s.calls[c].phase.Closed?
    requires Final(status) ==> phase.Closed? && status == ResultOf(s.calls[c], status.result.report)
    ensures Claims(Written(s, c, status, phase))
  {
    StatusWrite(s, s.calls[c].db, s.calls[c].run, status);
  }

  lemma BlockKeepsClaims(s: System, db: DbPath, run: RunId, recoveries: seq<Recovery>)
    requires Claims(s)
    ensures Claims(s.(recoveries := recoveries, dbs := s.dbs[db := SetStatus(TableOf(s.dbs, db), run, BLOCKED)]))
  {
    StatusWrite(s, db, run, BLOCKED);
    BlockKeepsTable(TableOf(s.dbs, db), run);
  }

  lemma BlockKeepsTable(table: Table, run: RunId)
    ensures UniqueRuns(table) ==> UniqueRuns(SetStatus(table, run, BLOCKED))
    ensures ResultsFit(table) ==> ResultsFit(SetStatus(table, run, BLOCKED))
  {
  }

  lemma NewRowFits(table: Table, task: TaskId, row: Record)
    requires UniqueRuns(table) && ResultsFit(table) && Claimable(table, task, row.run) && !Final(row.status)
    ensures UniqueRuns(table[task := row]) && ResultsFit(table[task := row])
  {
  }

  lemma ReserveKeepsClaims(secret: string, s: System, step: Step)
    requires Claims(s) && step.Reserve?
    ensures Claims(Next(secret, s, step))
  {
    var table := TableOf(s.dbs, step.db);
    if Claimable(table, step.task, step.run) {
      NewRowFits(table, step.task, Record(step.run, Sha256(step.ctx), step.token, RESERVED, step.owner));
      forall c | 0 <= c < |s.calls|
        ensures OwnsRow(Next(secret, s, step), s.calls[c])
        ensures s.calls[c].db != step.db || s.calls[c].task != step.task
      {
        assert OwnsRow(s, s.calls[c]);
      }
    }
  }

  lemma MoveKeepsClaims(s: System, c: nat, call: Call)
    requires Claims(s) && c < |s.calls| && !s.calls[c].phase.Closed?
    requires call == s.calls[c].(phase := call.phase, consumedAt := call.consumedAt)
    ensures Claims(s.(calls := s.calls[c := call]))
  {
  }

  predicate CallWrites(step: Step) { step.Admit? || step.Conclude? || step.Block? }

  predicate CallMoves(step: Step) { step.Consume? || step.Launch? || step.Return? || step.Raise? || step.Abandon? }

  lemma CallMoveKeepsClaims(secret: string, s: System, step: Step)
    requires Claims(s) && CallMoves(step) && Can(s, step.c)
    ensures Claims(Next(secret, s, step))
  {
    var next := Next(secret, s, step);
    MoveKeepsClaims(s, step.c, next.calls[step.c]);
    ClaimsIgnoreTokens(s.(calls := next.calls), next);
  }

  lemma CallWriteKeepsClaims(secret: string, s: System, step: Step)
    requires Claims(s) && CallWrites(step) && Next(secret, s, step) != s
    ensures Claims(Next(secret, s, step))
  {
    match step
    case Admit(c) => WriteKeepsClaims(s, c, ADMITTED, Admitted);
    case Conclude(c) => WriteKeepsClaims(s, c, ResultOf(s.calls[c], s.calls[c].phase.report), Closed);
    case Block(c) => WriteKeepsClaims(s, c, BLOCKED, Closed);
  }

  lemma ClaimsKept(secret: string, s: System, step: Step)
    requires Claims(s)
    ensures Claims(Next(secret, s, step))
  {
    var next := Next(secret, s, step);
    if next == s {
    } else if step.Reserve? {
      ReserveKeepsClaims(secret, s, step);
    } else if CallWrites(step) {
      CallWriteKeepsClaims(secret, s, step);
    } else if CallMoves(step) {
      CallMoveKeepsClaims(secret, s, step);
    } else if step.WriteBlocked? {
      BlockKeepsClaims(s, s.recoveries[step.r].db, s.recoveries[step.r].seen.run, next.recoveries);
    } else {
      ClaimsIgnoreTokens(s, next);
    }
  }

  lemma ClaimsIgnoreTokens(s: System, next: System)
    requires Claims(s) && next.dbs == s.dbs && next.calls == s.calls
    ensures Claims(next)
  {
  }

  lemma HistoryGrows(secret: string, tokens: seq<Approval.Step>, t: Approval.Step, call: Call)
    requires ConsumeCommitted(secret, tokens, call)
    ensures ConsumeCommitted(secret, tokens + [t], call)
  {
    if call.consumedAt.Some? {
      var longer := tokens + [t];
      assert longer[..|tokens|] == tokens;
      Approval.SamePast(secret, longer, |tokens|, call.consumedAt.value);
    }
  }

  /** A new transaction on the approval table leaves all earlier consumes as they were. */
  lemma TokenKeepsConsumptions(secret: string, s: System, t: Approval.Step)
    requires Consumptions(secret, s)
    ensures Consumptions(secret, s.(tokens := s.tokens + [t]))
  {
    forall c | 0 <= c < |s.calls| ensures ConsumeCommitted(secret, s.tokens + [t], s.calls[c]) {
      HistoryGrows(secret, s.tokens, t, s.calls[c]);
    }
  }

  /** The transaction a call commits itself is one no other call has. */
  lemma ConsumeKeepsConsumptions(secret: string, s: System, c: nat, env: Approval.Env)
    requires Consumptions(secret, s)
    ensures Consumptions(secret, Next(secret, s, Consume(c, env)))
  {
    var next := Next(secret, s, Consume(c, env));
    if next.tokens != s.tokens {
      var t, n := ConsumeStep(s, c, env), |s.tokens|;
      TokenKeepsConsumptions(secret, s, t);
      assert next.tokens[..n] == s.tokens;
      assert Approval.ConsumesAt(secret, next.tokens, s.calls[c].token, n);
    }
  }

  /** A call keeps its identity, consumes once, and never comes back to where it could run again. */
  predicate CallStep(a: Call, b: Call) {
    && b == a.(phase := b.phase, consumedAt := b.consumedAt)
    && (a.consumedAt.Some? ==> b.consumedAt.Some?)
    && (MayStillRun(b.phase) ==> MayStillRun(a.phase)) && (a.phase.Closed? ==> b == a)
    && (PastConsume(b.phase) ==> PastConsume(a.phase) || b.consumedAt.Some?)
  }

  predicate Progress(a: seq<Call>, b: seq<Call>) {
    && |a| <= |b| && (forall c | 0 <= c < |a| :: CallStep(a[c], b[c]))
    && forall c | |a| <= c < |b| :: b[c].phase.Claimed? && b[c].consumedAt.None?
  }

  /** At most one call moves, or one is added. */
  lemma OneCallMoves(secret: string, s: System, step: Step)
    ensures var next := Next(secret, s, step).calls;
            || next == s.calls
            || (step.Reserve? && |next| == |s.calls| + 1 && next == s.calls + [next[|s.calls|]]
                && next[|s.calls|].phase.Claimed? && next[|s.calls|].consumedAt.None?)
            || exists c, b :: 0 <= c < |s.calls| && CallStep(s.calls[c], b) && next == s.calls[c := b]
  {
    var next := Next(secret, s, step).calls;
    if !step.Reserve? && next != s.calls {
      var c := step.c;
      assert CallStep(s.calls[c], next[c]) && next == s.calls[c := next[c]];
    }
  }

  lemma CallsProgress(secret: string, s: System, step: Step)
    ensures Progress(s.calls, Next(secret, s, step).calls)
  {
    OneCallMoves(secret, s, step);
  }

  lemma OthersConsumeNothing(secret: string, s: System, step: Step)
    requires !step.Token? && !step.Consume?
    ensures Next(secret, s, step).tokens == s.tokens
    ensures forall c | 0 <= c < |s.calls| && c < |Next(secret, s, step).calls| ::
              Next(secret, s, step).calls[c].consumedAt == s.calls[c].consumedAt
  {
  }

  lemma ProgressKeepsConsumptions(secret: string, s: System, next: System)
    requires Consumptions(secret, s) && Progress(s.calls, next.calls) && next.tokens == s.tokens
    requires forall c | 0 <= c < |s.calls| :: next.calls[c].consumedAt == s.calls[c].consumedAt
    ensures Consumptions(secret, next)
  {
    forall c | 0 <= c < |next.calls| ensures ConsumeCommitted(secret, next.tokens, next.calls[c]) {
      if c < |s.calls| {
        assert CallStep(s.calls[c], next.calls[c]);
        assert ConsumeCommitted(secret, s.tokens, s.calls[c]);
      }
    }
  }

  lemma ConsumptionsKept(secret: string, s: System, step: Step)
    requires Consumptions(secret, s)
    ensures Consumptions(secret, Next(secret, s, step))
  {
    if step.Token? {
      TokenKeepsConsumptions(secret, s, step.t);
    } else if step.Consume? {
      ConsumeKeepsConsumptions(secret, s, step.c, step.env);
    } else {
      CallsProgress(secret, s, step);
      OthersConsumeNothing(secret, s, step);
      ProgressKeepsConsumptions(secret, s, Next(secret, s, step));
    }
  }

  lemma OnlyLaunchRuns(secret: string, s: System, step: Step)
    ensures var next := Next(secret, s, step);
            next.runs == s.runs ||
            (step.Launch? && step.c < |s.calls| && s.calls[step.c].phase.Admitted? && next.runs == s.runs + [step.c]
             && next.calls == s.calls[step.c := s.calls[step.c].(phase := Running)])
  {
  }

  lemma RunLogKept(secret: string, s: System, step: Step)
    requires RunLog(s) && Consumptions(secret, s)
    ensures RunLog(Next(secret, s, step))
  {
    CallsProgress(secret, s, step);
    OnlyLaunchRuns(secret, s, step);
    var next := Next(secret, s, step);
    forall i | 0 <= i < |s.runs|
      ensures s.runs[i] < |next.calls| && next.calls[s.runs[i]].consumedAt.Some?
      ensures !MayStillRun(next.calls[s.runs[i]].phase)
    {
      assert CallStep(s.calls[s.runs[i]], next.calls[s.runs[i]]);
    }
  }

  lemma ProcessesKept(secret: string, s: System, step: Step)
    requires Claims(s) && Processes(s)
    ensures Processes(Next(secret, s, step))
  {
    var next := Next(secret, s, step);
    forall db, t | t in TableOf(next.dbs, db) ensures TableOf(next.dbs, db)[t].owner in next.born {
      if t in TableOf(s.dbs, db) { RowStep(secret, s, step, db, t); } else { NewRow(secret, s, step, db, t); }
    }
  }

  lemma NewRow(secret: string, s: System, step: Step, db: DbPath, t: TaskId)
    requires t in TableOf(Next(secret, s, step).dbs, db) && t !in TableOf(s.dbs, db)
    ensures step.Reserve? && step.owner in s.alive && TableOf(Next(secret, s, step).dbs, db)[t].owner == step.owner
  {
  }

  ghost predicate Sound(secret: string, s: System) {
    Claims(s) && Consumptions(secret, s) && RunLog(s) && Processes(s)
  }

  lemma {:induction false} AlwaysSound(secret: string, steps: seq<Step>)
    ensures Sound(secret, Exec(secret, steps))
  {
    if steps != [] {
      var before, step := Exec(secret, steps[..|steps| - 1]), steps[|steps| - 1];
      AlwaysSound(secret, steps[..|steps| - 1]);
      ClaimsKept(secret, before, step);
      ConsumptionsKept(secret, before, step);
      RunLogKept(secret, before, step);
      ProcessesKept(secret, before, step);
    }
  }

  // ---------------------------------------------------------------------------------------
  // Where results come from
  // ---------------------------------------------------------------------------------------

  /** Some step so far is the runner handing this report to call `c`. */
  ghost predicate Reported(steps: seq<Step>, c: nat, report: Report) {
    exists k :: 0 <= k < |steps| && steps[k] == Return(c, report)
  }

  /** The row was claimed by call `c`, and a result in it is what that call's one run reported. */
  ghost predicate ClaimedBy(s: System, steps: seq<Step>, db: DbPath, task: TaskId, row: Record, c: nat) {
    && c < |s.calls| && s.calls[c].db == db && s.calls[c].task == task
    && s.calls[c].run == row.run && s.calls[c].ctx == row.digest.of
    && (row.status.SUCCESS? || row.status.FAILED? ==> c in s.runs && Reported(steps, c, row.status.result.report))
  }

  ghost predicate HasCall(s: System, steps: seq<Step>, db: DbPath, task: TaskId) {
    task in TableOf(s.dbs, db) ==> exists c: nat :: ClaimedBy(s, steps, db, task, TableOf(s.dbs, db)[task], c)
  }

  ghost predicate RanFor(s: System, steps: seq<Step>, c: nat) {
    c < |s.calls| ==>
      && (s.calls[c].phase.Running? || s.calls[c].phase.Ran? ==> c in s.runs)
      && (s.calls[c].phase.Ran? ==> Reported(steps, c, s.calls[c].phase.report))
  }

  lemma ReportedStays(steps: seq<Step>, step: Step, c: nat, report: Report)
    requires Reported(steps, c, report)
    ensures Reported(steps + [step], c, report)
  {
    var k :| 0 <= k < |steps| && steps[k] == Return(c, report);
    assert (steps + [step])[k] == Return(c, report);
  }

  lemma RunsStay(secret: string, s: System, step: Step, c: nat)
    requires c in s.runs
    ensures c in Next(secret, s, step).runs
  {
    OnlyLaunchRuns(secret, s, step);
  }

  lemma RanForKept(secret: string, s: System, steps: seq<Step>, step: Step, c: nat)
    requires RanFor(s, steps, c)
    ensures RanFor(Next(secret, s, step), steps + [step], c)
  {
    var next := Next(secret, s, step);
    OnlyLaunchRuns(secret, s, step);
    assert (steps + [step])[|steps|] == step;
    if c < |s.calls| && c < |next.calls| && s.calls[c].phase.Ran? && next.calls[c].phase.Ran? {
      ReportedStays(steps, step, c, s.calls[c].phase.report);
    }
  }

  /** The writer of a result is the call that ran for it. */
  lemma ResultIsReported(secret: string, s: System, steps: seq<Step>, step: Step, db: DbPath, task: TaskId, c: nat)
    requires Claims(s) && task in TableOf(s.dbs, db) && c < |s.calls| && s.calls[c].db == db && s.calls[c].task == task
    requires RanFor(s, steps, c)
    ensures var before, after := TableOf(s.dbs, db)[task], TableOf(Next(secret, s, step).dbs, db);
            task in after &&
            (after[task].status != before.status && (after[task].status.SUCCESS? || after[task].status.FAILED?) ==>
               c in s.runs && Reported(steps, c, after[task].status.result.report))
  {
    RowStep(secret, s, step, db, task);
    assert OwnsRow(s, s.calls[c]);
    if step.Conclude? && Can(s, step.c) && step.c != c {
      assert OwnsRow(s, s.calls[step.c]);
    }
  }

  lemma HasCallKept(secret: string, s: System, steps: seq<Step>, step: Step, db: DbPath, task: TaskId)
    requires Claims(s) && HasCall(s, steps, db, task) && forall c: nat :: RanFor(s, steps, c)
    ensures HasCall(Next(secret, s, step), steps + [step], db, task)
  {
    var next := Next(secret, s, step);
    if task in TableOf(s.dbs, db) {
      var c: nat :| ClaimedBy(s, steps, db, task, TableOf(s.dbs, db)[task], c);
      ResultIsReported(secret, s, steps, step, db, task, c);
      CallsProgress(secret, s, step);
      RowStep(secret, s, step, db, task);
      assert CallStep(s.calls[c], next.calls[c]);
      var row := TableOf(next.dbs, db)[task];
      if row.status.SUCCESS? || row.status.FAILED? {
        RunsStay(secret, s, step, c);
        ReportedStays(steps, step, c, row.status.result.report);
      }
      assert ClaimedBy(next, steps + [step], db, task, row, c);
    } else if task in TableOf(next.dbs, db) {
      NewRow(secret, s, step, db, task);
      assert ClaimedBy(next, steps + [step], db, task, TableOf(next.dbs, db)[task], |s.calls|);
    }
  }

  lemma {:induction false} RowsHaveCalls(secret: string, steps: seq<Step>, db: DbPath, task: TaskId)
    ensures HasCall(Exec(secret, steps), steps, db, task)
    ensures forall c: nat :: RanFor(Exec(secret, steps), steps, c)
  {
    if steps != [] {
      var init, step := steps[..|steps| - 1], steps[|steps| - 1];
      var before := Exec(secret, init);
      assert steps == init + [step];
      RowsHaveCalls(secret, init, db, task);
      AlwaysSound(secret, init);
      HasCallKept(secret, before, init, step, db, task);
      forall c: nat ensures RanFor(Exec(secret, steps), steps, c) { RanForKept(secret, before, init, step, c); }
    }
  }

  /**
   In every reachable state a stored result is what the container of that row's one call
   reported: SUCCESS exactly when it exited with 0, FAILED exactly when it exited otherwise, and
   filed under the row's own run and the claimed context's digest.
   */
  lemma ResultsComeFromRuns(secret: string, steps: seq<Step>, db: DbPath, task: TaskId)
    requires task in TableOf(Exec(secret, steps).dbs, db)
    ensures var s := Exec(secret, steps);
            var row := TableOf(s.dbs, db)[task];
            row.status.SUCCESS? || row.status.FAILED? ==>
              && (row.status.SUCCESS? <==> row.status.result.report.exitCode == 0)
              && row.status.result.run == row.run && row.status.result.executionDigest == row.digest.of.argvDigest
              && exists c: nat :: ClaimedBy(s, steps, db, task, row, c)
  {
    AlwaysSound(secret, steps);
    RowsHaveCalls(secret, steps, db, task);
    UniqueRow(Exec(secret, steps), db);
  }

  // ---------------------------------------------------------------------------------------
  // At most once
  // ---------------------------------------------------------------------------------------

  function RunOf(s: System, i: nat): Call
    requires i < |s.runs| && s.runs[i] < |s.calls|
  {
    s.calls[s.runs[i]]
  }

  predicate HasRun(s: System, i: nat) { i < |s.runs| && s.runs[i] < |s.calls| }

  /** The container of a task is run at most once in one execution database. */
  lemma OncePerTask(secret: string, steps: seq<Step>, i: nat, j: nat)
    requires var s := Exec(secret, steps);
             && HasRun(s, i) && HasRun(s, j)
             && RunOf(s, i).db == RunOf(s, j).db && RunOf(s, i).task == RunOf(s, j).task
    ensures i == j
  {
    AlwaysSound(secret, steps);
    var s := Exec(secret, steps);
    assert s.runs[i] == s.runs[j];
  }

  /** And at most once for one approval token, over all databases. */
  lemma OncePerToken(secret: string, steps: seq<Step>, i: nat, j: nat)
    requires var s := Exec(secret, steps);
             HasRun(s, i) && HasRun(s, j) && RunOf(s, i).token == RunOf(s, j).token
    ensures i == j
  {
    AlwaysSound(secret, steps);
    var s := Exec(secret, steps);
    var a, b := RunOf(s, i), RunOf(s, j);
    assert ConsumeCommitted(secret, s.tokens, a) && ConsumeCommitted(secret, s.tokens, b);
    Approval.ConsumedAtMostOnce(secret, s.tokens, a.token, a.consumedAt.value, b.consumedAt.value);
  }

  /** The approval behind a call that has consumed: issued for, and consumed in, the context its claim recorded. */
  ghost predicate ApprovedCall(secret: string, s: System, call: Call) {
    var table := Approval.Exec(secret, s.tokens);
    && call.token in table && table[call.token].consumed && !table[call.token].revoked
    && table[call.token].fields.context == call.ctx
    && exists i: nat :: Approval.IssuesAt(secret, s.tokens, table[call.token].fields, i)
  }

  lemma ConsumedIsApproved(secret: string, s: System, call: Call)
    requires ConsumeCommitted(secret, s.tokens, call) && call.consumedAt.Some?
    ensures ApprovedCall(secret, s, call)
  {
    Approval.ConsumedRecordsHistory(secret, s.tokens, call.token);
    Approval.TableInvariant(secret, s.tokens);
    Approval.ConsumedContextIsIssued(secret, s.tokens, call.token, call.consumedAt.value);
    Approval.RowWasIssued(secret, s.tokens, call.token);
  }

  lemma LaunchIsApproved(secret: string, s: System, step: Step)
    requires Sound(secret, s) && Next(secret, s, step).runs != s.runs
    ensures step.Launch? && step.c < |s.calls| && s.calls[step.c].owner in s.alive
    ensures OwnsRow(s, s.calls[step.c]) && ApprovedCall(secret, s, s.calls[step.c])
  {
    OnlyLaunchRuns(secret, s, step);
    var call := s.calls[step.c];
    assert ConsumeCommitted(secret, s.tokens, call) && call.consumedAt.Some?;
    ConsumedIsApproved(secret, s, call);
  }

  /**
   A run starts only in a `start_task` call of a live controller that holds the task's claim,
   and only when the approval table already shows a token issued for, and consumed in,
   exactly the context whose digest the claim recorded.
   */
  lemma RunsAreApproved(secret: string, steps: seq<Step>, n: nat)
    requires n < |steps|
    requires Exec(secret, steps[..n + 1]).runs != Exec(secret, steps[..n]).runs
    ensures steps[n].Launch?
    ensures var s := Exec(secret, steps[..n]);
            && Exec(secret, steps[..n + 1]).runs == s.runs + [steps[n].c] && steps[n].c < |s.calls|
            && s.calls[steps[n].c].owner in s.alive
            && OwnsRow(s, s.calls[steps[n].c]) && ApprovedCall(secret, s, s.calls[steps[n].c])
    ensures var call := Exec(secret, steps[..n]).calls[steps[n].c];
            call.ctx.action == "task_execution" && call.ctx.taskId == call.task
  {
    assert steps[..n + 1][..n] == steps[..n];
    AlwaysSound(secret, steps[..n]);
    OnlyLaunchRuns(secret, Exec(secret, steps[..n]), steps[n]);
    LaunchIsApproved(secret, Exec(secret, steps[..n]), steps[n]);
  }

  /** A claimed task stays claimed, with the same run, context and token: it is never dispatched anew. */
  lemma {:induction false} ClaimsAreForever(secret: string, steps: seq<Step>, m: nat, c: nat)
    requires m <= |steps| && c < |Exec(secret, steps[..m]).calls|
    ensures var was, now := Exec(secret, steps[..m]), Exec(secret, steps);
            && c < |now.calls| && OwnsRow(now, now.calls[c])
            && now.calls[c] == was.calls[c].(phase := now.calls[c].phase, consumedAt := now.calls[c].consumedAt)
    decreases |steps| - m
  {
    if m == |steps| {
      AlwaysSound(secret, steps);
      assert steps[..m] == steps;
    } else {
      assert steps[..m + 1][..m] == steps[..m];
      CallsProgress(secret, Exec(secret, steps[..m]), steps[m]);
      assert CallStep(Exec(secret, steps[..m]).calls[c], Exec(secret, steps[..m + 1]).calls[c]);
      ClaimsAreForever(secret, steps, m + 1, c);
    }
  }

  // ---------------------------------------------------------------------------------------
  // Recovery and final records
  // ---------------------------------------------------------------------------------------

  predicate FinalRow(s: System, db: DbPath, task: TaskId) {
    task in TableOf(s.dbs, db) && Final(TableOf(s.dbs, db)[task].status)
  }

  /** The row has no result, and the controller that could still write one is dead. */
  predicate Orphan(s: System, db: DbPath, task: TaskId) {
    && task in TableOf(s.dbs, db) && !Final(TableOf(s.dbs, db)[task].status)
    && TableOf(s.dbs, db)[task].owner in s.born && TableOf(s.dbs, db)[task].owner !in s.alive
  }

  /** A claim adds a row; the other steps that write no status leave all rows alone. */
  lemma RowUntouched(secret: string, s: System, step: Step, db: DbPath, task: TaskId)
    requires task in TableOf(s.dbs, db) && !CallWrites(step) && !step.WriteBlocked?
    ensures var table := TableOf(Next(secret, s, step).dbs, db);
            task in table && table[task] == TableOf(s.dbs, db)[task]
  {
  }

  lemma CallWritesRow(secret: string, s: System, step: Step, db: DbPath, task: TaskId)
    requires task in TableOf(s.dbs, db) && CallWrites(step)
    ensures var row := TableOf(s.dbs, db)[task];
            var table := TableOf(Next(secret, s, step).dbs, db);
            && task in table && table[task] == row.(status := table[task].status)
            && (table[task] != row ==> Can(s, step.c) && s.calls[step.c].db == db && s.calls[step.c].run == row.run)
  {
  }

  /** One step changes a row's status at most, and only by a write addressed to its run. */
  lemma RowStep(secret: string, s: System, step: Step, db: DbPath, task: TaskId)
    requires Claims(s) && task in TableOf(s.dbs, db)
    ensures var row := TableOf(s.dbs, db)[task];
            var table := TableOf(Next(secret, s, step).dbs, db);
            && task in table && table[task] == row.(status := table[task].status)
            && (table[task] != row ==>
                  || (CallWrites(step) && Can(s, step.c) && s.calls[step.c].db == db && s.calls[step.c].run == row.run)
                  || (step.WriteBlocked? && step.r < |s.recoveries| && s.recoveries[step.r].phase.OwnerFoundGone?
                      && s.recoveries[step.r].db == db && s.recoveries[step.r].seen.run == row.run
                      && table[task].status.BLOCKED?))
  {
    if CallWrites(step) { CallWritesRow(secret, s, step, db, task); }
    else if !step.WriteBlocked? { RowUntouched(secret, s, step, db, task); }
  }

  /** A call's writes reach its own row and no other. */
  lemma WriterOwnsRow(s: System, db: DbPath, task: TaskId)
    requires Claims(s) && task in TableOf(s.dbs, db)
    ensures forall c | 0 <= c < |s.calls| && s.calls[c].db == db && s.calls[c].run == TableOf(s.dbs, db)[task].run ::
              && s.calls[c].task == task && s.calls[c].owner == TableOf(s.dbs, db)[task].owner
              && (Final(TableOf(s.dbs, db)[task].status) ==> s.calls[c].phase.Closed?)
  {
    forall c | 0 <= c < |s.calls| && s.calls[c].db == db && s.calls[c].run == TableOf(s.dbs, db)[task].run
      ensures && s.calls[c].task == task && s.calls[c].owner == TableOf(s.dbs, db)[task].owner
              && (Final(TableOf(s.dbs, db)[task].status) ==> s.calls[c].phase.Closed?)
    {
      assert OwnsRow(s, s.calls[c]);
      assert UniqueRuns(s.dbs[db]);
    }
  }

  /** Whoever overwrites a result, it is a recovery that read the row before there was one. */
  lemma OnlyRecoveryOverwrites(secret: string, s: System, step: Step, db: DbPath, task: TaskId)
    requires Claims(s) && FinalRow(s, db, task)
    ensures var row := TableOf(s.dbs, db)[task];
            var table := TableOf(Next(secret, s, step).dbs, db);
            && task in table
            && (table[task] != row ==>
                  && step.WriteBlocked? && step.r < |s.recoveries| && s.recoveries[step.r].phase.OwnerFoundGone?
                  && s.recoveries[step.r].db == db && s.recoveries[step.r].seen.run == row.run
                  && table[task] == row.(status := BLOCKED))
  {
    RowStep(secret, s, step, db, task);
    WriterOwnsRow(s, db, task);
  }

  /** Once its owner is dead, a row without a result never gets one. */
  lemma OrphanStays(secret: string, s: System, step: Step, db: DbPath, task: TaskId)
    requires Claims(s) && Orphan(s, db, task)
    ensures Orphan(Next(secret, s, step), db, task)
  {
    RowStep(secret, s, step, db, task);
    WriterOwnsRow(s, db, task);
  }

  /** The operator stops the controller that claimed a task before asking for its recovery. */
  ghost predicate Serialized(s: System, step: Step) {
    step.ReadRecord? && step.task in TableOf(s.dbs, step.db) ==> TableOf(s.dbs, step.db)[step.task].owner !in s.alive
  }

  ghost predicate AllSerialized(secret: string, steps: seq<Step>) {
    forall i | 0 <= i < |steps| :: Serialized(Exec(secret, steps[..i]), steps[i])
  }

  ghost predicate RecoversOrphan(s: System, r: Recovery) {
    r.phase.Over? || (Orphan(s, r.db, r.task) && TableOf(s.dbs, r.db)[r.task].run == r.seen.run)
  }

  ghost predicate RecoversOrphans(s: System) {
    forall r | 0 <= r < |s.recoveries| :: RecoversOrphan(s, s.recoveries[r])
  }

  lemma RecoversOrphansKept(secret: string, s: System, step: Step)
    requires Claims(s) && Processes(s) && RecoversOrphans(s) && Serialized(s, step)
    ensures RecoversOrphans(Next(secret, s, step))
  {
    var next := Next(secret, s, step);
    forall r | 0 <= r < |next.recoveries| ensures RecoversOrphan(next, next.recoveries[r]) {
      if r < |s.recoveries| && !s.recoveries[r].phase.Over? {
        assert RecoversOrphan(s, s.recoveries[r]);
        OrphanStays(secret, s, step, s.recoveries[r].db, s.recoveries[r].task);
        RowStep(secret, s, step, s.recoveries[r].db, s.recoveries[r].task);
      }
    }
  }

  lemma {:induction false} SerializedRecoversOrphans(secret: string, steps: seq<Step>)
    requires AllSerialized(secret, steps)
    ensures RecoversOrphans(Exec(secret, steps))
  {
    if steps != [] {
      var n := |steps| - 1;
      forall i | 0 <= i < n ensures Serialized(Exec(secret, steps[..n][..i]), steps[..n][i]) {
        assert steps[..n][..i] == steps[..i];
      }
      SerializedRecoversOrphans(secret, steps[..n]);
      AlwaysSound(secret, steps[..n]);
      RecoversOrphansKept(secret, Exec(secret, steps[..n]), steps[n]);
    }
  }

  /** With serialized recoveries a SUCCESS or FAILED record is never touched again. */
  lemma {:induction false} ResultsAreFinal(secret: string, steps: seq<Step>, m: nat, db: DbPath, task: TaskId)
    requires AllSerialized(secret, steps) && m <= |steps| && FinalRow(Exec(secret, steps[..m]), db, task)
    ensures FinalRow(Exec(secret, steps), db, task)
    ensures TableOf(Exec(secret, steps).dbs, db)[task] == TableOf(Exec(secret, steps[..m]).dbs, db)[task]
    decreases |steps| - m
  {
    if m == |steps| {
      assert steps[..m] == steps;
    } else {
      assert steps[..m + 1][..m] == steps[..m];
      ResultStays(secret, steps, m, db, task);
      ResultsAreFinal(secret, steps, m + 1, db, task);
    }
  }

  lemma ResultStays(secret: string, steps: seq<Step>, m: nat, db: DbPath, task: TaskId)
    requires AllSerialized(secret, steps) && m < |steps| && FinalRow(Exec(secret, steps[..m]), db, task)
    ensures var s := Exec(secret, steps[..m]);
            var after := TableOf(Next(secret, s, steps[m]).dbs, db);
            task in after && after[task] == TableOf(s.dbs, db)[task]
  {
    var s := Exec(secret, steps[..m]);
    forall i | 0 <= i < m ensures Serialized(Exec(secret, steps[..m][..i]), steps[..m][i]) {
      assert steps[..m][..i] == steps[..i];
    }
    AlwaysSound(secret, steps[..m]);
    SerializedRecoversOrphans(secret, steps[..m]);
    OnlyRecoveryOverwrites(secret, s, steps[m], db, task);
  }

  // ---------------------------------------------------------------------------------------
  // Without serialization
  // ---------------------------------------------------------------------------------------

  /** What `more` further steps make of a state. */
  function After(secret: string, s: System, more: seq<Step>): System {
    if more == [] then s else Next(secret, After(secret, s, more[..|more| - 1]), more[|more| - 1])
  }

  /** The BLOCKED write of recovery `r`, made now, replaces a result. */
  predicate Loses(secret: string, s: System, r: nat) {
    && r < |s.recoveries| && FinalRow(s, s.recoveries[r].db, s.recoveries[r].task)
    && !FinalRow(Next(secret, s, WriteBlocked(r)), s.recoveries[r].db, s.recoveries[r].task)
  }

  /** Things can go on so that the BLOCKED write of recovery `r` replaces a result. */
  ghost predicate LostBy(secret: string, s: System, r: nat) {
    exists more: seq<Step> :: Loses(secret, After(secret, s, more), r)
  }

  /** The row recovery `r` has read is the one call `c` claimed. */
  predicate SameRow(s: System, r: nat, c: nat) {
    && r < |s.recoveries| && c < |s.calls|
    && s.recoveries[r].db == s.calls[c].db && s.recoveries[r].task == s.calls[c].task
  }

  /** The call's token can still be consumed in the call's context: it is live, or not issued yet. */
  predicate Consumable(secret: string, tokens: seq<Approval.Step>, call: Call) {
    var table := Approval.Exec(secret, tokens);
    call.token in table ==>
      && !table[call.token].consumed && !table[call.token].revoked
      && table[call.token].fields.expiresAt.Instant? && table[call.token].fields.context == call.ctx
  }

  /** The call may yet come to a result. */
  predicate MayRecord(secret: string, s: System, c: nat)
    requires c < |s.calls|
  {
    && s.calls[c].owner in s.alive
    && (PastConsume(s.calls[c].phase) || (s.calls[c].phase.Claimed? && Consumable(secret, s.tokens, s.calls[c])))
  }

  // What recoveries keep

  ghost predicate RecoveryFits(s: System, rec: Recovery) {
    && rec.task in TableOf(s.dbs, rec.db) && rec.reader in s.born
    && TableOf(s.dbs, rec.db)[rec.task].run == rec.seen.run && TableOf(s.dbs, rec.db)[rec.task].owner == rec.seen.owner
    && (rec.phase.OwnerFoundGone? ==> rec.seen.owner !in s.alive)
  }

  ghost predicate RecoveriesFit(s: System) { forall r | 0 <= r < |s.recoveries| :: RecoveryFits(s, s.recoveries[r]) }

  /** A recovery keeps what it read; only its phase moves, and it never reopens. */
  predicate RecoveryStep(a: Recovery, b: Recovery) {
    && b == a.(phase := b.phase) && (a.phase.Over? ==> b.phase.Over?) && (b.phase.Read? ==> a.phase.Read?)
  }

  lemma RecoveriesProgress(secret: string, s: System, step: Step, r: nat)
    requires r < |s.recoveries|
    ensures r < |Next(secret, s, step).recoveries| && RecoveryStep(s.recoveries[r], Next(secret, s, step).recoveries[r])
    ensures Next(secret, s, step).recoveries[r].phase.OwnerFoundGone? ==>
              || s.recoveries[r].phase.OwnerFoundGone?
              || (Next(secret, s, step).alive == s.alive && s.recoveries[r].seen.owner !in s.alive)
  {
  }

  /** The dead stay dead. */
  lemma DeadStay(secret: string, s: System, step: Step, p: Process)
    requires p in s.born
    ensures p in Next(secret, s, step).born && (p in Next(secret, s, step).alive ==> p in s.alive)
  {
  }

  lemma NewRecoveryFits(secret: string, s: System, step: Step, r: nat)
    requires Processes(s) && |s.recoveries| <= r < |Next(secret, s, step).recoveries|
    ensures RecoveryFits(Next(secret, s, step), Next(secret, s, step).recoveries[r])
  {
  }

  lemma RecoveriesFitKept(secret: string, s: System, step: Step)
    requires Claims(s) && Processes(s) && RecoveriesFit(s)
    ensures RecoveriesFit(Next(secret, s, step))
  {
    var next := Next(secret, s, step);
    forall r | 0 <= r < |next.recoveries| ensures RecoveryFits(next, next.recoveries[r]) {
      if r >= |s.recoveries| {
        NewRecoveryFits(secret, s, step, r);
      } else {
        var rec := s.recoveries[r];
        assert RecoveryFits(s, rec);
        RecoveriesProgress(secret, s, step, r);
        RowStep(secret, s, step, rec.db, rec.task);
        DeadStay(secret, s, step, rec.reader);
        DeadStay(secret, s, step, rec.seen.owner);
      }
    }
  }

  lemma {:induction false} RecoveriesAlwaysFit(secret: string, steps: seq<Step>)
    ensures RecoveriesFit(Exec(secret, steps))
  {
    if steps != [] {
      RecoveriesAlwaysFit(secret, steps[..|steps| - 1]);
      AlwaysSound(secret, steps[..|steps| - 1]);
      RecoveriesFitKept(secret, Exec(secret, steps[..|steps| - 1]), steps[|steps| - 1]);
    }
  }

  // Continuations

  lemma AfterNext(secret: string, s: System, more: seq<Step>, step: Step)
    ensures After(secret, s, more + [step]) == Next(secret, After(secret, s, more), step)
  {
    assert (more + [step])[..|more|] == more;
  }

  lemma {:induction false} AfterFirst(secret: string, s: System, step: Step, more: seq<Step>)
    ensures After(secret, s, [step] + more) == After(secret, Next(secret, s, step), more)
  {
    if more == [] {
      assert [step] + more == [step] && [step][..0] == [];
    } else {
      var init, last := more[..|more| - 1], more[|more| - 1];
      AfterFirst(secret, s, step, init);
      AfterNext(secret, s, [step] + init, last);
      assert [step] + init + [last] == [step] + more;
    }
  }

  /** What can be lost after one more step can be lost now. */
  lemma LostLater(secret: string, s: System, step: Step, r: nat)
    requires LostBy(secret, Next(secret, s, step), r)
    ensures LostBy(secret, s, r)
  {
    var more: seq<Step> :| Loses(secret, After(secret, Next(secret, s, step), more), r);
    AfterFirst(secret, s, step, more);
    assert Loses(secret, After(secret, s, [step] + more), r);
  }

  lemma LostNow(secret: string, s: System, r: nat)
    requires Loses(secret, s, r)
    ensures LostBy(secret, s, r)
  {
    assert Loses(secret, After(secret, s, []), r);
  }

  // How a result is lost

  /** Recovery `r` is under way, its reader alive, and the row it read belongs to another process. */
  ghost predicate UnderWay(s: System, r: nat, c: nat) {
    && Claims(s) && Processes(s) && RecoveriesFit(s) && SameRow(s, r, c)
    && s.recoveries[r].reader in s.alive && s.recoveries[r].reader != s.calls[c].owner
  }

  lemma UnderWayStays(secret: string, s: System, step: Step, r: nat, c: nat)
    requires UnderWay(s, r, c) && (step.Die? ==> step.p != s.recoveries[r].reader)
    ensures UnderWay(Next(secret, s, step), r, c)
    ensures RecoveryStep(s.recoveries[r], Next(secret, s, step).recoveries[r])
    ensures CallStep(s.calls[c], Next(secret, s, step).calls[c])
  {
    ClaimsKept(secret, s, step);
    ProcessesKept(secret, s, step);
    RecoveriesFitKept(secret, s, step);
    RecoveriesProgress(secret, s, step, r);
    CallsProgress(secret, s, step);
    assert CallStep(s.calls[c], Next(secret, s, step).calls[c]);
  }

  /** A recovery that found the owner gone overwrites whatever the row says by now. */
  lemma GoneIsErased(secret: string, s: System, r: nat, c: nat)
    requires UnderWay(s, r, c) && FinalRow(s, s.calls[c].db, s.calls[c].task) && s.recoveries[r].phase.OwnerFoundGone?
    ensures Loses(secret, s, r)
  {
    assert RecoveryFits(s, s.recoveries[r]);
  }

  lemma DeadIsGone(secret: string, s: System, r: nat, c: nat)
    requires UnderWay(s, r, c) && FinalRow(s, s.calls[c].db, s.calls[c].task) && s.recoveries[r].phase.Read?
    requires s.calls[c].owner !in s.alive
    ensures LostBy(secret, s, r)
  {
    var next := Next(secret, s, CheckOwner(r, true));
    assert RecoveryFits(s, s.recoveries[r]) && OwnsRow(s, s.calls[c]);
    assert OwnerGone(s.alive, s.recoveries[r].seen.owner, true);
    UnderWayStays(secret, s, CheckOwner(r, true), r, c);
    GoneIsErased(secret, next, r, c);
    LostNow(secret, next, r);
    LostLater(secret, s, CheckOwner(r, true), r);
  }

  /** A recorded result goes when its controller ends before the recovery looks for it. */
  lemma ResultGoes(secret: string, s: System, r: nat, c: nat)
    requires UnderWay(s, r, c) && FinalRow(s, s.calls[c].db, s.calls[c].task) && !s.recoveries[r].phase.Over?
    ensures LostBy(secret, s, r)
  {
    if s.recoveries[r].phase.OwnerFoundGone? {
      GoneIsErased(secret, s, r, c);
      LostNow(secret, s, r);
    } else {
      var step := Die(s.calls[c].owner);
      UnderWayStays(secret, s, step, r, c);
      DeadIsGone(secret, Next(secret, s, step), r, c);
      LostLater(secret, s, step, r);
    }
  }

  /** A token for the call, should nobody have issued it yet. */
  function FieldsFor(call: Call): Approval.Fields {
    Approval.Fields(call.token, call.ctx, "", 0, Approval.Instant(0), None, None)
  }

  /** How a call that may record a result goes on towards it. */
  function NextOf(secret: string, s: System, c: nat): Step
    requires c < |s.calls| && MayRecord(secret, s, c)
  {
    var table, call := Approval.Exec(secret, s.tokens), s.calls[c];
    match call.phase
    case Claimed =>
      if call.token in table then Consume(c, Approval.Env(false, false, map[], table[call.token].fields.expiresAt.time))
      else Token(Approval.DoIssue(FieldsFor(call), true))
    case Consumed => Admit(c)
    case Admitted => Launch(c)
    case Running => Return(c, Report(0, "", None, []))
    case _ => Conclude(c)
  }

  function ToGo(secret: string, s: System, c: nat): nat
    requires c < |s.calls|
  {
    match s.calls[c].phase
    case Claimed => if s.calls[c].token in Approval.Exec(secret, s.tokens) then 5 else 6
    case Consumed => 4
    case Admitted => 3
    case Running => 2
    case Ran(_) => 1
    case _ => 0
  }

  lemma TokenArrives(secret: string, s: System, c: nat)
    requires c < |s.calls| && MayRecord(secret, s, c) && s.calls[c].phase.Claimed?
    requires s.calls[c].token !in Approval.Exec(secret, s.tokens)
    ensures var next := Next(secret, s, NextOf(secret, s, c));
            && next == s.(tokens := next.tokens) && s.calls[c].token in Approval.Exec(secret, next.tokens)
            && MayRecord(secret, next, c)
  {
    TokensNext(secret, s.tokens, Approval.DoIssue(FieldsFor(s.calls[c]), true));
  }

  lemma TokenIsConsumed(secret: string, s: System, c: nat)
    requires c < |s.calls| && MayRecord(secret, s, c) && s.calls[c].phase.Claimed?
    requires s.calls[c].token in Approval.Exec(secret, s.tokens)
    ensures var next := Next(secret, s, NextOf(secret, s, c));
            next.dbs == s.dbs && next.alive == s.alive && |next.calls| == |s.calls| && next.calls[c].phase.Consumed?
            && next.calls[c].owner == s.calls[c].owner
  {
    var env := NextOf(secret, s, c).env;
    Approval.ConsumeSucceedsExactly(secret, s.tokens, env, s.calls[c].token, s.calls[c].ctx);
    ConsumeOutcome(secret, s, c, env);
  }

  lemma CallAdvances(secret: string, s: System, c: nat)
    requires c < |s.calls| && MayRecord(secret, s, c) && PastConsume(s.calls[c].phase) && !s.calls[c].phase.Ran?
    ensures var next := Next(secret, s, NextOf(secret, s, c));
            && c < |next.calls| && MayRecord(secret, next, c) && ToGo(secret, next, c) < ToGo(secret, s, c)
  {
  }

  lemma ResultIsRecorded(secret: string, s: System, c: nat)
    requires Claims(s) && Can(s, c) && s.calls[c].phase.Ran?
    ensures FinalRow(Next(secret, s, Conclude(c)), s.calls[c].db, s.calls[c].task)
  {
    assert OwnsRow(s, s.calls[c]);
  }

  /** One step on the way: the result is there, or still coming and nearer. */
  lemma GoesOn(secret: string, s: System, c: nat)
    requires Claims(s) && c < |s.calls| && MayRecord(secret, s, c)
    ensures var next := Next(secret, s, NextOf(secret, s, c));
            || FinalRow(next, s.calls[c].db, s.calls[c].task)
            || (c < |next.calls| && MayRecord(secret, next, c) && ToGo(secret, next, c) < ToGo(secret, s, c))
  {
    if s.calls[c].phase.Claimed? {
      if s.calls[c].token in Approval.Exec(secret, s.tokens) {
        TokenIsConsumed(secret, s, c);
      } else {
        TokenArrives(secret, s, c);
      }
    } else if s.calls[c].phase.Ran? {
      ResultIsRecorded(secret, s, c);
    } else {
      CallAdvances(secret, s, c);
    }
  }

  lemma NextOfSparesRecoveries(secret: string, s: System, c: nat)
    requires c < |s.calls| && MayRecord(secret, s, c)
    ensures Next(secret, s, NextOf(secret, s, c)).recoveries == s.recoveries && !NextOf(secret, s, c).Die?
  {
  }

  /** While the call may still record a result, things can go on so that the recovery erases it. */
  lemma {:induction false} ResultComesAndGoes(secret: string, s: System, r: nat, c: nat)
    requires UnderWay(s, r, c) && s.recoveries[r].phase.Read? && MayRecord(secret, s, c)
    ensures LostBy(secret, s, r)
    decreases ToGo(secret, s, c)
  {
    var step := NextOf(secret, s, c);
    var next := Next(secret, s, step);
    GoesOn(secret, s, c);
    NextOfSparesRecoveries(secret, s, c);
    UnderWayStays(secret, s, step, r, c);
    if FinalRow(next, s.calls[c].db, s.calls[c].task) {
      ResultGoes(secret, next, r, c);
    } else {
      ResultComesAndGoes(secret, next, r, c);
    }
    LostLater(secret, s, step, r);
  }

  // When nothing can be lost

  /** The call can no longer record a result. */
  predicate NoResultComing(secret: string, s: System, c: nat) {
    && c < |s.calls| && !FinalRow(s, s.calls[c].db, s.calls[c].task) && s.calls[c].owner in s.born
    && !MayRecord(secret, s, c)
  }

  /** What is wrong with a token stays wrong with it. */
  lemma UnconsumableStays(secret: string, tokens: seq<Approval.Step>, t: Approval.Step, call: Call)
    requires !Consumable(secret, tokens, call)
    ensures !Consumable(secret, tokens + [t], call)
  {
    TokensNext(secret, tokens, t);
    Approval.StepEffect(secret, Approval.Exec(secret, tokens), t, call.token);
  }

  lemma TokensGrow(secret: string, s: System, step: Step)
    ensures var next := Next(secret, s, step).tokens; next == s.tokens || next == s.tokens + [next[|s.tokens|]]
  {
  }

  /** A consume of a token that is no good sends its call into the handler. */
  lemma UnconsumableRaises(secret: string, s: System, c: nat, env: Approval.Env)
    requires Can(s, c) && s.calls[c].phase.Claimed? && !Consumable(secret, s.tokens, s.calls[c])
    ensures Next(secret, s, Consume(c, env)).calls[c].phase.Raised?
  {
    Approval.ConsumeSucceedsExactly(secret, s.tokens, env, s.calls[c].token, s.calls[c].ctx);
    ConsumeOutcome(secret, s, c, env);
  }

  lemma ClaimedMovesOn(secret: string, s: System, step: Step, c: nat)
    requires c < |s.calls| && s.calls[c].phase.Claimed? && PastConsume(Next(secret, s, step).calls[c].phase)
    ensures step.Consume? && step.c == c && Can(s, c)
  {
  }

  lemma CannotRecordStays(secret: string, s: System, step: Step, c: nat)
    requires c < |s.calls| && s.calls[c].owner in s.born && !MayRecord(secret, s, c)
    ensures c < |Next(secret, s, step).calls| && !MayRecord(secret, Next(secret, s, step), c)
  {
    var next := Next(secret, s, step);
    CallsProgress(secret, s, step);
    assert CallStep(s.calls[c], next.calls[c]);
    DeadStay(secret, s, step, s.calls[c].owner);
    if s.calls[c].owner in s.alive && s.calls[c].phase.Claimed? {
      TokensGrow(secret, s, step);
      if next.tokens != s.tokens { UnconsumableStays(secret, s.tokens, next.tokens[|s.tokens|], s.calls[c]); }
      if PastConsume(next.calls[c].phase) {
        ClaimedMovesOn(secret, s, step, c);
        UnconsumableRaises(secret, s, c, step.env);
      }
    } else {
      StoppedStays(secret, s, step, c);
    }
  }

  lemma StoppedStays(secret: string, s: System, step: Step, c: nat)
    requires c < |s.calls| && c < |Next(secret, s, step).calls|
    ensures s.calls[c].phase.Raised? || s.calls[c].phase.Closed? ==>
              Next(secret, s, step).calls[c].phase.Raised? || Next(secret, s, step).calls[c].phase.Closed?
  {
  }

  lemma NoResultStays(secret: string, s: System, step: Step, c: nat)
    requires Claims(s) && NoResultComing(secret, s, c)
    ensures NoResultComing(secret, Next(secret, s, step), c)
    ensures Next(secret, s, step).calls[c].db == s.calls[c].db && Next(secret, s, step).calls[c].task == s.calls[c].task
  {
    assert OwnsRow(s, s.calls[c]);
    CallsProgress(secret, s, step);
    assert CallStep(s.calls[c], Next(secret, s, step).calls[c]);
    CannotRecordStays(secret, s, step, c);
    DeadStay(secret, s, step, s.calls[c].owner);
    RowStep(secret, s, step, s.calls[c].db, s.calls[c].task);
    WriterOwnsRow(s, s.calls[c].db, s.calls[c].task);
  }

  lemma {:induction false} NoResultForever(secret: string, s: System, more: seq<Step>, c: nat)
    requires Sound(secret, s) && NoResultComing(secret, s, c)
    ensures var after := After(secret, s, more);
            && Claims(after) && NoResultComing(secret, after, c)
            && after.calls[c].db == s.calls[c].db && after.calls[c].task == s.calls[c].task
  {
    if more != [] {
      var n := |more| - 1;
      NoResultForever(secret, s, more[..n], c);
      ClaimsKept(secret, After(secret, s, more[..n]), more[n]);
      NoResultStays(secret, After(secret, s, more[..n]), more[n], c);
    }
  }

  /** A recovery later on, seen from now. */
  lemma {:induction false} RecoveryForever(secret: string, s: System, more: seq<Step>, r: nat)
    requires Sound(secret, s) && RecoveriesFit(s) && r < |s.recoveries|
    ensures var after := After(secret, s, more);
            && Claims(after) && Processes(after) && RecoveriesFit(after)
            && r < |after.recoveries| && RecoveryStep(s.recoveries[r], after.recoveries[r])
            && (s.recoveries[r].reader in after.alive ==> s.recoveries[r].reader in s.alive)
  {
    if more != [] {
      var n := |more| - 1;
      RecoveryForever(secret, s, more[..n], r);
      var before := After(secret, s, more[..n]);
      assert RecoveryFits(before, before.recoveries[r]);
      ClaimsKept(secret, before, more[n]);
      ProcessesKept(secret, before, more[n]);
      RecoveriesFitKept(secret, before, more[n]);
      RecoveriesProgress(secret, before, more[n], r);
      DeadStay(secret, before, more[n], s.recoveries[r].reader);
    }
  }

  /** Whoever erases a result is alive, not the row's owner, and had not finished before. */
  lemma EraserIsAnother(secret: string, s: System, r: nat, c: nat, more: seq<Step>)
    requires Sound(secret, s) && RecoveriesFit(s) && SameRow(s, r, c) && Loses(secret, After(secret, s, more), r)
    ensures s.recoveries[r].reader in s.alive && s.recoveries[r].reader != s.calls[c].owner
    ensures !s.recoveries[r].phase.Over?
  {
    RecoveryForever(secret, s, more, r);
    var after := After(secret, s, more);
    assert RecoveryFits(after, after.recoveries[r]) && RecoveryFits(s, s.recoveries[r]) && OwnsRow(s, s.calls[c]);
  }

  /** Nothing that is not recorded and not coming can be lost. */
  lemma NothingToLose(secret: string, s: System, r: nat, c: nat)
    requires Sound(secret, s) && RecoveriesFit(s) && SameRow(s, r, c) && NoResultComing(secret, s, c)
    ensures !LostBy(secret, s, r)
  {
    forall more: seq<Step> ensures !Loses(secret, After(secret, s, more), r) {
      NoResultForever(secret, s, more, c);
      RecoveryForever(secret, s, more, r);
    }
  }

  /** A recovery that found the owner gone had no result to lose then, and none is coming. */
  lemma GoneMeansNoneComing(secret: string, s: System, r: nat, c: nat)
    requires Sound(secret, s) && RecoveriesFit(s) && SameRow(s, r, c) && s.recoveries[r].phase.OwnerFoundGone?
    ensures !MayRecord(secret, s, c)
  {
    assert RecoveryFits(s, s.recoveries[r]) && OwnsRow(s, s.calls[c]);
  }

  /**
   Recovery reads the row first and looks for the owner afterwards, then writes BLOCKED
   whatever the row says by then.  So a recovery can erase the result of the call whose row it
   has read exactly when it runs in another, living process, has not finished, and either the
   result is there already, or it has not looked for the owner yet and the call may still
   record one: its controller is alive, and it has consumed its token or still can.
   */
  lemma RecoveryLosesResultsExactly(secret: string, steps: seq<Step>, r: nat, c: nat)
    requires SameRow(Exec(secret, steps), r, c)
    ensures var s := Exec(secret, steps);
            var rec := s.recoveries[r];
            LostBy(secret, s, r) <==>
              && rec.reader in s.alive && rec.reader != s.calls[c].owner && !rec.phase.Over?
              && (FinalRow(s, rec.db, rec.task) || (rec.phase.Read? && MayRecord(secret, s, c)))
  {
    var s := Exec(secret, steps);
    AlwaysSound(secret, steps);
    RecoveriesAlwaysFit(secret, steps);
    assert OwnsRow(s, s.calls[c]);
    if s.recoveries[r].phase.OwnerFoundGone? { GoneMeansNoneComing(secret, s, r, c); }
    if more: seq<Step> :| Loses(secret, After(secret, s, more), r) { EraserIsAnother(secret, s, r, c, more); }
    if s.recoveries[r].reader in s.alive && s.recoveries[r].reader != s.calls[c].owner && !s.recoveries[r].phase.Over? {
      if FinalRow(s, s.calls[c].db, s.calls[c].task) {
        ResultGoes(secret, s, r, c);
      } else if MayRecord(secret, s, c) {
        ResultComesAndGoes(secret, s, r, c);
      } else {
        NothingToLose(secret, s, r, c);
      }
    }
  }

  // ---------------------------------------------------------------------------------------
  // The adapter object
  // ---------------------------------------------------------------------------------------

  datatype AdmissionError =
    | TokenRequired | IdentityUnavailable | AlreadyClaimed | SnapshotFailed | NotApproved(error: Approval.ApprovalError)
    | ExecutionRefused | NoRecord | ContextDiffers | ControllerAlive | ReconcileFailed | NoResult

  /** What the runner and the verification of its artifacts come to. */
  datatype RunnerAnswer = Exited(report: Report, sameRun: bool, verified: bool) | RunnerRaised

  /** An exit code of 0 counts only with verified artifacts; anything unexpected is an exception. */
  function Verdict(answer: RunnerAnswer): Option<Report> {
    if answer.RunnerRaised? || !answer.sameRun || (answer.report.exitCode == 0 && !answer.verified) then None
    else Some(answer.report)
  }

  function StatusAfter(run: RunId, ctx: Approval.Context, verdict: Option<Report>): Status {
    if verdict.Some? then Recorded(run, ctx.argvDigest, verdict.value) else BLOCKED
  }

  /**
   What an answer leaves of the row: SUCCESS for an exit with 0 of this run whose artifacts were
   verified, FAILED for any other exit of this run, with what the runner reported; else BLOCKED.
   */
  lemma StatusExactly(run: RunId, ctx: Approval.Context, answer: RunnerAnswer)
    ensures var status := StatusAfter(run, ctx, Verdict(answer));
            && (status.SUCCESS? <==>
                  answer.Exited? && answer.sameRun && answer.report.exitCode == 0 && answer.verified)
            && (status.FAILED? <==> answer.Exited? && answer.sameRun && answer.report.exitCode != 0)
            && (!status.SUCCESS? && !status.FAILED? ==> status.BLOCKED?)
            && (status.SUCCESS? || status.FAILED? ==>
                  && status.result.run == run && status.result.executionDigest == ctx.argvDigest
                  && status.result.report == answer.report)
  {
  }

  /** The row a start leaves, when it could claim the task. */
  ghost predicate StartedRow(row: Record, run: RunId, ctx: Approval.Context, token: Approval.TokenId, owner: Process,
                             snapshotTaken: bool, approved: bool, answer: RunnerAnswer) {
    && row.run == run && row.digest.of == ctx && row.token == token && row.owner == owner
    && (row.status.RESERVED? <==> !snapshotTaken)
    && (row.status.SUCCESS? <==>
          && snapshotTaken && approved
          && answer.Exited? && answer.sameRun && answer.report.exitCode == 0 && answer.verified)
    && (row.status.FAILED? <==>
          snapshotTaken && approved && answer.Exited? && answer.sameRun && answer.report.exitCode != 0)
    && !row.status.ADMITTED?
    && (row.status.SUCCESS? || row.status.FAILED? ==>
          && row.status.result.run == run && row.status.result.executionDigest == ctx.argvDigest
          && row.status.result.report == answer.report)
  }

  lemma ExecNext(secret: string, steps: seq<Step>, step: Step)
    ensures Exec(secret, steps + [step]) == Next(secret, Exec(secret, steps), step)
  {
    assert (steps + [step])[..|steps|] == steps;
  }

  /** A consume moves its call on or into its handler, and touches no execution database. */
  lemma ConsumeOutcome(secret: string, s: System, c: nat, env: Approval.Env)
    requires Can(s, c) && s.calls[c].phase.Claimed?
    ensures var next := Next(secret, s, Consume(c, env));
            var table := Approval.Exec(secret, s.tokens);
            var ok := Approval.Consume(secret, env, table, s.calls[c].token, s.calls[c].ctx).Ok?;
            && next.dbs == s.dbs && next.runs == s.runs && next.alive == s.alive && |next.calls| == |s.calls|
            && next.calls[c] == if ok then s.calls[c].(phase := Consumed, consumedAt := Some(|s.tokens|))
                                else s.calls[c].(phase := Raised)
  {
  }

  lemma TokensNext(secret: string, tokens: seq<Approval.Step>, t: Approval.Step)
    ensures Approval.Exec(secret, tokens + [t]) == Approval.After(secret, Approval.Exec(secret, tokens), t)
  {
    assert (tokens + [t])[..|tokens|] == tokens;
  }

  /**
   One controller's adapter.  `history` is everything that has happened to the shared
   databases so far; the fields are what the database then holds.
   */
  class ApprovedContainerAdapter {
    const db: DbPath
    const approvals: Approval.ApprovalManager
    var executions: Table
    ghost var history: seq<Step>

    ghost function World(): System
      reads this`history, approvals
    {
      Exec(approvals.secret, history)
    }

    ghost predicate Valid()
      reads this, approvals
    {
      executions == TableOf(World().dbs, db) && approvals.table == Approval.Exec(approvals.secret, World().tokens)
    }

    constructor (db: DbPath, approvals: Approval.ApprovalManager, executions: Table, ghost history: seq<Step>)
      requires executions == TableOf(Exec(approvals.secret, history).dbs, db)
      requires approvals.table == Approval.Exec(approvals.secret, Exec(approvals.secret, history).tokens)
      ensures Valid() && this.db == db && this.approvals == approvals && this.history == history
    {
      this.db, this.approvals, this.executions, this.history := db, approvals, executions, history;
    }

    /** An event of this controller that writes nothing here. */
    ghost method Note(step: Step)
      requires Valid()
      requires Next(approvals.secret, World(), step).tokens == World().tokens
      requires TableOf(Next(approvals.secret, World(), step).dbs, db) == executions
      modifies this`history
      ensures Valid() && history == old(history) + [step] && World() == Next(approvals.secret, old(World()), step)
    {
      ExecNext(approvals.secret, history, step);
      history := history + [step];
    }

    /** INSERT; the primary key and the unique run id decide. */
    method Claim(task: TaskId, run: RunId, ctx: Approval.Context, token: Approval.TokenId, owner: Process)
        returns (ok: bool)
      requires Valid() && owner in World().alive && token != ""
      requires ctx.action == "task_execution" && ctx.taskId == task
      modifies this
      ensures Valid() && history == old(history) + [Reserve(db, task, run, ctx, token, owner)]
      ensures World() == Next(approvals.secret, old(World()), Reserve(db, task, run, ctx, token, owner))
      ensures ok <==> Claimable(old(executions), task, run)
      ensures executions == if ok then old(executions)[task := Record(run, Sha256(ctx), token, RESERVED, owner)]
                            else old(executions)
    {
      ExecNext(approvals.secret, history, Reserve(db, task, run, ctx, token, owner));
      history := history + [Reserve(db, task, run, ctx, token, owner)];
      ok := task !in executions && forall t | t in executions :: executions[t].run != run;
      if ok { executions := executions[task := Record(run, Sha256(ctx), token, RESERVED, owner)]; }
    }

    /** UPDATE of the status, addressed by run id; `step` says on whose behalf. */
    method WriteStatus(run: RunId, status: Status, ghost step: Step)
      requires Valid()
      requires Next(approvals.secret, World(), step).tokens == World().tokens
      requires TableOf(Next(approvals.secret, World(), step).dbs, db) == SetStatus(executions, run, status)
      modifies this
      ensures Valid() && history == old(history) + [step] && World() == Next(approvals.secret, old(World()), step)
      ensures executions == SetStatus(old(executions), run, status)
    {
      ExecNext(approvals.secret, history, step);
      history := history + [step];
      executions := map t | t in executions ::
        if executions[t].run == run then executions[t].(status := status) else executions[t];
    }

    method ConsumeToken(ghost c: nat, token: Approval.TokenId, ctx: Approval.Context, env: Approval.Env)
        returns (e: Option<Approval.ApprovalError>)
      requires Valid() && Can(World(), c) && World().calls[c].phase.Claimed?
      requires World().calls[c].token == token && World().calls[c].ctx == ctx
      modifies this, approvals
      ensures Valid() && history == old(history) + [Consume(c, env)] && executions == old(executions)
      ensures World() == Next(approvals.secret, old(World()), Consume(c, env))
      ensures var spec := Approval.Consume(approvals.secret, env, old(approvals.table), token, ctx);
              && (e.None? <==> spec.Ok?) && (e.Some? ==> e.value == spec.error)
              && approvals.table == if spec.Ok? then spec.value else old(approvals.table)
    {
      ExecNext(approvals.secret, history, Consume(c, env));
      TokensNext(approvals.secret, World().tokens, ConsumeStep(World(), c, env));
      history := history + [Consume(c, env)];
      e := approvals.VerifyAndConsumeToken(env, token, ctx);
    }

    /** Call `c` of this adapter is alive in this phase. */
    ghost predicate At(c: nat, call: Call)
      reads this`history, approvals
    {
      && c < |World().calls| && World().calls[c] == call
      && call.db == db && call.owner in World().alive && !call.phase.Closed?
    }

    /** The exception handler: whatever happened, the row says BLOCKED. */
    method WriteBlockedRow(ghost c: nat, ghost call: Call, run: RunId)
      requires Valid() && At(c, call) && call.run == run
      modifies this
      ensures Valid() && old(history) <= history && World().runs == old(World()).runs
      ensures executions == SetStatus(old(executions), run, BLOCKED)
    {
      if !call.phase.Raised? { Note(Raise(c)); }
      WriteStatus(run, BLOCKED, Block(c));
    }

    method Approve(ghost c: nat, ghost call: Call, env: Approval.Env, token: Approval.TokenId, ctx: Approval.Context)
        returns (e: Option<Approval.ApprovalError>)
      requires Valid() && At(c, call) && call.token == token && call.ctx == ctx && call.phase.Claimed?
      modifies this, approvals
      ensures Valid() && old(history) <= history && executions == old(executions) && World().runs == old(World()).runs
      ensures var spec := Approval.Consume(approvals.secret, env, old(approvals.table), token, ctx);
              && (e.None? <==> spec.Ok?) && (e.Some? ==> e.value == spec.error)
              && approvals.table == if spec.Ok? then spec.value else old(approvals.table)
      ensures At(c, if e.None? then call.(phase := Consumed, consumedAt := Some(|old(World()).tokens|))
                 else call.(phase := Raised))
    {
      ConsumeOutcome(approvals.secret, World(), c, env);
      e := ConsumeToken(c, token, ctx, env);
    }

    /** ADMITTED is on record before the container starts. */
    method AdmitAndLaunch(ghost c: nat, ghost call: Call, run: RunId)
      requires Valid() && At(c, call) && call.run == run && call.phase.Consumed?
      modifies this
      ensures Valid() && old(history) <= history && World().runs == old(World()).runs + [c]
      ensures executions == SetStatus(old(executions), run, ADMITTED) && At(c, call.(phase := Running))
    {
      WriteStatus(run, ADMITTED, Admit(c));
      Note(Launch(c));
    }

    /** What a running container's answer makes of the row. */
    method RecordAnswer(ghost c: nat, ghost call: Call, run: RunId, ctx: Approval.Context, answer: RunnerAnswer)
        returns (r: Result<RunId, AdmissionError>)
      requires Valid() && At(c, call) && call.run == run && call.ctx == ctx && call.phase.Running?
      modifies this
      ensures Valid() && old(history) <= history && World().runs == old(World()).runs
      ensures r == if Verdict(answer).Some? then Ok(run) else Err(ExecutionRefused)
      ensures executions == SetStatus(old(executions), run, StatusAfter(run, ctx, Verdict(answer)))
    {
      if answer.RunnerRaised? || !answer.sameRun || (answer.report.exitCode == 0 && !answer.verified) {
        WriteBlockedRow(c, call, run);
        return Err(ExecutionRefused);
      }
      Note(Return(c, answer.report));
      var evidence := Evidence(run, ctx.argvDigest, answer.report);
      WriteStatus(run, if answer.report.exitCode == 0 then SUCCESS(evidence) else FAILED(evidence), Conclude(c));
      return Ok(run);
    }

    /** The guarded part of a start: consume, admit, run, record. */
    method Execute(ghost c: nat, ghost call: Call, run: RunId, token: Approval.TokenId, ctx: Approval.Context,
                   env: Approval.Env, answer: RunnerAnswer) returns (r: Result<RunId, AdmissionError>)
      requires Valid() && At(c, call) && call.run == run && call.token == token && call.ctx == ctx
      requires call.phase.Claimed?
      modifies this, approvals
      ensures Valid() && old(history) <= history
      ensures var spec := Approval.Consume(approvals.secret, env, old(approvals.table), token, ctx);
              && approvals.table == (if spec.Ok? then spec.value else old(approvals.table))
              && World().runs == (if spec.Ok? then old(World()).runs + [c] else old(World()).runs)
              && (r.Ok? <==> spec.Ok? && Verdict(answer).Some?) && (r.Ok? ==> r.value == run)
              && (r.Err? ==> r.error == if spec.Ok? then ExecutionRefused else NotApproved(spec.error))
              && executions == SetStatus(old(executions), run,
                   StatusAfter(run, ctx, if spec.Ok? then Verdict(answer) else None))
    {
      var refused := Approve(c, call, env, token, ctx);
      if refused.Some? {
        WriteBlockedRow(c, call.(phase := Raised), run);
        return Err(NotApproved(refused.value));
      }
      ghost var consumed := World().calls[c];
      AdmitAndLaunch(c, consumed, run);
      SetStatusTwice(old(executions), run, ADMITTED);
      r := RecordAnswer(c, consumed.(phase := Running), run, ctx, answer);
    }

    /** Claim first, then consume: a token spent here always has a durable claim behind it. */
    method StartTask(task: TaskId, ctx: Approval.Context, token: Approval.TokenId, run: RunId, owner: Option<Process>,
                     snapshotTaken: bool, env: Approval.Env, answer: RunnerAnswer)
        returns (r: Result<RunId, AdmissionError>)
      requires Valid() && (owner.Some? ==> owner.value in World().alive)
      requires ctx.action == "task_execution" && ctx.taskId == task
      modifies this, approvals
      ensures Valid() && old(history) <= history
      ensures var claimed := token != "" && owner.Some? && Claimable(old(executions), task, run);
              var spec := Approval.Consume(approvals.secret, env, old(approvals.table), token, ctx);
              var consumed := claimed && snapshotTaken && spec.Ok?;
              && (r.Ok? <==> consumed && Verdict(answer).Some?) && (r.Ok? ==> r.value == run)
              && approvals.table == (if consumed then spec.value else old(approvals.table))
              && |World().runs| == |old(World()).runs| + (if consumed then 1 else 0)
              && executions == if !claimed then old(executions)
                               else old(executions)[task := Record(run, Sha256(ctx), token,
                                      if !snapshotTaken then RESERVED
                                      else StatusAfter(run, ctx, if consumed then Verdict(answer) else None),
                                      owner.value)]
      ensures var free := task !in old(executions) && forall t | t in old(executions) :: old(executions)[t].run != run;
              var approved := Approval.Consume(approvals.secret, env, old(approvals.table), token, ctx).Ok?;
              if token == "" || owner.None? || !free then r.Err? && executions == old(executions)
              else
                && task in executions && executions == old(executions)[task := executions[task]]
                && StartedRow(executions[task], run, ctx, token, owner.value, snapshotTaken, approved, answer)
                && (r.Ok? <==> executions[task].status.SUCCESS? || executions[task].status.FAILED?)
      ensures var spec := Approval.Consume(approvals.secret, env, old(approvals.table), token, ctx);
              var free := task !in old(executions) && forall t | t in old(executions) :: old(executions)[t].run != run;
              r.Err? ==> (
                r.error == if token == "" then TokenRequired else if owner.None? then IdentityUnavailable
                           else if !free then AlreadyClaimed else if !snapshotTaken then SnapshotFailed
                           else if spec.Err? then NotApproved(spec.error) else ExecutionRefused)
    {
      StatusExactly(run, ctx, answer);
      if token == "" { return Err(TokenRequired); }
      if owner.None? { return Err(IdentityUnavailable); }
      ghost var c := |World().calls|;
      var ok := Claim(task, run, ctx, token, owner.value);
      if !ok { return Err(AlreadyClaimed); }
      if !snapshotTaken { return Err(SnapshotFailed); }
      SetStatusOfOne(old(executions), task, Record(run, Sha256(ctx), token, RESERVED, owner.value));
      r := Execute(c, World().calls[c], run, token, ctx, env, answer);
    }

    /** The row of a run, found by its run id. */
    method RecordOf(run: RunId) returns (r: Result<Record, AdmissionError>)
      ensures r.Ok? <==> exists t :: t in executions && executions[t].run == run
      ensures r.Ok? ==> r.value.run == run && exists t :: t in executions && executions[t] == r.value
      ensures r.Err? ==> r.error.NoRecord?
    {
      if t :| t in executions && executions[t].run == run { return Ok(executions[t]); }
      return Err(NoRecord);
    }

    /** The status of a run's one row. */
    method PollTask(run: RunId) returns (r: Result<Status, AdmissionError>)
      requires Valid()
      ensures forall t | t in executions && executions[t].run == run :: r == Ok(executions[t].status)
      ensures r.Ok? <==> exists t :: t in executions && executions[t].run == run
    {
      AlwaysSound(approvals.secret, history);
      UniqueRow(World(), db);
      var record := RecordOf(run);
      return if record.Ok? then Ok(record.value.status) else Err(record.error);
    }

    /** The stored result of the run's one row, and never another run's. */
    method CollectResults(run: RunId) returns (r: Result<Evidence, AdmissionError>)
      requires Valid()
      ensures forall t | t in executions && executions[t].run == run ::
                && (r.Ok? <==> executions[t].status.SUCCESS? || executions[t].status.FAILED?)
                && (r.Ok? ==>
                      && r.value == executions[t].status.result
                      && r.value.run == run && r.value.executionDigest == executions[t].digest.of.argvDigest
                      && (executions[t].status.SUCCESS? <==> r.value.report.exitCode == 0))
      ensures r.Ok? ==> exists t :: t in executions && executions[t].run == run
    {
      AlwaysSound(approvals.secret, history);
      UniqueRow(World(), db);
      var record := RecordOf(run);
      if record.Err? { return Err(record.error); }
      if !(record.value.status.SUCCESS? || record.value.status.FAILED?) { return Err(NoResult); }
      return Ok(record.value.status.result);
    }

    /** The second half of a recovery, after the row was read: look for the owner, clean up, write. */
    method FinishRecovery(ghost n: nat, row: Record, probe: Option<Option<real>>, reconciled: bool)
        returns (r: Result<RunId, AdmissionError>)
      requires Valid() && Processes(World()) && Answers(World().alive, row.owner.pid, probe)
      requires n < |World().recoveries| && World().recoveries[n].db == db && World().recoveries[n].seen == row
      requires World().recoveries[n].phase.Read? && World().recoveries[n].reader in World().alive
      modifies this
      ensures Valid() && old(history) <= history && World().runs == old(World()).runs
      ensures (r.Ok? <==> Gone(probe, row.owner) && reconciled) && (r.Ok? ==> r.value == row.run)
      ensures executions == if r.Ok? then SetStatus(old(executions), row.run, BLOCKED) else old(executions)
    {
      ProbeTells(World(), row.owner, probe);
      Note(CheckOwner(n, probe != Some(None)));
      if probe.Some? && (probe.value.None? || probe.value.value == row.owner.started) { return Err(ControllerAlive); }
      if !reconciled { return Err(ReconcileFailed); }
      WriteStatus(row.run, BLOCKED, WriteBlocked(n));
      return Ok(row.run);
    }

    /** Never runs anything; an unfinished row whose owner is gone becomes BLOCKED. */
    method RecoverTask(task: TaskId, ctx: Approval.Context, reader: Process, probe: Option<Option<real>>,
                       reconciled: bool)
        returns (r: Result<RunId, AdmissionError>)
      requires Valid() && reader in World().alive
      requires task in executions ==> Answers(World().alive, executions[task].owner.pid, probe)
      modifies this
      ensures Valid() && old(history) <= history && World().runs == old(World()).runs
      ensures task !in old(executions) ==> r == Err(NoRecord) && executions == old(executions)
      ensures task in old(executions) ==>
        var row := old(executions)[task];
        && (r.Ok? <==> row.digest == Sha256(ctx) && (Final(row.status) || (Gone(probe, row.owner) && reconciled)))
        && (r.Ok? ==> r.value == row.run)
        && executions == if r.Ok? && !Final(row.status) then SetStatus(old(executions), row.run, BLOCKED)
                         else old(executions)
      ensures task in old(executions) ==>
        var row := old(executions)[task];
        var final := row.status.SUCCESS? || row.status.FAILED?;
        var gone := probe.None? || (probe.value.Some? && probe.value.value != row.owner.started);
        && (r.Ok? <==> row.digest.of == ctx && (final || (gone && reconciled)))
        && (r.Ok? && !final ==> row.owner !in old(World()).alive)
        && executions == if r.Ok? && !final then old(executions)[task := row.(status := BLOCKED)] else old(executions)
    {
      if task !in executions { return Err(NoRecord); }
      var row := executions[task];
      if row.digest != Sha256(ctx) { return Err(ContextDiffers); }
      if row.status.SUCCESS? || row.status.FAILED? { return Ok(row.run); }
      AlwaysSound(approvals.secret, history);
      ghost var n := |World().recoveries|;
      UniqueRow(World(), db);
      SetStatusByRun(executions, task);
      if Gone(probe, row.owner) { GoneIsDead(World(), row.owner, probe); }
      Note(ReadRecord(db, task, ctx, reader));
      AlwaysSound(approvals.secret, history);
      r := FinishRecovery(n, row, probe, reconciled);
    }
  }

  /** What the operating system says of a PID: free, taken with an unreadable, or with this creation time. */
  ghost predicate Answers(alive: set<Process>, pid: int, probe: Option<Option<real>>) {
    match probe
    case None => forall q | q in alive :: q.pid != pid
    case Some(None) => exists q :: q in alive && q.pid == pid
    case Some(Some(started)) => Process(pid, started) in alive
  }

  predicate Gone(probe: Option<Option<real>>, owner: Process) {
    probe.None? || (probe.value.Some? && probe.value.value != owner.started)
  }

  lemma ProbeTells(s: System, owner: Process, probe: Option<Option<real>>)
    requires Processes(s) && Answers(s.alive, owner.pid, probe)
    ensures OwnerGone(s.alive, owner, probe != Some(None)) <==> Gone(probe, owner)
  {
  }

  lemma GoneIsDead(s: System, owner: Process, probe: Option<Option<real>>)
    requires Processes(s) && Answers(s.alive, owner.pid, probe)
    requires probe.None? || (probe.value.Some? && probe.value.value != owner.started)
    ensures owner !in s.alive
  {
  }

  /** Run ids are unique, so the update addressed by run id touches the one row. */
  lemma SetStatusByRun(table: Table, task: TaskId)
    requires UniqueRuns(table) && task in table
    ensures forall status ::
              SetStatus(table, table[task].run, status) == table[task := table[task].(status := status)]
  {
  }

  lemma UniqueRow(s: System, db: DbPath)
    requires Claims(s)
    ensures UniqueRuns(TableOf(s.dbs, db)) && ResultsFit(TableOf(s.dbs, db))
  {
  }

  lemma SetStatusTwice(table: Table, run: RunId, status: Status)
    ensures forall again :: SetStatus(SetStatus(table, run, status), run, again) == SetStatus(table, run, again)
  {
  }

  lemma SetStatusOfOne(table: Table, task: TaskId, row: Record)
    requires Claimable(table, task, row.run)
    ensures forall status :: SetStatus(table[task := row], row.run, status) == table[task := row.(status := status)]
  {
  }
}
