/**
 The task state ledger (orchestrator/core/state.py): compare-and-swap transitions over a
 fixed status graph, with an append-only history and evidence that must not go stale.
 */
module Ledger {
  import opened Wrappers
  import Approval

  type TaskId = string

  datatype TaskStatus =
    | PROPOSED | READY | RUNNING | VALIDATING | REVIEW | READY_FOR_MERGE
    | DONE | FAILED | BLOCKED | NEEDS_HUMAN | CANCELLED

  const MAX_RETRY_ATTEMPTS: nat := 3

  function AllowedFrom(s: TaskStatus): set<TaskStatus> {
    match s
    case PROPOSED => {READY, BLOCKED, CANCELLED}
    case READY => {RUNNING, BLOCKED, CANCELLED}
    case RUNNING => {VALIDATING, FAILED, BLOCKED, CANCELLED}
    case VALIDATING => {REVIEW, FAILED, BLOCKED, CANCELLED}
    case REVIEW => {READY_FOR_MERGE, READY, FAILED, NEEDS_HUMAN, CANCELLED}
    case READY_FOR_MERGE => {DONE, FAILED, NEEDS_HUMAN, CANCELLED}
    case FAILED => {READY, CANCELLED}
    case BLOCKED => {PROPOSED, CANCELLED}
    case NEEDS_HUMAN => {PROPOSED, READY, CANCELLED}
    case DONE => {}
    case CANCELLED => {}
  }

  predicate IsTerminal(s: TaskStatus) { s.DONE? || s.CANCELLED? }

  datatype Entry = Entry(from: Option<TaskStatus>, to: TaskStatus, revision: nat)

  datatype TaskState = TaskState(
    revision: nat, status: TaskStatus, attempt: nat, specDigest: string, policyDigest: string,
    baseSha: Option<string>, candidateDigest: Option<string>, prHeadSha: Option<string>,
    history: seq<Entry>)

  /** The arguments of one `transition` call. */
  datatype Change = Change(
    expectedRevision: int, to: TaskStatus,
    candidateDigest: Option<string>, baseSha: Option<string>, prHeadSha: Option<string>,
    requiresHumanApproval: bool, approvalTokenId: Option<string>, repository: Option<string>,
    targetRef: string, policyHash: Option<string>, planHash: Option<string>)

  /** The approval manager handed to the call, as it stands at that moment. */
  datatype Approvals = NoManager | Manager(secret: string, env: Approval.Env, table: Approval.Table)

  datatype LedgerError =
    | NoRecord | AlreadyExists | CasConflict | TerminalState | InvalidTransition
    | ApprovalRequired | RetriesExhausted | SchemaRefused

  // ---------------------------------------------------------------------------------------
  // One transition
  // ---------------------------------------------------------------------------------------

  function Or(a: Option<string>, b: Option<string>): Option<string> {
    if Approval.Truthy(a).Some? then a else b
  }

  function Given(a: Option<string>, b: Option<string>): Option<string> { if a.Some? then a else b }

  /** What the merge approval must have been consumed for. */
  function MergeClaim(taskId: TaskId, s: TaskState, c: Change, head: string): Approval.Claim {
    Approval.Claim("merge_pull_request", if c.repository.Some? then c.repository.value else "", taskId, head,
                   c.targetRef,
                   None, Or(c.policyHash, Some(s.policyDigest)), Or(c.planHash, Some(s.specDigest)))
  }

  predicate ApprovalHolds(taskId: TaskId, s: TaskState, c: Change, approvals: Approvals) {
    var head := Or(c.prHeadSha, s.prHeadSha);
    && Approval.Truthy(c.approvalTokenId).Some?
    && approvals.Manager?
    && Approval.Truthy(head).Some?
    && Approval.VerifyConsumed(approvals.secret, approvals.env, approvals.table, c.approvalTokenId.value,
                               MergeClaim(taskId, s, c, head.value)).Ok?
  }

  function NextAttempt(s: TaskState, to: TaskStatus): nat {
    if s.status.FAILED? && to.READY? then s.attempt + 1
    else if s.status.READY? && to.RUNNING? && s.attempt == 0 then 1
    else s.attempt
  }

  /** Evidence carried forward, dropped whenever the base or the pull-request head moved. */
  function Applied(s: TaskState, c: Change): TaskState {
    var baseMoved := c.baseSha.Some? && c.baseSha != s.baseSha;
    var headMoved := c.prHeadSha.Some? && c.prHeadSha != s.prHeadSha;
    s.(revision := s.revision + 1,
       status := c.to,
       attempt := NextAttempt(s, c.to),
       baseSha := Given(c.baseSha, s.baseSha),
       candidateDigest := if baseMoved || headMoved then None else Given(c.candidateDigest, s.candidateDigest),
       prHeadSha := if baseMoved then None else Given(c.prHeadSha, s.prHeadSha),
       history := s.history + [Entry(Some(s.status), c.to, s.revision + 1)])
  }

  /**
   The call's verdict.  The JSON schema's pattern for a head rules out the empty text;
   `schemaAccepts` is its word on everything else in the new record.
   */
  function Transition(taskId: TaskId, s: TaskState, c: Change, approvals: Approvals, schemaAccepts: bool)
      : Result<TaskState, LedgerError> {
    if s.revision != c.expectedRevision then Err(CasConflict)
    else if IsTerminal(s.status) then Err(TerminalState)
    else if c.to !in AllowedFrom(s.status) then Err(InvalidTransition)
    else if c.to.DONE? && c.requiresHumanApproval && !ApprovalHolds(taskId, s, c, approvals) then Err(ApprovalRequired)
    else if s.status.FAILED? && c.to.READY? && s.attempt >= MAX_RETRY_ATTEMPTS then Err(RetriesExhausted)
    else if !schemaAccepts || Applied(s, c).prHeadSha == Some("") then Err(SchemaRefused)
    else Ok(Applied(s, c))
  }

  function Initial(spec: string, policy: string, base: Option<string>): TaskState {
    TaskState(0, PROPOSED, 0, spec, policy, base, None, None, [Entry(None, PROPOSED, 0)])
  }

  /** The ledger object; its rows are the database table. */
  class StateLedger {
    var rows: map<TaskId, TaskState>

    constructor ()
      ensures rows == map[]
    {
      rows := map[];
    }

    method InitializeTask(taskId: TaskId, spec: string, policy: string, base: Option<string>, schemaAccepts: bool)
        returns (r: Result<TaskState, LedgerError>)
      modifies this
      ensures r.Ok? <==> taskId !in old(rows) && schemaAccepts
      ensures r.Ok? ==> r.value == Initial(spec, policy, base) && rows == old(rows)[taskId := r.value]
      ensures r.Ok? ==> && r.value.status == PROPOSED && r.value.revision == 0 && r.value.attempt == 0
                        && r.value.specDigest == spec && r.value.policyDigest == policy && r.value.baseSha == base
                        && r.value.candidateDigest == None && r.value.prHeadSha == None
      ensures r.Err? ==> rows == old(rows)
      ensures r.Ok? <==> Commits(old(rows), DoInitialize(taskId, spec, policy, base, schemaAccepts))
      ensures rows == After(old(rows), DoInitialize(taskId, spec, policy, base, schemaAccepts))
    {
      if taskId in rows { return Err(AlreadyExists); }
      if !schemaAccepts { return Err(SchemaRefused); }
      var state := Initial(spec, policy, base);
      rows := rows[taskId := state];
      return Ok(state);
    }

    method GetState(taskId: TaskId) returns (r: Result<TaskState, LedgerError>)
      ensures r == (if taskId in rows then Ok(rows[taskId]) else Err(NoRecord))
    {
      if taskId in rows { return Ok(rows[taskId]); } else { return Err(NoRecord); }
    }

    method DoTransition(taskId: TaskId, c: Change, approvals: Approvals, schemaAccepts: bool)
        returns (r: Result<TaskState, LedgerError>)
      modifies this
      ensures r == (if taskId in old(rows) then Transition(taskId, old(rows)[taskId], c, approvals, schemaAccepts)
                    else Err(NoRecord))
      ensures rows == (if r.Ok? then old(rows)[taskId := r.value] else old(rows))
      ensures r.Ok? <==> Commits(old(rows), DoChange(taskId, c, approvals, schemaAccepts))
      ensures rows == After(old(rows), DoChange(taskId, c, approvals, schemaAccepts))
    {
      if taskId !in rows { return Err(NoRecord); }
      var current := rows[taskId];
      if current.revision != c.expectedRevision { return Err(CasConflict); }
      if IsTerminal(current.status) { return Err(TerminalState); }
      if c.to !in AllowedFrom(current.status) { return Err(InvalidTransition); }
      if c.to.DONE? && c.requiresHumanApproval {
        if !ApprovalHolds(taskId, current, c, approvals) { return Err(ApprovalRequired); }
      }
      var attempt := current.attempt;
      if current.status.FAILED? && c.to.READY? {
        if attempt >= MAX_RETRY_ATTEMPTS { return Err(RetriesExhausted); }
        attempt := attempt + 1;
      }
      if current.status.READY? && c.to.RUNNING? && attempt == 0 { attempt := 1; }
      var candidate := if c.candidateDigest.Some? then c.candidateDigest else current.candidateDigest;
      var base := if c.baseSha.Some? then c.baseSha else current.baseSha;
      var head := if c.prHeadSha.Some? then c.prHeadSha else current.prHeadSha;
      if c.baseSha.Some? && c.baseSha != current.baseSha {
        candidate := None;
        head := None;
      }
      if c.prHeadSha.Some? && c.prHeadSha != current.prHeadSha { candidate := None; }
      var revision := current.revision + 1;
      var next := current.(
        revision := revision, status := c.to, candidateDigest := candidate, baseSha := base, prHeadSha := head,
        attempt := attempt, history := current.history + [Entry(Some(current.status), c.to, revision)]);
      if !schemaAccepts || next.prHeadSha == Some("") { return Err(SchemaRefused); }
      rows := rows[taskId := next];
      return Ok(next);
    }
  }

  // ---------------------------------------------------------------------------------------
  // The life of one row
  // ---------------------------------------------------------------------------------------

  /** Successive contents of one row: created, then changed by committed transitions. */
  ghost predicate Life(taskId: TaskId, states: seq<TaskState>, changes: seq<Change>) {
    && |states| == |changes| + 1
    && (exists spec, policy, base :: states[0] == Initial(spec, policy, base))
    && forall i {:trigger changes[i]} | 0 <= i < |changes| :: CommittedTo(taskId, states[i], changes[i], states[i + 1])
  }

  ghost predicate CommittedTo(taskId: TaskId, s: TaskState, c: Change, next: TaskState) {
    exists approvals, schemaAccepts :: Transition(taskId, s, c, approvals, schemaAccepts) == Ok(next)
  }

  lemma CommittedMeans(taskId: TaskId, s: TaskState, c: Change, next: TaskState)
    requires CommittedTo(taskId, s, c, next)
    ensures next == Applied(s, c) && c.to in AllowedFrom(s.status) && s.revision == c.expectedRevision
    ensures s.status.FAILED? && c.to.READY? ==> s.attempt < MAX_RETRY_ATTEMPTS
  {
  }

  lemma LifeShrinks(taskId: TaskId, states: seq<TaskState>, changes: seq<Change>)
    requires Life(taskId, states, changes) && changes != []
    ensures Life(taskId, states[..|changes|], changes[..|changes| - 1])
    ensures CommittedTo(taskId, states[|changes| - 1], changes[|changes| - 1], states[|changes|])
  {
    var n := |changes| - 1;
    assert CommittedTo(taskId, states[n], changes[n], states[n + 1]);
    forall i {:trigger changes[..n][i]} | 0 <= i < n
      ensures CommittedTo(taskId, states[..n + 1][i], changes[..n][i], states[..n + 1][i + 1])
    {
      assert CommittedTo(taskId, states[i], changes[i], states[i + 1]);
    }
  }

  // ---------------------------------------------------------------------------------------
  // The history is a walk of the status graph, and the attempt counter reads it
  // ---------------------------------------------------------------------------------------

  ghost predicate Chained(s: TaskState) {
    && s.history != [] && s.revision == |s.history| - 1
    && s.history[0] == Entry(None, PROPOSED, 0)
    && s.history[|s.history| - 1].to == s.status
    && forall i | 1 <= i < |s.history| :: Follows(s.history[i - 1], s.history[i], i)
  }

  /** Entry number `i` continues from the entry before it, along an allowed edge. */
  predicate Follows(before: Entry, e: Entry, i: nat) {
    e.revision == i && e.from == Some(before.to) && e.to in AllowedFrom(before.to)
  }

  function Retries(history: seq<Entry>): nat {
    if history == [] then 0
    else
      var last := history[|history| - 1];
      Retries(history[..|history| - 1]) + (if last.from == Some(FAILED) && last.to.READY? then 1 else 0)
  }

  predicate EverRan(history: seq<Entry>) { exists i :: 0 <= i < |history| && history[i].to.RUNNING? }

  /** Statuses no task reaches without having run. */
  predicate PastRunning(s: TaskStatus) {
    s.RUNNING? || s.VALIDATING? || s.REVIEW? || s.READY_FOR_MERGE? || s.DONE? || s.FAILED? || s.NEEDS_HUMAN?
  }

  ghost predicate AttemptsCounted(s: TaskState) {
    && s.attempt == (if EverRan(s.history) then 1 + Retries(s.history) else 0)
    && (PastRunning(s.status) ==> EverRan(s.history))
    && (!EverRan(s.history) ==> Retries(s.history) == 0)
    && Retries(s.history) <= MAX_RETRY_ATTEMPTS - 1
  }

  lemma AttemptsStep(s: TaskState, c: Change)
    requires Chained(s) && AttemptsCounted(s) && c.to in AllowedFrom(s.status)
    requires s.status.FAILED? && c.to.READY? ==> s.attempt < MAX_RETRY_ATTEMPTS
    ensures AttemptsCounted(Applied(s, c))
  {
    var next := Applied(s, c);
    var n := |s.history|;
    assert next.history[..n] == s.history && next.history[n] == Entry(Some(s.status), c.to, s.revision + 1);
    assert Retries(next.history) ==
           Retries(s.history) + (if s.status.FAILED? && c.to.READY? then 1 else 0);
    if EverRan(s.history) {
      var i :| 0 <= i < n && s.history[i].to.RUNNING?;
      assert next.history[i].to.RUNNING?;
    }
    if EverRan(next.history) && !c.to.RUNNING? {
      var i :| 0 <= i <= n && next.history[i].to.RUNNING?;
      assert i < n && s.history[i].to.RUNNING?;
    }
    if c.to.RUNNING? { assert next.history[n].to.RUNNING?; }
  }

  lemma ChainedStep(s: TaskState, c: Change)
    requires Chained(s) && c.to in AllowedFrom(s.status)
    ensures Chained(Applied(s, c))
  {
    var h, n := Applied(s, c).history, |s.history|;
    forall i | 1 <= i < |h| ensures Follows(h[i - 1], h[i], i) {
      if i < n { assert Follows(s.history[i - 1], s.history[i], i); }
    }
  }

  lemma InitialIsConsistent(spec: string, policy: string, base: Option<string>)
    ensures Chained(Initial(spec, policy, base)) && AttemptsCounted(Initial(spec, policy, base))
  {
    var s := Initial(spec, policy, base);
    assert s.history[..0] == [] && Retries(s.history) == 0;
    assert !EverRan(s.history);
  }

  /** In every reachable row: revision, chain and attempt counter agree with the history. */
  lemma {:induction false} RowsAreConsistent(taskId: TaskId, states: seq<TaskState>, changes: seq<Change>)
    requires Life(taskId, states, changes)
    ensures Chained(states[|changes|]) && AttemptsCounted(states[|changes|])
    decreases |changes|
  {
    if changes == [] {
      var spec, policy, base :| states[0] == Initial(spec, policy, base);
      InitialIsConsistent(spec, policy, base);
    } else {
      var n := |changes| - 1;
      LifeShrinks(taskId, states, changes);
      RowsAreConsistent(taskId, states[..n + 1], changes[..n]);
      CommittedMeans(taskId, states[n], changes[n], states[n + 1]);
      ChainedStep(states[n], changes[n]);
      AttemptsStep(states[n], changes[n]);
    }
  }

  /** A task is DONE only at the end of one unbroken pass through the whole pipeline. */
  lemma DoneWasEarned(taskId: TaskId, states: seq<TaskState>, changes: seq<Change>)
    requires Life(taskId, states, changes) && states[|changes|].status.DONE?
    ensures var h := states[|changes|].history; var n := |h|;
            && n >= 6
            && h[n - 5] == Entry(Some(READY), RUNNING, n - 5)
            && h[n - 4] == Entry(Some(RUNNING), VALIDATING, n - 4)
            && h[n - 3] == Entry(Some(VALIDATING), REVIEW, n - 3)
            && h[n - 2] == Entry(Some(REVIEW), READY_FOR_MERGE, n - 2)
            && h[n - 1] == Entry(Some(READY_FOR_MERGE), DONE, n - 1)
  {
    RowsAreConsistent(taskId, states, changes);
    var h := states[|changes|].history;
    var n := |h|;
    PipelineStep(states[|changes|], n - 1);
    PipelineStep(states[|changes|], n - 2);
    PipelineStep(states[|changes|], n - 3);
    PipelineStep(states[|changes|], n - 4);
    PipelineStep(states[|changes|], n - 5);
  }

  /** Each stage of the pipeline was entered from the stage before it. */
  lemma PipelineStep(s: TaskState, i: nat)
    requires Chained(s) && i < |s.history|
    requires s.history[i].to in {DONE, READY_FOR_MERGE, REVIEW, VALIDATING, RUNNING}
    ensures i >= 1 && s.history[i].revision == i && s.history[i].from == Some(s.history[i - 1].to)
    ensures s.history[i].to.DONE? ==> s.history[i - 1].to.READY_FOR_MERGE?
    ensures s.history[i].to.READY_FOR_MERGE? ==> s.history[i - 1].to.REVIEW?
    ensures s.history[i].to.REVIEW? ==> s.history[i - 1].to.VALIDATING?
    ensures s.history[i].to.VALIDATING? ==> s.history[i - 1].to.RUNNING?
    ensures s.history[i].to.RUNNING? ==> s.history[i - 1].to.READY?
  {
    if i >= 1 { assert Follows(s.history[i - 1], s.history[i], i); }
  }

  // ---------------------------------------------------------------------------------------
  // Evidence freshness
  // ---------------------------------------------------------------------------------------

  /** The k-th change supplied `digest`, and base and head have stood still ever since. */
  ghost predicate FreshSince(states: seq<TaskState>, changes: seq<Change>, digest: string, k: nat) {
    && k < |changes| && |states| == |changes| + 1
    && changes[k].candidateDigest == Some(digest)
    && forall j | k <= j <= |changes| ::
         states[j].baseSha == states[|changes|].baseSha && states[j].prHeadSha == states[|changes|].prHeadSha
  }

  /** A candidate digest on record was supplied for exactly the base and head on record. */
  lemma {:induction false} EvidenceIsFresh(taskId: TaskId, states: seq<TaskState>, changes: seq<Change>)
    requires Life(taskId, states, changes) && states[|changes|].candidateDigest.Some?
    ensures exists k: nat :: FreshSince(states, changes, states[|changes|].candidateDigest.value, k)
    decreases |changes|
  {
    if changes != [] {
      var n := |changes| - 1;
      LifeShrinks(taskId, states, changes);
      CommittedMeans(taskId, states[n], changes[n], states[n + 1]);
      var digest := states[n + 1].candidateDigest.value;
      if changes[n].candidateDigest.Some? {
        assert FreshSince(states, changes, digest, n);
      } else {
        EvidenceIsFresh(taskId, states[..n + 1], changes[..n]);
        var k: nat :| FreshSince(states[..n + 1], changes[..n], digest, k);
        assert FreshSince(states, changes, digest, k) by {
          forall j | k <= j <= n + 1
            ensures states[j].baseSha == states[n + 1].baseSha && states[j].prHeadSha == states[n + 1].prHeadSha
          {
            if j <= n { assert states[..n + 1][j] == states[j]; }
          }
        }
      }
    }
  }

  /** The k-th change supplied `head`, and the base has stood still ever since. */
  ghost predicate HeadFreshSince(states: seq<TaskState>, changes: seq<Change>, head: string, k: nat) {
    && k < |changes| && |states| == |changes| + 1
    && changes[k].prHeadSha == Some(head)
    && forall j | k <= j <= |changes| ::
         states[j].baseSha == states[|changes|].baseSha && (j > k ==> states[j].prHeadSha == Some(head))
  }

  lemma {:induction false} HeadIsFresh(taskId: TaskId, states: seq<TaskState>, changes: seq<Change>)
    requires Life(taskId, states, changes) && states[|changes|].prHeadSha.Some?
    ensures exists k: nat :: HeadFreshSince(states, changes, states[|changes|].prHeadSha.value, k)
    decreases |changes|
  {
    if changes != [] {
      var n := |changes| - 1;
      LifeShrinks(taskId, states, changes);
      CommittedMeans(taskId, states[n], changes[n], states[n + 1]);
      var head := states[n + 1].prHeadSha.value;
      if changes[n].prHeadSha.Some? && changes[n].prHeadSha != states[n].prHeadSha {
        assert HeadFreshSince(states, changes, head, n);
      } else {
        HeadIsFresh(taskId, states[..n + 1], changes[..n]);
        var k: nat :| HeadFreshSince(states[..n + 1], changes[..n], head, k);
        assert HeadFreshSince(states, changes, head, k) by {
          forall j | k <= j <= n + 1
            ensures states[j].baseSha == states[n + 1].baseSha && (j > k ==> states[j].prHeadSha == Some(head))
          {
            if j <= n { assert states[..n + 1][j] == states[j]; }
          }
        }
      }
    }
  }

  /**
   With approval required, DONE rests on a consumed merge token for this task and the head in
   force.  That head is what the row then records exactly when the call left the base alone;
   a call that also moves the base drops it.
   */
  lemma DoneIsApproved(taskId: TaskId, s: TaskState, c: Change, approvals: Approvals, schemaAccepts: bool)
    requires Transition(taskId, s, c, approvals, schemaAccepts).Ok?
    requires c.to.DONE? && c.requiresHumanApproval
    ensures approvals.Manager? && c.approvalTokenId.Some? && c.approvalTokenId.value in approvals.table
    ensures var row := approvals.table[c.approvalTokenId.value];
            && row.consumed && !row.revoked
            && row.signature == Approval.Hmac(approvals.secret, Approval.Rebuilt(row.fields))
            && Approval.Authenticated(approvals.env, row.fields, "merge_pull_request")
            && ForThisMerge(row.fields.context, taskId, s, c)
            && (Applied(s, c).prHeadSha == Some(row.fields.context.headSha) <==>
                  (c.baseSha.Some? ==> c.baseSha == s.baseSha))
  {
    ApprovalExactly(taskId, s, c, approvals);
  }

  /** What the call says, or what the row says where the call says nothing. */
  function Effective(said: Option<string>, recorded: string): string {
    if said != None && said != Some("") then said.value else recorded
  }

  /** The context of a merge approval, field by field. */
  ghost predicate ForThisMerge(context: Approval.Context, taskId: TaskId, s: TaskState, c: Change) {
    && context.action == "merge_pull_request" && context.taskId == taskId
    && context.repository == (if c.repository == None then "" else c.repository.value)
    && context.targetRef == c.targetRef
    && context.policyHash == Effective(c.policyHash, s.policyDigest)
    && context.planHash == Effective(c.planHash, s.specDigest)
    && context.headSha != ""
    && context.headSha == Effective(c.prHeadSha, if s.prHeadSha == None then "" else s.prHeadSha.value)
  }

  /** The approval check passes for exactly the tokens that were consumed for this merge. */
  lemma ApprovalExactly(taskId: TaskId, s: TaskState, c: Change, approvals: Approvals)
    ensures ApprovalHolds(taskId, s, c, approvals) <==>
              && approvals.Manager? && c.approvalTokenId.Some? && c.approvalTokenId.value != ""
              && c.approvalTokenId.value in approvals.table
              && var row := approvals.table[c.approvalTokenId.value];
                 && row.consumed && !row.revoked
                 && row.signature == Approval.Hmac(approvals.secret, Approval.Rebuilt(row.fields))
                 && Approval.Authenticated(approvals.env, row.fields, "merge_pull_request")
                 && ForThisMerge(row.fields.context, taskId, s, c)
  {
    var head := Or(c.prHeadSha, s.prHeadSha);
    if approvals.Manager? && c.approvalTokenId.Some? && c.approvalTokenId.value in approvals.table {
      var claim := MergeClaim(taskId, s, c, if head.Some? then head.value else "");
      Approval.VerifyConsumedExactly(approvals.secret, approvals.env, approvals.table, c.approvalTokenId.value, claim);
    }
    if approvals.Manager? && c.approvalTokenId.Some? && c.approvalTokenId.value !in approvals.table && head.Some? {
      Approval.VerifyConsumedExactly(approvals.secret, approvals.env, approvals.table, c.approvalTokenId.value,
                                     MergeClaim(taskId, s, c, head.value));
    }
  }

  /** The edges of the status table, by where they lead. */
  predicate LeadsTo(from: TaskStatus, to: TaskStatus) {
    match to
    case PROPOSED => from.BLOCKED? || from.NEEDS_HUMAN?
    case READY => from.PROPOSED? || from.REVIEW? || from.FAILED? || from.NEEDS_HUMAN?
    case RUNNING => from.READY?
    case VALIDATING => from.RUNNING?
    case REVIEW => from.VALIDATING?
    case READY_FOR_MERGE => from.REVIEW?
    case DONE => from.READY_FOR_MERGE?
    case FAILED => from.RUNNING? || from.VALIDATING? || from.REVIEW? || from.READY_FOR_MERGE?
    case BLOCKED => from.PROPOSED? || from.READY? || from.RUNNING? || from.VALIDATING?
    case NEEDS_HUMAN => from.REVIEW? || from.READY_FOR_MERGE?
    case CANCELLED => !from.DONE? && !from.CANCELLED?
  }

  lemma TableExactly(from: TaskStatus, to: TaskStatus)
    ensures to in AllowedFrom(from) <==> LeadsTo(from, to)
  {
  }

  /** The head the row would carry after the call. */
  function HeadAfter(s: TaskState, c: Change): Option<string> {
    if c.baseSha.Some? && c.baseSha != s.baseSha then None
    else if c.prHeadSha.Some? then c.prHeadSha else s.prHeadSha
  }

  /** Exactly when a transition commits, and every field of the row it leaves. */
  lemma TransitionExactly(taskId: TaskId, s: TaskState, c: Change, approvals: Approvals, schemaAccepts: bool)
    ensures var r := Transition(taskId, s, c, approvals, schemaAccepts);
            && (r.Ok? <==>
                  && s.revision == c.expectedRevision && LeadsTo(s.status, c.to)
                  && (c.to.DONE? && c.requiresHumanApproval ==> ApprovalHolds(taskId, s, c, approvals))
                  && (s.status.FAILED? && c.to.READY? ==> s.attempt < 3)
                  && schemaAccepts && HeadAfter(s, c) != Some(""))
            && (r.Ok? ==>
                  var baseMoves := c.baseSha.Some? && c.baseSha != s.baseSha;
                  var headMoves := c.prHeadSha.Some? && c.prHeadSha != s.prHeadSha;
                  && r.value.status == c.to && r.value.revision == s.revision + 1
                  && r.value.specDigest == s.specDigest && r.value.policyDigest == s.policyDigest
                  && r.value.baseSha == (if c.baseSha.Some? then c.baseSha else s.baseSha)
                  && r.value.prHeadSha == HeadAfter(s, c)
                  && r.value.candidateDigest == (if baseMoves || headMoves then None
                                                 else if c.candidateDigest.Some? then c.candidateDigest
                                                 else s.candidateDigest)
                  && r.value.attempt == (if s.status.FAILED? && c.to.READY? then s.attempt + 1
                                         else if s.status.READY? && c.to.RUNNING? && s.attempt == 0 then 1
                                         else s.attempt)
                  && r.value.history == s.history + [Entry(Some(s.status), c.to, s.revision + 1)])
  {
    TableExactly(s.status, c.to);
  }

  /** Which refusal a transition gives, in the order of the checks. */
  lemma TransitionRefusals(taskId: TaskId, s: TaskState, c: Change, approvals: Approvals, schemaAccepts: bool)
    requires Transition(taskId, s, c, approvals, schemaAccepts).Err?
    ensures var e := Transition(taskId, s, c, approvals, schemaAccepts).error;
            var current := s.revision == c.expectedRevision;
            var unapproved := c.to.DONE? && c.requiresHumanApproval && !ApprovalHolds(taskId, s, c, approvals);
            && (e == CasConflict <==> !current)
            && (e == TerminalState <==> current && (s.status.DONE? || s.status.CANCELLED?))
            && (e == InvalidTransition <==>
                  current && !s.status.DONE? && !s.status.CANCELLED? && !LeadsTo(s.status, c.to))
            && (e == ApprovalRequired <==> current && LeadsTo(s.status, c.to) && unapproved)
            && (e == RetriesExhausted <==> current && s.status.FAILED? && c.to.READY? && s.attempt >= 3)
  {
    TableExactly(s.status, c.to);
  }

  // ---------------------------------------------------------------------------------------
  // Concurrent callers
  // ---------------------------------------------------------------------------------------

  datatype Step =
    | DoInitialize(id: TaskId, spec: string, policy: string, base: Option<string>, schemaAccepts: bool)
    | DoChange(id: TaskId, c: Change, approvals: Approvals, schemaAccepts: bool)

  predicate Commits(rows: map<TaskId, TaskState>, step: Step) {
    match step
    case DoInitialize(id, _, _, _, ok) => id !in rows && ok
    case DoChange(id, c, approvals, ok) => id in rows && Transition(id, rows[id], c, approvals, ok).Ok?
  }

  function After(rows: map<TaskId, TaskState>, step: Step): map<TaskId, TaskState> {
    if !Commits(rows, step) then rows
    else match step
      case DoInitialize(id, spec, policy, base, _) => rows[id := Initial(spec, policy, base)]
      case DoChange(id, c, approvals, ok) => rows[id := Applied(rows[id], c)]
  }

  function Exec(steps: seq<Step>): map<TaskId, TaskState> {
    if steps == [] then map[] else After(Exec(steps[..|steps| - 1]), steps[|steps| - 1])
  }

  predicate CommittedAt(steps: seq<Step>, i: nat)
    requires i < |steps|
  {
    Commits(Exec(steps[..i]), steps[i])
  }

  /** Every row of a reachable ledger has a life: the theorems above are about all of them. */
  lemma {:induction false} ReachableRowsHaveLives(steps: seq<Step>, id: TaskId)
    requires id in Exec(steps)
    ensures exists states, changes :: Life(id, states, changes) && states[|changes|] == Exec(steps)[id]
  {
    var n := |steps| - 1;
    var before, step := Exec(steps[..n]), steps[n];
    if step.id == id && Commits(before, step) && step.DoInitialize? {
      var states, none: seq<Change> := [Initial(step.spec, step.policy, step.base)], [];
      assert Life(id, states, none) && states[|none|] == Exec(steps)[id];
    } else {
      ReachableRowsHaveLives(steps[..n], id);
      var states, changes :| Life(id, states, changes) && states[|changes|] == before[id];
      if step.id == id && Commits(before, step) {
        var more, next := changes + [step.c], Applied(before[id], step.c);
        assert CommittedTo(id, before[id], step.c, next) by {
          assert Transition(id, before[id], step.c, step.approvals, step.schemaAccepts) == Ok(next);
        }
        forall i {:trigger more[i]} | 0 <= i < |more|
          ensures CommittedTo(id, (states + [next])[i], more[i], (states + [next])[i + 1])
        {
          if i < |changes| { assert CommittedTo(id, states[i], changes[i], states[i + 1]); }
        }
        assert Life(id, states + [next], more);
        assert (states + [next])[|more|] == Exec(steps)[id];
      }
    }
  }

  lemma StepKeepsRevision(rows: map<TaskId, TaskState>, step: Step, id: TaskId)
    requires id in rows
    ensures id in After(rows, step) && After(rows, step)[id].revision >= rows[id].revision
    ensures step.DoChange? && step.id == id && Commits(rows, step) ==>
              After(rows, step)[id].revision > rows[id].revision == step.c.expectedRevision
  {
  }

  lemma {:induction false} RevisionGrows(steps: seq<Step>, m: nat, id: TaskId)
    requires m <= |steps| && id in Exec(steps[..m])
    ensures id in Exec(steps) && Exec(steps)[id].revision >= Exec(steps[..m])[id].revision
    decreases |steps| - m
  {
    if m < |steps| {
      assert steps[..m + 1][..m] == steps[..m];
      StepKeepsRevision(Exec(steps[..m]), steps[m], id);
      RevisionGrows(steps, m + 1, id);
    } else {
      assert steps[..m] == steps;
    }
  }

  /** Of all callers that read the same revision of a task, at most one ever gets through. */
  lemma OneWinnerPerRevision(steps: seq<Step>, i: nat, j: nat)
    requires i < |steps| && j < |steps| && steps[i].DoChange? && steps[j].DoChange?
    requires steps[i].id == steps[j].id && steps[i].c.expectedRevision == steps[j].c.expectedRevision
    requires CommittedAt(steps, i) && CommittedAt(steps, j)
    ensures i == j
  {
    if i != j {
      var a, b := if i < j then i else j, if i < j then j else i;
      var id := steps[i].id;
      assert steps[..a + 1][..a] == steps[..a];
      StepKeepsRevision(Exec(steps[..a]), steps[a], id);
      assert steps[..b][..a + 1] == steps[..a + 1];
      RevisionGrows(steps[..b], a + 1, id);
      assert false;
    }
  }

  /** Nothing changes a finished task, whatever the callers try. */
  lemma {:induction false} TerminalIsForever(steps: seq<Step>, m: nat, id: TaskId)
    requires m <= |steps| && id in Exec(steps[..m]) && IsTerminal(Exec(steps[..m])[id].status)
    ensures id in Exec(steps) && Exec(steps)[id] == Exec(steps[..m])[id]
    decreases |steps| - m
  {
    if m < |steps| {
      assert steps[..m + 1][..m] == steps[..m];
      TerminalIsForever(steps, m + 1, id);
    } else {
      assert steps[..m] == steps;
    }
  }
}
