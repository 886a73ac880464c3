# Control-plane verification

This project models the control plane of a software-factory orchestrator in Dafny and proves
what it is built to guarantee.  The program plans tasks as a dependency graph, runs at most a
few at a time, each in a leased session, records every status change in a compare-and-swap
ledger, spends one-time human approvals before it starts a container, cleans the containers up
again, and accepts results only with evidence that is bound to what was measured.

`dafny verify dfyconfig.toml` checks everything.

| module | models |
|---|---|
| `Junit` | the streaming report parser against a definition over the XML tree |
| `DependencyGraph` | the depth-first dependency check and the search for dependents |
| `Paths` | the path-overlap test of the scheduler and the path policy of the worktree, and how they fit |
| `Scheduler`, `SchedulerSafety` | greedy selection, dispatch, failure cascade, retry budget; safety of whole runs |
| `Approval` | issue, revoke, consume and re-check of one-time tokens, over all interleavings |
| `Ledger` | status transitions, history, attempt counter, evidence freshness, concurrent callers |
| `Lease` | acquire, heartbeat, release, fencing epochs, over all histories |
| `LoopModel`, `StepOutcome`, `RunLoop` | the run loop that drives scheduler, ledger, leases and sessions, with every crash point, and what a step leaves of every task |
| `ContainerAdapter` | at-most-once execution over an execution database and the approval table, with crashes and recovery |
| `ContainerRunner` | the container journal against the Docker daemon: create, run, reconcile |
| `Broker` | one-use credential handles with two critical sections, cancellation and deadlines |
| `Handoff` | the output inventory of a packet and the receipt collected from it |
| `Verifier` | the diff listing, candidate digests and invalidation of evidence |

Objects whose methods update fields are classes.  Each of their methods is proved against a
function or predicate on values, and the theorems are about that function over all runs: a run
is a sequence of steps, each one commit or one event, so steps of different processes
interleave freely and a crash can fall between any two.  What those functions come to is stated
once more by the fields of rows, manifests and answers, with names and limits spelled out: the
lemmas whose names end in `Exactly`, and the ensures clauses that speak of fields.

Signatures and hashes are symbolic.  An HMAC and the digest of an approval context are values
that carry what they were made from; `Verifier` and `Handoff` take the hash as a function and
say where they use that it is injective.  SQLite transactions are atomic steps.  Clock
readings, process liveness, Docker outcomes, adapter answers, schema verdicts, the XML parser
and the contents of a packet are parameters, and the theorems hold for all of them.

## What turned out not to hold as one might hope

In each case the code is modelled as it is, and the condition under which it fails is proved
in both directions.

- Recovery of a container task reads the row, then looks for the owner, then writes BLOCKED
  whatever the row says by then.  That write can erase a result exactly when the recovery runs
  in another, living process and has not finished, and either the result is there already, or
  the owner has not been looked for yet and the call may still record one: its controller is
  alive, and it has consumed its token or still can (`ContainerAdapter.RecoveryLosesResultsExactly`).
  With recoveries that start only after the owner is dead, as the operations guide asks, results
  are final (`ContainerAdapter.ResultsAreFinal`).
- The run loop does not expect the ledger to refuse BLOCKED to BLOCKED.  From a state in
  agreement the polling phase goes through exactly when each session alone could be polled and
  no two of the sessions that fail have a dependent in common that is neither FAILED nor DONE
  (`LoopModel.PollingRaisesExactly`); otherwise the step raises half way.  `LoopModel.TwoFailuresRaise`
  gives such a state with two workers.
- A heartbeat reads the clock before its transaction.  If it commits late it moves the lease's
  time back, and a later beat in good time is refused, exactly when its reading is older than
  the row (`Lease.LateHeartbeatCanLoseTheLease`).
- The overlap test compares spellings.  `./dir` and `dir` do not overlap for it although they
  name the same files (`Paths.DotSegmentsEscapeTheGuarantee`).  It agrees with the file tree
  against every canonical spelling exactly when the spelling is canonical itself
  (`Paths.CanonicalExactly`).  Two allow lists really keep their tasks from ever writing one file
  exactly when no rule of either reaches what a rule of the other names
  (`Paths.ListsKeepFilesApartExactly`), which on canonical rules is what the test decides
  (`Paths.OverlapDecidesCanonicalLists`).
- The candidate digest does not bind a collected file exactly when that file equals its base
  version (`Verifier.UnchangedFilesAreNotBound`).
- The text of a diff listing can be the text of other files: always when it lists two files or
  more, which one path with line breaks in it imitates, and for a single file exactly when its
  path splits into a line of its own and a path that sorts behind it
  (`Verifier.TextCollidesExactly`).  Among paths without line breaks it cannot
  (`Verifier.TextIsInjective`).
- A call that moves a task to DONE drops the head the approval was bound to exactly when it
  moves the base in the same transition (`Ledger.DoneIsApproved`).

## Model

| member | source | states |
|---|---|---|
| `Junit.ParseJunit` | orchestrator/core/junit.py:42-92 | fed the start and end events of a document, accepts if and only if the document is acceptable as a tree, and returns the numbers of its test cases, failures, errors and skips, each counted by tag; every aggregate an accepted document supplies is the decimal numeral of the true number; a cut-off stream is refused |
| `Junit.OpenElement` | orchestrator/core/junit.py:48-62 | a start event is admitted or refused as the step function on stacks says: limits, root kind, placement |
| `Junit.CloseElement` | orchestrator/core/junit.py:63-85 | an end event pops, checks one case or suite and hands its counts to the parent, as the step function says |
| `Junit.RunTree` | orchestrator/core/junit.py:46-85 | running the stack machine over the events of one subtree succeeds exactly when the subtree fits under the open elements, and then adds exactly its counts and size |
| `Junit.RunForest` | orchestrator/core/junit.py:46-85 | the same for a list of siblings |
| `Junit.RunDocument` | orchestrator/core/junit.py:43-92 | from the empty stack, a whole document ends with an empty stack and its own counts, or is refused for the reasons of the tree definition |
| `Junit.CheckKeysIsHonesty` | orchestrator/core/junit.py:71-79 | the four aggregate checks pass exactly when every supplied aggregate is a short digit text of the true count |
| `Junit.DigitsValueExactly` | orchestrator/core/junit.py:77-79 | a digit text has the value n if and only if it is the decimal numeral of n with zeros in front |
| `Junit.DigitsAreWeighted` | orchestrator/core/junit.py:77-79 | the value of a digit text is the sum of its digits times powers of ten |
| `Junit.StatesCountExactly` | orchestrator/core/junit.py:77-79 | a supplied aggregate passes if and only if it is a text of one to ten digits that is the numeral of the count, zeros in front allowed |
| `Junit.AcceptableExactly` | orchestrator/core/junit.py:42-92 | acceptance in plain terms: nesting, size, placement, one outcome per case and aggregates, each said of the tree, with the limits as numbers |
| `Junit.SkippedCases` | orchestrator/core/junit.py:66-70 | in a well-placed, consistent tree skips never outnumber cases, and when they are fewer some case was not skipped |
| `Junit.AcceptedReportRanSomething` | orchestrator/core/junit.py:88-92 | an accepted report has fewer skips than tests and contains a case that was not skipped |
| `Junit.CleanReportPassedSomething` | orchestrator/core/junit.py:66-92 | an accepted report without failures and errors contains a case that ran and passed |
| `DependencyGraph.CheckCircularDependencies` | orchestrator/core/schema.py:118-149 | returns normally if and only if every dependency is known and the graph has no cycle; an error names an unknown dependency or a path that really is a cycle |
| `DependencyGraph.CycleSearch.Dfs` | orchestrator/core/schema.py:136-145 | the recursive search keeps finished nodes closed and acyclic, ends by the number of unvisited nodes, and reports only real back edges |
| `DependencyGraph.CycleIsReal` | orchestrator/core/schema.py:142-144 | a neighbour on the recursion stack closes a cycle along the path |
| `DependencyGraph.TopologicalMeansAcyclic` | orchestrator/core/schema.py:133-149 | an order in which every node follows its dependencies leaves no node reaching itself |
| `DependencyGraph.NeedsByDirectDependent` | orchestrator/core/scheduler.py:33-40 | a task needs another exactly when it names it or names a task that needs it |
| `DependencyGraph.FirstOccurrences` | orchestrator/core/scheduler.py:40 | removing repetitions keeps the elements and leaves no duplicate |
| `DependencyGraph.FirstOccurrencesInOrder` | orchestrator/core/scheduler.py:40 | what is kept stands in the order in which the elements first occur |
| `DependencyGraph.GetDependents` | orchestrator/core/scheduler.py:33-40 | terminates on a checked graph and returns, once each, exactly the tasks that reach the given one by one or more dependency edges |
| `Paths.CheckPathOverlap` | orchestrator/core/scheduler.py:13-21 | true exactly when some pair of paths from the two lists overlaps |
| `Paths.OverlapSymmetric` | orchestrator/core/scheduler.py:13-21 | overlap does not depend on the order of the two lists |
| `Paths.OverlapIsComponentPrefix` | orchestrator/core/scheduler.py:16-20 | for all texts, two paths overlap exactly when one list of components is a prefix of the other |
| `Paths.OverlapExactly` | orchestrator/core/scheduler.py:13-21 | the same, character by character: without trailing slashes the shorter text begins the longer, which goes on with a slash |
| `Paths.OverlapAgainstFileTree` | orchestrator/core/scheduler.py:13-21 | overlap implies that one path names the other or a directory above it, and coincides with that on canonical spellings |
| `Paths.MissedPartner` | orchestrator/core/scheduler.py:13-21 | for every spelling with an empty or a dot component there is a canonical path in the same tree that the test does not see |
| `Paths.CanonicalExactly` | orchestrator/core/scheduler.py:13-21 | a spelling is compared rightly with all canonical ones if and only if it is canonical |
| `Paths.DotSegmentsEscapeTheGuarantee` | orchestrator/core/scheduler.py:16-20 | two rules that do not overlap, and two changed paths they accept, that name the same file |
| `Paths.DotPrefixSameFile` | orchestrator/core/worktree.py:34-43 | a leading dot segment changes the text of a path and not what it names |
| `Paths.Sanitize` | orchestrator/core/worktree.py:23-43 | passes exactly a text that starts with no slash of either kind, names no drive, and has no NUL and no parent segment; the result is the text with forward slashes |
| `Paths.ValidatePathsAgainstPolicy` | orchestrator/core/worktree.py:46-79 | succeeds exactly when every path is sane, is covered by no prohibited rule, and is covered by an allowed rule if there are any; a refusal of either kind is about a path with that fault, those before it being in order |
| `Paths.SanitizeAll` | orchestrator/core/worktree.py:56-57 | the cleaned list exists exactly when each path is sane, and lists the cleaned forms in order |
| `Paths.CoveredByAny` | orchestrator/core/worktree.py:63-75 | the loop over rules answers whether some rule covers the path |
| `Paths.PolicyExactly` | orchestrator/core/worktree.py:23-79 | the policy in plain terms, character by character: no text leads upwards or starts absolute, none is a prohibited rule or below one, each is an allowed rule or below one if there are any |
| `Paths.RuleCoversItself` | orchestrator/core/worktree.py:63-75 | the path a rule names is allowed by it as an allow rule and refused by it as a deny rule |
| `Paths.SanitizeExactly` | orchestrator/core/worktree.py:23-43 | the sanitiser passes exactly those texts and changes nothing but backslashes |
| `Paths.CoversExactly` | orchestrator/core/worktree.py:63-75 | a rule covers a path exactly when they are the same but for the lean of slashes, or the path goes on with a slash after the rule without its trailing ones |
| `Paths.CommonPathMeansOverlap` | orchestrator/core/worktree.py:63-75 | two rules that cover one and the same path text overlap for the scheduler |
| `Paths.DisjointWriteSets` | orchestrator/core/worktree.py:46-79 | if two non-empty lists of allowed paths do not overlap, no path text passes the policy of both |
| `Paths.DisjointFiles` | orchestrator/core/worktree.py:46-79 | allow lists of which none reaches what the other names never both have one file accepted, however each task spells it |
| `Paths.ListsKeepFilesApartExactly` | orchestrator/core/worktree.py:23-79 | for all sane, non-empty allow lists: no file is accepted for both if and only if no rule of either names the tree of a rule of the other or one above it, the empty rule counting for the root alone |
| `Paths.OverlapDecidesCanonicalLists` | orchestrator/core/scheduler.py:13-21 | on canonical rules the overlap test decides exactly that |
| `Approval.VerifySignatureAndBindings` | orchestrator/core/approval.py:353-396 | passes exactly for the manager's own signature on the row and a claim whose supplied values all equal the row's; otherwise names the first mismatch in the fixed order |
| `Approval.MismatchMeansNoMatch` | orchestrator/core/approval.py:376-394 | the ordered comparison finds nothing exactly when every supplied value matches |
| `Approval.ApprovalManager.IssueToken` | orchestrator/core/approval.py:153-190 | one new unconsumed, unrevoked row, or no change at all |
| `Approval.ApprovalManager.RevokeToken` | orchestrator/core/approval.py:262-280 | marks an unconsumed row, refuses a consumed or unknown one |
| `Approval.ApprovalManager.VerifyAndConsumeToken` | orchestrator/core/approval.py:436-476 | marks exactly one row consumed, or changes nothing and gives the first refusal in the source's order |
| `Approval.ApprovalManager.VerifyConsumedTokenBinding` | orchestrator/core/approval.py:406-434 | the later check answers as specified and changes nothing |
| `Approval.TableInvariant` | orchestrator/core/approval.py:153-190 | after any history every row is signed by the manager for its own id and is not both consumed and revoked |
| `Approval.StepEffect` | orchestrator/core/approval.py:153-476 | the only ways one transaction changes one row |
| `Approval.ConsumedRecordsHistory` | orchestrator/core/approval.py:449-476 | a row is marked consumed if and only if some consume of it committed |
| `Approval.RevokedRecordsHistory` | orchestrator/core/approval.py:262-280 | a row is marked revoked if and only if some revocation of it committed |
| `Approval.RowWasIssued` | orchestrator/core/approval.py:153-190 | every row was issued, with the fields it still has |
| `Approval.ConsumedAtMostOnce` | orchestrator/core/approval.py:449-476 | over all interleavings at most one consume of a token succeeds |
| `Approval.NeverBothConsumedAndRevoked` | orchestrator/core/approval.py:262-476 | a history with a successful consume of a token has no successful revocation of it, and the other way round |
| `Approval.VerifiedTokenWasConsumed` | orchestrator/core/approval.py:406-434 | the later check passes only for a token that was issued with the claimed values and consumed in the very context it was issued for |
| `Approval.ConsumedContextIsIssued` | orchestrator/core/approval.py:376-394 | a consume succeeds only in the context the token was issued for |
| `Approval.ConsumeSucceedsExactly` | orchestrator/core/approval.py:449-476 | on a stored token a consume succeeds if and only if the token is unconsumed, unrevoked, unexpired, its approver is in order and the context is its own |
| `Approval.ConsumeRefusals` | orchestrator/core/approval.py:436-476 | which refusal a consume gives, in the order of the checks, by the fields of the row |
| `Approval.AuthenticationExactly` | orchestrator/core/approval.py:323-330 | the authentication check passes if and only if none is asked for, or the row names a key whose approver is known, unrevoked, in charge of that key and entitled to the action |
| `Approval.OptionalFieldsExactly` | orchestrator/core/approval.py:38-52 | an optional key field is accepted exactly when absent or of the prescribed pattern |
| `Approval.IssueExactly` | orchestrator/core/approval.py:153-190 | an issue succeeds exactly for a fresh id when the schema accepts the fields, and leaves one row, unconsumed and unrevoked, with the given fields and the manager's signature |
| `Approval.RevokeExactly` | orchestrator/core/approval.py:262-280 | a revocation succeeds exactly on a stored, unconsumed token, and sets one mark |
| `Approval.VerifyConsumedExactly` | orchestrator/core/approval.py:406-434 | the later check passes exactly for a stored token that is consumed, unrevoked, signed, authenticated and of the claimed values |
| `Approval.SignatureSurvivesStorage` | orchestrator/core/approval.py:38-52 | the signature recomputed from the row equals the issued one exactly when no optional key field is present and empty, which issuing excludes |
| `Ledger.StateLedger.InitializeTask` | orchestrator/core/state.py:118-169 | creates the PROPOSED row at revision 0, with the digests given and no evidence, if there is none and the schema accepts it; one step of the many-caller ledger |
| `Ledger.StateLedger.DoTransition` | orchestrator/core/state.py:184-344 | commits exactly the specified new row or changes nothing, with the first refusal in the source's order; one step of the many-caller ledger |
| `Ledger.RowsAreConsistent` | orchestrator/core/state.py:225-339 | in every reachable row the revision is the history length less one, entries chain along allowed transitions, and the attempt counter is 0 before the first run and one more than the retries after it, with at most two retries |
| `Ledger.AttemptsStep` | orchestrator/core/state.py:280-290 | one transition keeps the attempt counter in step with the history |
| `Ledger.ChainedStep` | orchestrator/core/state.py:306-323 | one allowed transition keeps the history chained |
| `Ledger.DoneWasEarned` | orchestrator/core/state.py:32-65 | a DONE history ends with the whole pipeline, each stage entered from the one before |
| `Ledger.PipelineStep` | orchestrator/core/state.py:32-65 | each pipeline status has exactly one way in |
| `Ledger.EvidenceIsFresh` | orchestrator/core/state.py:292-303 | a recorded candidate digest was supplied by some transition since which neither base nor head moved |
| `Ledger.HeadIsFresh` | orchestrator/core/state.py:292-303 | a recorded head was supplied by some transition since which the base did not move |
| `Ledger.DoneIsApproved` | orchestrator/core/state.py:242-277 | with approval required, DONE rests on a consumed, unrevoked merge token with the manager's own signature and an approver in order, issued for this task, repository, target ref, policy hash, plan hash and head, where the row speaks for what the call leaves out; the row keeps that head exactly when the call leaves the base alone |
| `Ledger.ApprovalExactly` | orchestrator/core/state.py:242-277 | the approval check passes for exactly the stored tokens that were consumed, and neither revoked nor altered, for this merge, field by field |
| `Ledger.TransitionExactly` | orchestrator/core/state.py:184-344 | a transition commits if and only if revision, table, approval, retry budget and schema allow it, and every field of the row it leaves is as stated |
| `Ledger.TransitionRefusals` | orchestrator/core/state.py:225-290 | which refusal a transition gives, in the order of the checks |
| `Ledger.TableExactly` | orchestrator/core/state.py:32-65 | the transition table read the other way round: from where each status can be reached |
| `Ledger.ReachableRowsHaveLives` | orchestrator/core/state.py:118-344 | every row of a ledger reached by any callers is the end of one such life |
| `Ledger.OneWinnerPerRevision` | orchestrator/core/state.py:225-229 | of all callers that read the same revision of a task at most one ever commits |
| `Ledger.RevisionGrows` | orchestrator/core/state.py:306-339 | revisions never go down |
| `Ledger.TerminalIsForever` | orchestrator/core/state.py:231-233 | no call ever changes a DONE or CANCELLED task |
| `Lease.RuntimeLeaseManager.AcquireLease` | orchestrator/core/lease.py:92-159 | the whole new state of both tables and the returned epoch, or a refusal that changes nothing |
| `Lease.RuntimeLeaseManager.DoHeartbeat` | orchestrator/core/lease.py:161-181 | moves the time of exactly the caller's lease, or refuses a lost or expired one |
| `Lease.RuntimeLeaseManager.ReleaseLease` | orchestrator/core/lease.py:183-191 | deletes exactly the row of this worker and epoch, if there is one |
| `Lease.RowCarriesStoredEpoch` | orchestrator/core/lease.py:127-158 | in every history a lease row carries the stored epoch of its task |
| `Lease.EpochsStrictlyIncrease` | orchestrator/core/lease.py:127-159 | successive acquisitions of a task return strictly larger epochs, across releases |
| `Lease.EpochKept` | orchestrator/core/lease.py:138-157 | the stored epoch never falls below one handed out |
| `Lease.StaleHolderIsPowerless` | orchestrator/core/lease.py:161-191 | a superseded epoch can neither prolong nor remove any lease |
| `Lease.HeartbeatsAreNeverFarApart` | orchestrator/core/lease.py:161-181 | a successful heartbeat follows the previous write of the same lease by at most its timeout |
| `Lease.HolderStands` | orchestrator/core/lease.py:92-191 | between an acquisition and the next acquisition or effective release the holder's row stays |
| `Lease.TakeoverNeedsDeath` | orchestrator/core/lease.py:108-126 | nobody acquires over an unreleased holder without finding its process dead |
| `Lease.LateHeartbeatCanLoseTheLease` | orchestrator/core/lease.py:161-181 | a beat whose clock reading is older than the row lets a later timely beat be refused, exactly then |
| `Lease.AcquireExactly` | orchestrator/core/lease.py:92-159 | an acquisition succeeds exactly when the lease is free, or its holder is found dead and was dead or overdue at the first look; the new row holds the worker, process, times and timeout of the call under the next epoch, and no other task is touched |
| `Lease.DeadHolderIsReplaced` | orchestrator/core/lease.py:108-126 | a lease whose holder is dead can be had at once, however fresh it is |
| `Lease.HeartbeatExactly` | orchestrator/core/lease.py:161-181 | a heartbeat succeeds exactly for the holder in time, and moves the heartbeat of that row and nothing else |
| `Lease.ReleaseExactly` | orchestrator/core/lease.py:183-191 | a release removes the row of exactly this worker and epoch, and never the epoch on record |
| `Lease.RowGoesExactly` | orchestrator/core/lease.py:183-191 | in every history a row disappears exactly at a release by its holder under the epoch in force |
| `Scheduler.CheckTaskConflict` | orchestrator/core/scheduler.py:151-179 | false exactly for two parallelizable tasks without a common exclusive key, a common port or an overlapping path |
| `Scheduler.ConflictSymmetric` | orchestrator/core/scheduler.py:151-179 | conflict is symmetric |
| `Scheduler.GreedyChoice` | orchestrator/core/scheduler.py:126-138 | a greedy choice extends the earlier choices with candidates, stays within the slots, and holds no two tasks that clash |
| `Scheduler.GreedyDistinct` | orchestrator/core/scheduler.py:126-138 | a greedy choice from distinct candidates is distinct |
| `Scheduler.DispatchableAreCandidates` | orchestrator/core/scheduler.py:88-138 | every listed task is READY, has its dependencies DONE and clashes with nothing active; the list is distinct and fits the free slots |
| `Scheduler.CandidatesAfterDispatch` | orchestrator/core/scheduler.py:99-124 | dispatching a task removes from the candidates exactly it and what clashes with it, in order |
| `Scheduler.StableBefore` | orchestrator/core/scheduler.py:126-138 | the greedy run without a chosen task and one slot short picks the same others |
| `Scheduler.GreedyStability` | orchestrator/core/scheduler.py:88-149 | dispatching any listed task makes a fresh call return the old list less that task |
| `Scheduler.AnySelectionDispatches` | orchestrator/core/loop.py:144-177 | any selection from one list can be dispatched one after the other without a new look |
| `Scheduler.DispatchIsSafe` | orchestrator/core/scheduler.py:140-149 | a listed task is known and there is a free worker for it |
| `Scheduler.DAGScheduler.UpdateTaskStatus` | orchestrator/core/scheduler.py:58-76 | sets one status, keeps the active set, and on FAILED makes BLOCKED exactly the tasks that depend on it, directly or not, and no other |
| `Scheduler.DAGScheduler.BlockAll` | orchestrator/core/scheduler.py:73-76 | the cascade loop changes exactly the dependents |
| `Scheduler.DAGScheduler.RetryFailedTask` | orchestrator/core/scheduler.py:78-85 | a FAILED task with fewer attempts than three and than its manifest allows becomes READY; anything else is refused, by its own error, unchanged |
| `Scheduler.DAGScheduler.GetDispatchableTasks` | orchestrator/core/scheduler.py:88-138 | the two loops compute the specified greedy list, whose members and whose gaps the rows below describe by the manifests' fields |
| `Scheduler.ConflictExactly` | orchestrator/core/scheduler.py:151-179 | two tasks conflict if and only if one is not parallelizable, or they share an exclusive key, a port or an overlapping path |
| `Scheduler.ListedTasks` | orchestrator/core/scheduler.py:88-138 | listed tasks are READY, idle, with every dependency DONE, apart from every active task, in plan order, no more than the free slots |
| `Scheduler.ListedTasksStandApart` | orchestrator/core/scheduler.py:126-138 | any two listed tasks are parallelizable and share no exclusive key, port or overlapping path |
| `Scheduler.MissingTask` | orchestrator/core/scheduler.py:88-138 | a READY, idle task with its dependencies DONE is missing only if it is not apart from an active task, or tasks listed before its turn took every slot or hold one that it is not apart from |
| `Scheduler.NeedsExactly` | orchestrator/core/scheduler.py:33-40 | a task needs another exactly by way of a task whose manifest lists it |
| `Scheduler.UpdateExactly` | orchestrator/core/scheduler.py:58-76 | what a status update leaves of every task: its status, its place among the active, its attempts |
| `Scheduler.DirectDependentsAreBlocked` | orchestrator/core/scheduler.py:72-76 | a failure blocks every task whose manifest lists the failed one |
| `Scheduler.RetryExactly` | orchestrator/core/scheduler.py:78-85 | a retry is allowed exactly from FAILED with fewer than three attempts and fewer than the manifest allows |
| `Scheduler.DAGScheduler.ReadyCandidates` | orchestrator/core/scheduler.py:99-124 | the first loop collects the candidates in plan order |
| `Scheduler.DAGScheduler.ConflictsWithActive` | orchestrator/core/scheduler.py:115-121 | some active task conflicts |
| `Scheduler.DAGScheduler.Dispatch` | orchestrator/core/scheduler.py:140-149 | succeeds exactly for a listed task, which becomes RUNNING, active and one attempt older |
| `Scheduler.CollectTasks` | orchestrator/core/scheduler.py:27-31 | the loop builds the dictionary of manifests, in which a repeated id keeps its last one, and the list of ids in order |
| `Scheduler.TasksOfSize` | orchestrator/core/scheduler.py:27-31 | the dictionary is as long as the list exactly when no id is repeated |
| `Scheduler.PlanOfLists` | orchestrator/core/scheduler.py:27-31 | with distinct ids the plan holds every manifest under its own id, in the order given |
| `Scheduler.NewScheduler` | orchestrator/core/scheduler.py:46-56 | a scheduler is built if and only if the worker count is 1 to 3, ids are distinct, and the plan's dependencies are known and free of cycles; it is fresh |
| `SchedulerSafety.RunsAreSafe` | orchestrator/core/scheduler.py:58-149 | in every state of every run the active tasks are exactly the RUNNING ones, are no more than the workers, are pairwise compatible, and every task past running, and every task ever dispatched whatever became of it, has its direct dependencies DONE |
| `SchedulerSafety.RunningTasksStandApart` | orchestrator/core/scheduler.py:88-179 | in every state of every run any two RUNNING tasks are parallelizable and share no exclusive key, no port and no overlapping path |
| `SchedulerSafety.RunningTasksHaveWorkers` | orchestrator/core/scheduler.py:88-149 | in every state of every run no more tasks are RUNNING than there are workers, and the dependencies listed by each are DONE |
| `SchedulerSafety.RanMeansAllDone` | orchestrator/core/scheduler.py:109-113 | a task whose status is past running has all its transitive dependencies DONE |
| `SchedulerSafety.DispatchedMeansAllDone` | orchestrator/core/scheduler.py:109-113 | so has every task that was ever dispatched, blocked, cancelled or waiting again as it may be |
| `SchedulerSafety.NothingRunsEarly` | orchestrator/core/scheduler.py:58-149 | from a successful dispatch on, in every later state of the run, all transitive dependencies of the task are DONE |
| `SchedulerSafety.CascadeSparesTheRun` | orchestrator/core/scheduler.py:72-76 | a failure's cascade reaches only tasks that have not run |
| `SchedulerSafety.DispatchKeepsSafe` | orchestrator/core/scheduler.py:140-149 | a dispatch keeps the whole-run invariant |
| `SchedulerSafety.ReportKeepsSafe` | orchestrator/core/scheduler.py:58-76 | a status report along the ledger's table keeps it |
| `SchedulerSafety.ConcurrentTasksWriteApart` | orchestrator/core/scheduler.py:162-166 | no changed path is accepted for two tasks that run at the same time and state their allowed paths |
| `SchedulerSafety.ConcurrentTasksShareNoFile` | orchestrator/core/scheduler.py:162-166 | with canonical rules no file is accepted for two tasks that run at the same time, however each spells its path |
| `SchedulerSafety.DispatchesWithinBudget` | orchestrator/core/scheduler.py:78-85 | the attempts field counts the dispatches of a run, and they stay within the retry limit, for all limits the schema allows |
| `LoopModel.PollKeepsAgreement` | orchestrator/core/loop.py:77-139 | polling one session keeps ledger, scheduler, leases and sessions in agreement, the finished ones set aside; the scheduler keeps showing each task's recorded status, or BLOCKED for one that has not run |
| `LoopModel.RunningDependentsWait` | orchestrator/core/loop.py:115-139 | no task that depends on a running task is running, so a cascade never touches a session |
| `LoopModel.PollingAgrees` | orchestrator/core/loop.py:75-142 | in whatever order the sessions are polled, the agreement stands at the end |
| `LoopModel.PollingSettles` | orchestrator/core/loop.py:75-142 | each session's row and lease end as its own poll says, whatever the others brought |
| `LoopModel.StartKeepsAgreement` | orchestrator/core/loop.py:158-197 | a successful start keeps the agreement, the new session holding the current lease |
| `LoopModel.DispatchingAgrees` | orchestrator/core/loop.py:144-197 | dispatching the list computed once keeps the agreement to its end |
| `LoopModel.DispatchingSettles` | orchestrator/core/loop.py:144-197 | each listed task starts exactly when its own lease could be had; then its row is RUNNING one revision on with its evidence unchanged, and its session holds a lease with this process, this time and the timeout asked for, under the next epoch |
| `LoopModel.StepAgrees` | orchestrator/core/loop.py:71-199 | after a whole step that does not raise, session keys, active tasks and RUNNING rows coincide and every session holds the current epoch of its lease |
| `LoopModel.StepSettlesSessions` | orchestrator/core/loop.py:75-142 | a session found by a step is kept; or it is ended with its row one revision on, in VALIDATING with the collected digest or in FAILED, and its lease really deleted; or in BLOCKED under its lease; in each case with all other evidence of the row unchanged |
| `LoopModel.PlainMoveExactly` | orchestrator/core/state.py:184-344 | when the ledger allows the loop's transitions, and every field of the row they leave |
| `LoopModel.LeaseExactly` | orchestrator/core/loop.py:156-170 | a start gets its lease exactly when the store answers and whoever holds it is dead, and the lease row is as stated |
| `LoopModel.PollingBlocksOnce` | orchestrator/core/loop.py:124-136 | while no open dependent is shared, polling leaves each task that is not in session as it was, or blocked once if something it depends on failed |
| `LoopModel.PollingRaisesExactly` | orchestrator/core/loop.py:75-139 | from agreement the whole polling phase goes through if and only if each session alone could be polled and no two failing ones share an open dependent, read off the state before the step |
| `LoopModel.PollingOrderIsIrrelevant` | orchestrator/core/loop.py:75-139 | whether it raises does not depend on the order of the sessions |
| `LoopModel.DispatchingRaisesExactly` | orchestrator/core/loop.py:144-197 | the dispatch phase goes through if and only if each listed task could be started, or passed over, on what is there before the first start |
| `LoopModel.StepRaisesExactly` | orchestrator/core/loop.py:71-199 | the two conditions together are exactly when a step from agreement goes through |
| `LoopModel.TwoFailuresRaise` | orchestrator/core/loop.py:124-136 | a state in agreement with two sessions whose failures make every step raise, in either order |
| `LoopModel.EachCouldFail` | orchestrator/core/loop.py:115-139 | in that state each of the two could fail by itself |
| `LoopModel.LoadingAgrees` | orchestrator/core/loop.py:41-69 | loading an orderly ledger in plan order, afresh or beside live sessions, brings the loaded tasks into agreement one by one and leaves the ledger's view unchanged |
| `LoopModel.LoadingIsPointwise` | orchestrator/core/loop.py:43-69 | loading one task neither helps nor hinders another |
| `LoopModel.RecoveredAgrees` | orchestrator/core/loop.py:41-69 | a fully loaded orderly ledger means agreement |
| `LoopModel.CascadeIsHarmless` | orchestrator/core/loop.py:69 | the scheduler's cascade during loading blocks only tasks the ledger says have not run |
| `LoopModel.CrashSafeExtends` | orchestrator/core/loop.py:71-199 | a commit that keeps RUNNING tasks leased extends the chain of crash points |
| `LoopModel.CrashSafeMeans` | orchestrator/core/loop.py:56-60 | if the first state of the chain has a lease for every RUNNING task, so has every state |
| `LoopModel.MoveKeepsOrderly` | orchestrator/core/state.py:32-65 | no ledger transition but the one to RUNNING can make a ledger unsafe to load, not even one half of a cascade |
| `LoopModel.StartsAreJustified` | orchestrator/core/loop.py:144-177 | from agreement every transition to RUNNING of the dispatch phase leaves a ledger that is safe to load |
| `LoopModel.RestartFromAnyCrashPoint` | orchestrator/core/loop.py:41-69 | a fresh controller whose adapter recovers loads every state of such a chain without raising, and ledger, scheduler, leases and sessions then agree |
| `StepOutcome.StepMeansExactly` | orchestrator/core/loop.py:71-199 | after a step from agreement that goes through, every task is accounted for by its row, lease and session: those that had a session as their poll says, and the others started, blocked once with their evidence unchanged, or untouched |
| `StepOutcome.WaitersAreStepped` | orchestrator/core/loop.py:124-197 | a task without a session is started only when READY with its lease free and nothing it needs failed; an open one that needs a failed task is BLOCKED with its evidence unchanged; FAILED and DONE rows, and all others, stay as they were |
| `StepOutcome.ScheduleAfterPolling` | orchestrator/core/loop.py:75-142 | the scheduler's status of every task once all sessions are polled |
| `StepOutcome.StartsExactly` | orchestrator/core/loop.py:144-197 | a step starts exactly the tasks the scheduler then lists and whose lease is free |
| `StepOutcome.FinishExactly` | orchestrator/core/loop.py:77-139 | when one session can be polled without raising, by the ledger's statuses, the schema and the collected evidence |
| `StepOutcome.StartExactly` | orchestrator/core/loop.py:146-197 | when one listed task can be started, or passed over, without raising, by the worktree, the context, the lease, the row and the adapter |
| `StepOutcome.LoadingThePlanMeans` | orchestrator/core/loop.py:41-69 | what start-up leaves of every task: a PROPOSED row if it had none, its old row otherwise, and for a running one without a session the recovered session under the recorded lease |
| `StepOutcome.RecoverExactly` | orchestrator/core/loop.py:43-68 | when one task can be loaded without raising |
| `StepOutcome.LoopRunAgrees` | orchestrator/core/loop.py:201-210 | a run of steps that starts in agreement is in agreement at every state |
| `RunLoop.RunLoopController.InitializeTasks` | orchestrator/core/loop.py:41-69 | succeeds exactly when each task can be loaded, and leaves of each the row and session stated; every crash point on the way is safe and loadable again; a missing lease is refused only if the first durable state already lacked it; from an orderly ledger, with or without live sessions, it ends in agreement |
| `RunLoop.RunLoopController.Step` | orchestrator/core/loop.py:71-199 | raises exactly when specified, from agreement exactly on the condition read off the state before; every durable state it passes through, raising or not, keeps RUNNING tasks leased and can be loaded by a fresh controller; otherwise, from agreement, it leaves agreement and, of every task, the row, lease and session that its poll, the failures below it and its own start call for, each field stated; when a start is uncertain it leaves that task BLOCKED in ledger and scheduler, and leased |
| `RunLoop.RunLoopController.RunUntilIdle` | orchestrator/core/loop.py:201-218 | a run is a chain of such steps; it ends at the first step that finished nothing and left no session, or when the iterations are used up, or where the next step raises; agreement holds at every state, and crash points stay loadable even when it raises; the report is the ledger's status of every task |
| `RunLoop.RunLoopController.Summarize` | orchestrator/core/loop.py:211-218 | the report gives each task of the plan its recorded status, and marks those without a row |
| `RunLoop.RunLoopController.PollSession` | orchestrator/core/loop.py:77-139 | the effect of one poll, in the order ledger, scheduler, lease, and exactly when it raises |
| `RunLoop.RunLoopController.FailSession` | orchestrator/core/loop.py:115-139 | FAILED in the ledger, the cascade in scheduler and ledger, the release; exactly when it raises |
| `RunLoop.RunLoopController.BlockSession` | orchestrator/core/loop.py:104-113 | an uncertain outcome blocks the task in ledger and scheduler and keeps its lease |
| `RunLoop.RunLoopController.CompleteSession` | orchestrator/core/loop.py:82-102 | VALIDATING one revision on with the collected digest, or the earlier one if none was collected, all other evidence unchanged; then the release |
| `RunLoop.RunLoopController.BlockDependents` | orchestrator/core/loop.py:124-136 | the ledger half of a cascade changes exactly the dependents, or stops at the first the ledger will not block |
| `RunLoop.RunLoopController.DispatchOne` | orchestrator/core/loop.py:146-197 | one start, one passed-over lease, or exactly the stated refusals |
| `RunLoop.RunLoopController.StartSession` | orchestrator/core/loop.py:179-197 | a session under the new epoch, or, when the start is uncertain, the task BLOCKED in ledger and scheduler one revision on, still leased and without a session |
| `RunLoop.RunLoopController.DispatchAll` | orchestrator/core/loop.py:144-197 | the whole second phase over the list computed once; the scheduler never refuses |
| `RunLoop.RunLoopController.CommitTransition` | orchestrator/core/state.py:184-344 | one ledger commit that moves the row one revision on and keeps all evidence but a supplied digest; one more crash point |
| `RunLoop.RunLoopController.Reattach` | orchestrator/core/loop.py:56-68 | a RUNNING task is taken up again under the lease it had |
| `ContainerAdapter.OncePerTask` | orchestrator/adapters/container.py:134-255 | over all interleavings, crashes and restarts a container is run at most once for a task in one execution database |
| `ContainerAdapter.OncePerToken` | orchestrator/adapters/container.py:186-191 | and at most once for a token over all execution databases |
| `ContainerAdapter.RunsAreApproved` | orchestrator/adapters/container.py:148-191 | a run starts only in a start call of a live controller whose claim is on record and whose token was by then issued for, and consumed in, exactly the context whose digest the claim holds, a task execution of this very task |
| `ContainerAdapter.ClaimsAreForever` | orchestrator/adapters/container.py:148-154 | a claimed task stays claimed by the same run, context, token and owner |
| `ContainerAdapter.AlwaysSound` | orchestrator/adapters/container.py:134-287 | the invariants of claims, consumptions, run log and processes hold in every reachable state |
| `ContainerAdapter.ClaimsKept` | orchestrator/adapters/container.py:129-154 | every step keeps one durable row per claim, with unique run ids, no final row while its call is open, and in every final row a result of that row's own run and context |
| `ContainerAdapter.ResultsComeFromRuns` | orchestrator/adapters/container.py:186-255 | in every reachable state a stored result is what the container of the row's own call reported: SUCCESS exactly when it exited with 0, FAILED exactly when otherwise, filed under the row's run and the claimed context's digest |
| `ContainerAdapter.StatusExactly` | orchestrator/adapters/container.py:192-253 | SUCCESS for an exit with 0 of this run with verified artifacts, FAILED for any other exit of this run, with the runner's report; anything else is BLOCKED |
| `ContainerAdapter.GoneIsDead` | orchestrator/adapters/container.py:270-287 | a probe that finds the PID free, or taken by a process started at another time, means that the owner is dead |
| `ContainerAdapter.OnlyLaunchRuns` | orchestrator/adapters/container.py:191-287 | no step but a start's launch runs a container, recovery included |
| `ContainerAdapter.OnlyRecoveryOverwrites` | orchestrator/adapters/container.py:129-132 | only a recovery's write can change a recorded result |
| `ContainerAdapter.OrphanStays` | orchestrator/adapters/container.py:270-287 | a row without a result whose owner is dead never gets one |
| `ContainerAdapter.ResultsAreFinal` | orchestrator/adapters/container.py:270-287 | if recoveries read only after the owner's death, a SUCCESS or FAILED record is never touched again |
| `ContainerAdapter.RecoveryLosesResultsExactly` | orchestrator/adapters/container.py:270-287 | in every reachable state, the BLOCKED write of a recovery that has read a call's row can come to replace a result if and only if the recovery runs in another, living process and has not finished, and the result is there already or, the owner not yet looked for, the call may still record one |
| `ContainerAdapter.ResultComesAndGoes` | orchestrator/adapters/container.py:186-287 | while a live call has consumed its token or still can, things can go on so that it records a result, its controller ends, and that recovery overwrites it |
| `ContainerAdapter.ResultGoes` | orchestrator/adapters/container.py:278-287 | a recorded result can be overwritten by every unfinished recovery of another, living process |
| `ContainerAdapter.EraserIsAnother` | orchestrator/adapters/container.py:278-287 | nobody else ever erases one: the eraser is alive, is not the row's owner and had not finished before |
| `ContainerAdapter.NothingToLose` | orchestrator/adapters/container.py:253-287 | if the controller is dead, the call has raised or stopped, or its token can no longer be consumed, no result ever comes |
| `ContainerAdapter.RecoveriesAlwaysFit` | orchestrator/adapters/container.py:270-287 | in every reachable state a recovery's reading matches the row but for the status, and an owner found gone is dead |
| `ContainerAdapter.ApprovedContainerAdapter.StartTask` | orchestrator/adapters/container.py:134-255 | for a free task and run id, the row a start leaves: with the token consumed SUCCESS exactly when the runner exited with 0 for this run with verified artifacts, FAILED exactly when it exited otherwise for this run, with its report, and else BLOCKED; RESERVED if no snapshot could be taken; the approval table, the run log, and exactly when it succeeds |
| `ContainerAdapter.ApprovedContainerAdapter.Execute` | orchestrator/adapters/container.py:186-255 | consume, admit, run, record; any exception leaves BLOCKED |
| `ContainerAdapter.ApprovedContainerAdapter.Claim` | orchestrator/adapters/container.py:148-154 | the insert succeeds exactly for a free task and run id |
| `ContainerAdapter.ApprovedContainerAdapter.WriteStatus` | orchestrator/adapters/container.py:129-132 | the update reaches exactly the row of the run |
| `ContainerAdapter.ApprovedContainerAdapter.RecoverTask` | orchestrator/adapters/container.py:270-287 | returns the run of a final row unchanged, makes exactly the one row BLOCKED when its owner is gone, and then really dead, and the clean-up worked, refuses the rest, and runs nothing |
| `ContainerAdapter.ApprovedContainerAdapter.PollTask` | orchestrator/adapters/container.py:257-259 | the status of the one row of the run |
| `ContainerAdapter.ApprovedContainerAdapter.CollectResults` | orchestrator/adapters/container.py:261-265 | there is a result to collect exactly when the status is SUCCESS or FAILED; it is the stored one, of this run and the claimed context, and SUCCESS means that it exited with 0 |
| `ContainerRunner.ConfirmedMeansGone` | orchestrator/core/container.py:132-153 | CONFIRMED in the journal means the container's id is on record and no container carries the run's label |
| `ContainerRunner.GoneForever` | orchestrator/core/container.py:223-242 | once gone, no later step of anybody brings a container with the run's label back |
| `ContainerRunner.OnlyOwnContainersRemoved` | orchestrator/core/container.py:116-145 | the runner removes only a container with the run's name, both labels, and the id on record |
| `ContainerRunner.OthersUntouched` | orchestrator/core/container.py:132-145 | no step alters a container |
| `ContainerRunner.OwnContainerRecognized` | orchestrator/core/container.py:116-130 | at every crash point the ownership checks accept exactly the container this run created |
| `ContainerRunner.MarksExactly` | orchestrator/core/container.py:116-130 | the ownership checks by their fields: the name factory- and the run, both labels, and the recorded id if there is one |
| `ContainerRunner.ReconcilableExactly` | orchestrator/core/container.py:132-153 | when a reconciliation confirms, by the journal, the containers and the outcomes of the calls |
| `ContainerRunner.AlwaysSound` | orchestrator/core/container.py:116-264 | the journal and every pass fit the daemon in every reachable state |
| `ContainerRunner.CrashPointsAreReconcilable` | orchestrator/core/container.py:132-153 | after a crash at any point the clean-up can be completed exactly when the container is there, or its id is on record and the name is free |
| `ContainerRunner.ReconcilingAgain` | orchestrator/core/container.py:132-153 | once the clean-up is confirmed, the run over and no pass under way, any number of further passes, whole or cut off, among any doings of others, leaves the journal as it is and removes nothing |
| `ContainerRunner.OfflineContainerRunner.Reconcile` | orchestrator/core/container.py:132-153 | confirms exactly when stated; then the name is free and exactly the run's container is gone; a failure never changes the journal's verdict; after a confirmed clean-up, confirming or failing, it changes nothing |
| `ContainerRunner.OfflineContainerRunner.FindOwned` | orchestrator/core/container.py:116-130 | answers none only for a free name, and an id only for a container that passes every check |
| `ContainerRunner.OfflineContainerRunner.RemoveFound` | orchestrator/core/container.py:142-145 | the id is saved before the removal |
| `ContainerRunner.OfflineContainerRunner.ConfirmGone` | orchestrator/core/container.py:146-149 | CONFIRMED is written exactly after a second look found the name free |
| `ContainerRunner.OfflineContainerRunner.CreateContainer` | orchestrator/core/container.py:205-242 | the journal precedes the request, and the id is saved as soon as it is known |
| `ContainerRunner.OfflineContainerRunner.Run` | orchestrator/core/container.py:205-264 | returns a result exactly when every call works; then the journal says CONFIRMED and the daemon is as before; whatever failed before it, the clean-up runs, and is CONFIRMED exactly when the container came to be and every call of the clean-up works; other containers are untouched in every outcome |
| `Broker.OneReadPerApproval` | orchestrator/bounded_credential_mock.py:66-135 | over all interleavings the store is read at most once for an approval |
| `Broker.HandlesAreUsedUp` | orchestrator/bounded_credential_mock.py:114-118 | a handle that led to a read cannot be used again, and pending and active handles are apart |
| `Broker.CancelledExactly` | orchestrator/bounded_credential_mock.py:137-164 | an open handle is cancelled if and only if some cancel or delete since its grant meant it |
| `Broker.CancellationIsNeverMissed` | orchestrator/bounded_credential_mock.py:95-164 | a call answers cancelled if and only if such a call completed before its final critical section |
| `Broker.OkIsTimely` | orchestrator/bounded_credential_mock.py:66-135 | an ok comes before the deadline, for a monitor within 300 seconds of the grant, for the right bytes, and after no cancellation |
| `Broker.EntryIsTimely` | orchestrator/bounded_credential_mock.py:95-115 | entry needs the trusted task, the granted operation and a grant less than a minute old that nobody has cancelled |
| `Broker.EntryFollowsGrant` | orchestrator/bounded_credential_mock.py:66-115 | whoever enters was granted the handle by an earlier call for this task and operation, less than that call's own ttl ago, which was 60 seconds at most |
| `Broker.PendingWasGranted` | orchestrator/bounded_credential_mock.py:66-93 | every pending handle stems from a grant of a valid approval and carries that grant's own limits |
| `Broker.DeletedIsUnreadable` | orchestrator/bounded_credential_mock.py:147-164 | once a delete has succeeded no later read of that operation's credential brings a byte |
| `Broker.GrantExactly` | orchestrator/bounded_credential_mock.py:66-93 | a grant succeeds exactly for a valid, unissued approval, and the entry it leaves |
| `Broker.EnterExactly` | orchestrator/bounded_credential_mock.py:95-115 | an entry succeeds exactly for a pending, unstopped handle, for its own task and operation, in time |
| `Broker.FinishExactly` | orchestrator/bounded_credential_mock.py:124-135 | the answer of the final critical section: cancelled before expired, expired before the adapter's verdict; the wiped buffer; the audit |
| `Broker.DeleteExactly` | orchestrator/bounded_credential_mock.py:147-164 | a delete stops every handle of its operation, removes the credential unless the store fails, and touches no other |
| `Broker.BuffersAreWiped` | orchestrator/bounded_credential_mock.py:124-125 | after every call the buffer is all zeros |
| `Broker.AlwaysSound` | orchestrator/bounded_credential_mock.py:55-164 | handles, grants, deadlines and executions fit in every reachable state |
| `Broker.Wipe` | orchestrator/bounded_credential_mock.py:125 | every byte of the buffer is overwritten in place |
| `Broker.BoundedMockBroker.GrantTrusted` | orchestrator/bounded_credential_mock.py:66-93 | one handle for a valid, unissued approval, with a deadline and an entry limit as stated, or no change |
| `Broker.BoundedMockBroker.BeginExecute` | orchestrator/bounded_credential_mock.py:95-115 | the first critical section admits exactly the stated requests |
| `Broker.BoundedMockBroker.FinishExecute` | orchestrator/bounded_credential_mock.py:124-135 | the wipe and the final critical section, with the verdict |
| `Broker.BoundedMockBroker.CancelTrusted` | orchestrator/bounded_credential_mock.py:137-145 | the handle is out of the pending ones and its execution is marked |
| `Broker.BoundedMockBroker.DeleteTrusted` | orchestrator/bounded_credential_mock.py:147-164 | everything of the operation is cancelled and no other handle |
| `Broker.BoundedMockBroker.Execute` | orchestrator/bounded_credential_mock.py:95-135 | the answer of a call nobody interferes with |
| `Handoff.ValidateInventory` | orchestrator/core/handoff.py:175-199 | the one-pass check accepts exactly the inventories whose items are sound, pairwise apart, at least one required and 50 MiB at most in total |
| `Handoff.CheckItem` | orchestrator/core/handoff.py:180-197 | an item is accepted exactly when sound and apart from all earlier ones |
| `Handoff.AboveIsProperPrefix` | orchestrator/core/handoff.py:185-186 | the slash test on texts is the prefix relation on components |
| `Handoff.InventoryIsAFileTree` | orchestrator/core/handoff.py:178-187 | after case folding no output is another one or lies inside one |
| `Handoff.InventoryExactly` | orchestrator/core/handoff.py:175-199 | the accepted inventories in plain terms, with the limits as numbers |
| `Handoff.SafePartExactly` | orchestrator/core/handoff.py:70-86 | what a path component must not be: empty, a dot name, with a bad character or ending, a DOS device with or without extension, or a protected name, case apart |
| `Handoff.SafePathExactly` | orchestrator/core/handoff.py:70-88 | an output path is safe exactly when it is not blank, is not the manifest, and no stretch of it between slashes is such a component |
| `Handoff.ValidateTests` | orchestrator/core/handoff.py:201-209 | passes exactly when a required report is a required output |
| `Handoff.CollectItems` | orchestrator/core/handoff.py:244-256 | succeeds exactly when every item is collectable; the received list and the measured bytes are those of the files that are there |
| `Handoff.CollectReceipt` | orchestrator/core/handoff.py:222-274 | a receipt exactly when manifest, trusted versions, files and report are all in order |
| `Handoff.ReportIsMeasured` | orchestrator/core/handoff.py:257-259 | the lookup of the report among the measured bytes cannot miss |
| `Handoff.CheckReport` | orchestrator/core/handoff.py:259-264 | the report passes exactly when it parses, is acceptable and has no failure or error |
| `Handoff.ReceiptPartitionsInventory` | orchestrator/core/handoff.py:244-271 | received and missing paths are the inventory, in its order, every path once and on one side |
| `Handoff.ReceivedAsMeasured` | orchestrator/core/handoff.py:244-256 | every entry of a receipt is an output of the inventory and says the size, hash and trusted version of the bytes found at its path |
| `Handoff.ReceiptMeansTestsPassed` | orchestrator/core/handoff.py:222-274 | with required tests, every required file is received with the declared hash and the report contains a test that ran and passed |
| `Verifier.ComputeDiff` | orchestrator/core/verifier.py:68-94 | the changed paths are exactly the collected ones that the base lacks or holds with another digest, all of them without a base, in ascending order; the digest is that of their listing, or the manifest's without a base |
| `Verifier.SortedChanges` | orchestrator/core/verifier.py:84-94 | the sorted listing of the wanted paths, whatever the order of collection |
| `Verifier.BeforeExactly` | orchestrator/core/verifier.py:84-89 | the order of the listing is the lexicographic one on characters |
| `Verifier.TextExactly` | orchestrator/core/verifier.py:88-90 | the listing is one line of path, colon and digest per file, joined by line breaks |
| `Verifier.ListingIsUnique` | orchestrator/core/verifier.py:84-89 | a set of paths has one sorted listing |
| `Verifier.DiffIgnoresOrder` | orchestrator/core/verifier.py:68-94 | two collections of the same files give the same answer |
| `Verifier.TextIsInjective` | orchestrator/core/verifier.py:89-90 | for paths without line breaks and digests without separators, equal texts list the same paths with the same digests |
| `Verifier.TextCollidesExactly` | orchestrator/core/verifier.py:88-90 | with digests free of separators, a listing shares its text with one of other files if and only if it lists two files or more, or a single one whose path splits into a line and a path that sorts behind it |
| `Verifier.ManyPassForOne` | orchestrator/core/verifier.py:88-90 | two files or more have the text of a single file whose path holds the line breaks |
| `Verifier.OnePassesForTwo` | orchestrator/core/verifier.py:88-90 | a single file whose path splits so has the text of two |
| `Verifier.DiffDigestIsFaithful` | orchestrator/core/verifier.py:83-92 | against one base, diff digests are equal exactly when the changed paths and their digests are |
| `Verifier.CandidateDigestBinds` | orchestrator/core/verifier.py:54-65 | candidate digests are equal exactly when base and diff digest are |
| `Verifier.InvalidateOnMutation` | orchestrator/core/verifier.py:451-471 | returns nothing exactly when the digest of base, colon and new diff digest, and the base, are the earlier ones, and otherwise evidence marked invalid that carries the new ones |
| `Verifier.SurvivesExactly` | orchestrator/core/verifier.py:451-471 | evidence survives exactly when neither the base commit nor the changed files moved |
| `Verifier.UnchangedFilesAreNotBound` | orchestrator/core/verifier.py:80-88 | dropping a collected file leaves the digest unchanged exactly when the file equals its base version |

## Left out

- The JSON files written beside the ledger and approval databases, and reading a task from its file when it has no row: the database row is the truth.
- JSON-schema validation, YAML and JSON parsing: verdicts are parameters, as far as they matter (the patterns for the two optional key fields and the pull-request head are modelled).
- The XML prelude of `parse_junit` (size, encoding, DTD search) and the XML parser: the model starts at the event stream.
- Timestamps and reasons in ledger histories, `acquired_at` bookkeeping, lease process start times, audit texts: nothing is decided by them.
- Schema-type checks of manifests, approvals and packets: modelled as one verdict per record.
- `verify_phase_contract`, and manifests that carry `phase_contract`: they need pattern matching and diffing of file contents.
- `cmd_cancel` of the command line: it releases the lease before the ledger transition, in another order than the run loop.
- Exceptions of SQLite and the file system in the middle of a call: a call that cannot write stops there, which is the crash the interleavings already allow.
- `poll_task` raising in the run loop: it propagates before anything of that session is written.
- The constructor checks of the run loop on the adapter's methods and on synchronous adapters: one guard each.
- What artifact verification measures for a container's result: the report is a parameter of the call; how it is stored and read back is modelled.
- A directory created by the container runner without a journal in it, left by a crash between the two: a second run and a reconciliation both refuse it.
- Docker preflight, input snapshots, resource limits and the copying of artifacts: single guards and foreign calls.
- GitHub publisher, other adapters, hooks, policy engine, RunPod and Windows credential modules, secret scan, dependency audit: subprocess wrappers and single guards that would add only easy members.
- `SchedulerSafety.DispatchesWithinBudget`: assumes that READY is re-entered only by a retry, because the ledger's edge from REVIEW back to READY is not counted by the scheduler.
- `RunLoop.RunLoopController.InitializeTasks`: the agreement at its end assumes a ledger that, read as a scheduler state, is safe, and live sessions, if any, of running tasks under their leases; a ledger edited by hand, or sessions kept after a step that raised, may not be so.
- `RunLoop.RunLoopController.RunUntilIdle`: the pause between two steps is not modelled.
- `ContainerAdapter.ApprovedContainerAdapter.StartTask`: describes the call with nobody else at work on the two databases; the interleavings are covered by the theorems about steps.
- `ContainerRunner.OfflineContainerRunner.Run`: likewise for other clients of the daemon.
- `Broker.BoundedMockBroker.Execute`: likewise for other callers; the clock is read once in the final critical section.
- `Verifier.SurvivesExactly`: assumes an injective hash that prints neither colon nor line break.
