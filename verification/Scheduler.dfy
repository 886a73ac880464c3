/**
 The DAG scheduler (orchestrator/core/scheduler.py): greedy conflict-free selection,
 dispatch, the failure cascade and the retry budget.
 */
module Scheduler {
  import opened Wrappers
  import opened DependencyGraph
  import opened Ledger
  import Paths

  type TaskId = DependencyGraph.TaskId

  datatype Manifest = Manifest(
    dependencies: seq<TaskId>, parallelizable: bool, allowedPaths: seq<string>,
    exclusiveKeys: set<string>, ports: set<int>, maxAttempts: int, status: TaskStatus, worktree: string)

  /** The tasks of a plan, in plan order. */
  datatype Plan = Plan(order: seq<TaskId>, tasks: map<TaskId, Manifest>)
  {
    function Graph(): DependencyGraph.Graph {
      DependencyGraph.Graph(order, map t | t in tasks :: tasks[t].dependencies)
    }

    /** The plan passed the dependency check, with this order as witness. */
    ghost predicate Checked(topo: seq<TaskId>) {
      && Graph().Valid() && Graph().Known()
      && Topological(Graph(), topo) && forall t :: t in topo <==> t in tasks
    }
  }

  /** The three mutable fields of the scheduler. */
  datatype State = State(statuses: map<TaskId, TaskStatus>, active: set<TaskId>, attempts: map<TaskId, nat>)

  ghost predicate Shaped(plan: Plan, s: State) {
    && s.statuses.Keys == plan.tasks.Keys && s.attempts.Keys == plan.tasks.Keys && s.active <= plan.tasks.Keys
    && plan.Graph().Valid() && plan.Graph().Known()
  }

  // ---------------------------------------------------------------------------------------
  // Selection
  // ---------------------------------------------------------------------------------------

  predicate Conflict(a: Manifest, b: Manifest) {
    || !a.parallelizable || !b.parallelizable
    || Paths.PathsOverlap(a.allowedPaths, b.allowedPaths)
    || a.exclusiveKeys * b.exclusiveKeys != {}
    || a.ports * b.ports != {}
  }

  lemma ConflictSymmetric(a: Manifest, b: Manifest)
    ensures Conflict(a, b) <==> Conflict(b, a)
  {
    Paths.OverlapSymmetric(a.allowedPaths, b.allowedPaths);
    assert a.exclusiveKeys * b.exclusiveKeys == b.exclusiveKeys * a.exclusiveKeys;
    assert a.ports * b.ports == b.ports * a.ports;
  }

  /** Nothing the two manifests name stands between them. */
  ghost predicate Apart(a: Manifest, b: Manifest) {
    && a.parallelizable && b.parallelizable
    && (forall p, q | p in a.allowedPaths && q in b.allowedPaths :: !Paths.Overlap(p, q))
    && (forall k | k in a.exclusiveKeys :: k !in b.exclusiveKeys)
    && (forall n | n in a.ports :: n !in b.ports)
  }

  lemma ConflictExactly(a: Manifest, b: Manifest)
    ensures Conflict(a, b) <==> !Apart(a, b)
    ensures Conflict(a, b) <==>
              || !a.parallelizable || !b.parallelizable
              || (exists p, q :: p in a.allowedPaths && q in b.allowedPaths && Paths.Overlap(p, q))
              || (exists k :: k in a.exclusiveKeys && k in b.exclusiveKeys)
              || (exists n :: n in a.ports && n in b.ports)
  {
    if p, q :| p in a.allowedPaths && q in b.allowedPaths && Paths.Overlap(p, q) {
      var i :| 0 <= i < |a.allowedPaths| && a.allowedPaths[i] == p;
      var j :| 0 <= j < |b.allowedPaths| && b.allowedPaths[j] == q;
    }
    if Paths.PathsOverlap(a.allowedPaths, b.allowedPaths) {
      var i, j :| 0 <= i < |a.allowedPaths| && 0 <= j < |b.allowedPaths|
                  && Paths.Overlap(a.allowedPaths[i], b.allowedPaths[j]);
      assert a.allowedPaths[i] in a.allowedPaths && b.allowedPaths[j] in b.allowedPaths;
    }
    if forall k | k in a.exclusiveKeys :: k !in b.exclusiveKeys { assert a.exclusiveKeys * b.exclusiveKeys == {}; }
    if k :| k in a.exclusiveKeys && k in b.exclusiveKeys { assert k in a.exclusiveKeys * b.exclusiveKeys; }
    if forall n | n in a.ports :: n !in b.ports { assert a.ports * b.ports == {}; }
    if n :| n in a.ports && n in b.ports { assert n in a.ports * b.ports; }
  }

  method CheckTaskConflict(a: Manifest, b: Manifest) returns (r: bool)
    ensures r == Conflict(a, b)
    ensures r == !Apart(a, b)
  {
    ConflictExactly(a, b);
    if !a.parallelizable || !b.parallelizable { return true; }
    var overlap := Paths.CheckPathOverlap(a.allowedPaths, b.allowedPaths);
    if overlap { return true; }
    if a.exclusiveKeys * b.exclusiveKeys != {} { return true; }
    return a.ports * b.ports != {};
  }

  /** Ready, every dependency DONE, and nothing running in the way. */
  predicate Candidate(plan: Plan, s: State, t: TaskId) {
    && t in plan.tasks && t in s.statuses && t !in s.active && s.statuses[t].READY?
    && (forall d | d in plan.tasks[t].dependencies :: d in s.statuses && s.statuses[d].DONE?)
    && (forall a | a in s.active :: a in plan.tasks && !Conflict(plan.tasks[t], plan.tasks[a]))
  }

  function CandidatesOf(plan: Plan, s: State, order: seq<TaskId>): (r: seq<TaskId>)
    ensures forall t :: t in r <==> t in order && Candidate(plan, s, t)
    ensures NoDuplicates(order) ==> NoDuplicates(r)
  {
    if order == [] then []
    else
      var init, last := order[..|order| - 1], order[|order| - 1];
      assert order == init + [last];
      CandidatesOf(plan, s, init) + (if Candidate(plan, s, last) then [last] else [])
  }

  /** Two tasks of the plan that cannot run side by side. */
  predicate Clash(plan: Plan, a: TaskId, b: TaskId) {
    a in plan.tasks && b in plan.tasks && Conflict(plan.tasks[a], plan.tasks[b])
  }

  lemma ClashSymmetric(plan: Plan, a: TaskId, b: TaskId)
    ensures Clash(plan, a, b) <==> Clash(plan, b, a)
  {
    if a in plan.tasks && b in plan.tasks { ConflictSymmetric(plan.tasks[a], plan.tasks[b]); }
  }

  predicate ConflictsWithAny(plan: Plan, c: TaskId, chosen: seq<TaskId>) {
    exists i :: 0 <= i < |chosen| && Clash(plan, c, chosen[i])
  }

  /** First come, first served, up to `cap` tasks, skipping whatever clashes with a choice. */
  function Greedy(plan: Plan, candidates: seq<TaskId>, cap: int, chosen: seq<TaskId>): seq<TaskId>
    decreases |candidates|
  {
    if candidates == [] || |chosen| >= cap then chosen
    else if ConflictsWithAny(plan, candidates[0], chosen) then Greedy(plan, candidates[1..], cap, chosen)
    else Greedy(plan, candidates[1..], cap, chosen + [candidates[0]])
  }

  function Dispatchable(plan: Plan, maxWorkers: int, s: State): seq<TaskId> {
    Greedy(plan, CandidatesOf(plan, s, plan.order), maxWorkers - |s.active|, [])
  }

  /** What a greedy choice is: old choices, then candidates, all pairwise compatible, within the cap. */
  lemma {:induction false} GreedyChoice(plan: Plan, candidates: seq<TaskId>, cap: int, chosen: seq<TaskId>)
    requires |chosen| <= cap || cap < 0
    ensures var r := Greedy(plan, candidates, cap, chosen);
            && chosen <= r && (|r| <= cap || r == chosen)
            && (forall i | |chosen| <= i < |r| :: r[i] in candidates)
            && (forall i, j | 0 <= i < j < |r| && |chosen| <= j :: !Clash(plan, r[j], r[i]))
    decreases |candidates|
  {
    if candidates != [] && |chosen| < cap {
      var c, rest := candidates[0], candidates[1..];
      assert candidates == [c] + rest;
      if ConflictsWithAny(plan, c, chosen) {
        GreedyChoice(plan, rest, cap, chosen);
      } else {
        GreedyChoice(plan, rest, cap, chosen + [c]);
      }
    }
  }

  lemma {:induction false} GreedyDistinct(plan: Plan, candidates: seq<TaskId>, cap: int, chosen: seq<TaskId>)
    requires NoDuplicates(chosen + candidates)
    ensures NoDuplicates(Greedy(plan, candidates, cap, chosen))
    decreases |candidates|
  {
    if candidates == [] || |chosen| >= cap {
      ConcatDistinct(chosen, candidates);
    } else {
      var c, rest := candidates[0], candidates[1..];
      assert candidates == [c] + rest && chosen + [c] + rest == chosen + candidates;
      DropKeepsDistinct(chosen, c, rest);
      GreedyDistinct(plan, rest, cap, if ConflictsWithAny(plan, c, chosen) then chosen else chosen + [c]);
    }
  }

  lemma DropKeepsDistinct(a: seq<TaskId>, c: TaskId, b: seq<TaskId>)
    requires NoDuplicates(a + ([c] + b))
    ensures NoDuplicates(a + b)
  {
    var whole := a + ([c] + b);
    forall i, j | 0 <= i < j < |a + b| ensures (a + b)[i] != (a + b)[j] {
      var i', j' := if i < |a| then i else i + 1, if j < |a| then j else j + 1;
      assert (a + b)[i] == whole[i'] && (a + b)[j] == whole[j'];
    }
  }

  // ---------------------------------------------------------------------------------------
  // Greedy stability
  // ---------------------------------------------------------------------------------------

  function Without(s: seq<TaskId>, d: TaskId): (r: seq<TaskId>)
    ensures forall t :: t in r <==> t in s && t != d
    ensures d !in s ==> r == s
  {
    if s == [] then []
    else
      assert s == s[..|s| - 1] + [s[|s| - 1]];
      Without(s[..|s| - 1], d) + (if s[|s| - 1] == d then [] else [s[|s| - 1]])
  }

  lemma WithoutConcat(a: seq<TaskId>, b: TaskId, d: TaskId)
    ensures Without(a + [b], d) == Without(a, d) + (if b == d then [] else [b])
  {
    assert (a + [b])[..|a|] == a;
  }

  lemma {:induction false} WithoutLength(s: seq<TaskId>, d: TaskId)
    requires d in s && NoDuplicates(s)
    ensures |Without(s, d)| == |s| - 1
  {
    var init, last := s[..|s| - 1], s[|s| - 1];
    if last == d {
      assert d !in init;
    } else {
      assert s == init + [last];
      WithoutLength(init, d);
    }
  }

  /** The candidates that survive the dispatch of `d`. */
  function Surviving(plan: Plan, candidates: seq<TaskId>, d: TaskId): seq<TaskId> {
    if candidates == [] then []
    else (if candidates[0] == d || Clash(plan, candidates[0], d) then [] else [candidates[0]])
         + Surviving(plan, candidates[1..], d)
  }

  lemma {:induction false} SurvivingConcat(plan: Plan, a: seq<TaskId>, b: seq<TaskId>, d: TaskId)
    ensures Surviving(plan, a + b, d) == Surviving(plan, a, d) + Surviving(plan, b, d)
  {
    if a == [] {
      assert a + b == b;
    } else {
      assert (a + b)[1..] == a[1..] + b;
      SurvivingConcat(plan, a[1..], b, d);
    }
  }

  lemma SurvivingCons(plan: Plan, c: TaskId, rest: seq<TaskId>, d: TaskId)
    ensures Surviving(plan, [c] + rest, d) ==
            (if c == d || Clash(plan, c, d) then Surviving(plan, rest, d) else [c] + Surviving(plan, rest, d))
  {
    assert ([c] + rest)[1..] == rest;
  }

  lemma GreedyCons(plan: Plan, c: TaskId, rest: seq<TaskId>, cap: int, chosen: seq<TaskId>)
    ensures Greedy(plan, [c] + rest, cap, chosen) ==
            (if |chosen| >= cap then chosen
             else if ConflictsWithAny(plan, c, chosen) then Greedy(plan, rest, cap, chosen)
             else Greedy(plan, rest, cap, chosen + [c]))
  {
    assert ([c] + rest)[1..] == rest;
  }

  /** The choice among the survivors of `d`, one slot short, is the choice without `d`. */
  ghost predicate Tracks(plan: Plan, candidates: seq<TaskId>, cap: int, chosen: seq<TaskId>, d: TaskId) {
    Greedy(plan, Surviving(plan, candidates, d), cap - 1, Without(chosen, d))
    == Without(Greedy(plan, candidates, cap, chosen), d)
  }

  /** A candidate that clashes with a choice other than `d`, or with `d` itself, is skipped by both. */
  lemma TracksSkip(plan: Plan, c: TaskId, rest: seq<TaskId>, cap: int, chosen: seq<TaskId>, d: TaskId)
    requires |Without(chosen, d)| < cap - 1 && |chosen| < cap && ConflictsWithAny(plan, c, chosen)
    requires Tracks(plan, rest, cap, chosen, d)
    ensures Tracks(plan, [c] + rest, cap, chosen, d)
  {
    GreedyCons(plan, c, rest, cap, chosen);
    SurvivingCons(plan, c, rest, d);
    GreedyCons(plan, c, Surviving(plan, rest, d), cap - 1, Without(chosen, d));
    AnyWithout(plan, c, chosen, d);
  }

  lemma TracksTake(plan: Plan, c: TaskId, rest: seq<TaskId>, cap: int, chosen: seq<TaskId>, d: TaskId)
    requires |Without(chosen, d)| < cap - 1 && |chosen| < cap && !ConflictsWithAny(plan, c, chosen)
    requires c != d && !Clash(plan, c, d) && Tracks(plan, rest, cap, chosen + [c], d)
    ensures Tracks(plan, [c] + rest, cap, chosen, d)
  {
    GreedyCons(plan, c, rest, cap, chosen);
    SurvivingCons(plan, c, rest, d);
    GreedyCons(plan, c, Surviving(plan, rest, d), cap - 1, Without(chosen, d));
    WithoutConcat(chosen, c, d);
    AnyWithout(plan, c, chosen, d);
  }

  lemma AnyWithout(plan: Plan, c: TaskId, chosen: seq<TaskId>, d: TaskId)
    ensures ConflictsWithAny(plan, c, chosen) <==>
              ConflictsWithAny(plan, c, Without(chosen, d)) || (d in chosen && Clash(plan, c, d))
  {
    var less := Without(chosen, d);
    if i :| 0 <= i < |chosen| && Clash(plan, c, chosen[i]) {
      if chosen[i] != d {
        assert chosen[i] in less;
        var j :| 0 <= j < |less| && less[j] == chosen[i];
      }
    }
    if j :| 0 <= j < |less| && Clash(plan, c, less[j]) {
      assert less[j] in chosen;
      var i :| 0 <= i < |chosen| && chosen[i] == less[j];
    }
    if d in chosen { var i :| 0 <= i < |chosen| && chosen[i] == d; }
  }

  /** Once `d` is chosen, the two runs stay in step to the end. */
  lemma {:induction false} StableAfter(plan: Plan, candidates: seq<TaskId>, cap: int, chosen: seq<TaskId>, d: TaskId)
    requires d in chosen && NoDuplicates(chosen + candidates)
    ensures Tracks(plan, candidates, cap, chosen, d)
    decreases |candidates|
  {
    ConcatDistinct(chosen, candidates);
    WithoutLength(chosen, d);
    if candidates != [] && |chosen| < cap {
      var c, rest := candidates[0], candidates[1..];
      assert candidates == [c] + rest && chosen + [c] + rest == chosen + candidates;
      DropKeepsDistinct(chosen, c, rest);
      DroppedIsNotChosen(chosen, c, rest);
      if ConflictsWithAny(plan, c, chosen) {
        StableAfter(plan, rest, cap, chosen, d);
        TracksSkip(plan, c, rest, cap, chosen, d);
      } else {
        StableAfter(plan, rest, cap, chosen + [c], d);
        AnyWithout(plan, c, chosen, d);
        TracksTake(plan, c, rest, cap, chosen, d);
      }
    }
  }

  lemma TracksHit(plan: Plan, rest: seq<TaskId>, cap: int, chosen: seq<TaskId>, d: TaskId)
    requires NoDuplicates(chosen + ([d] + rest)) && |chosen| < cap && !ConflictsWithAny(plan, d, chosen)
    ensures Tracks(plan, [d] + rest, cap, chosen, d)
  {
    assert Tracks(plan, rest, cap, chosen + [d], d) by {
      assert chosen + [d] + rest == chosen + ([d] + rest);
      StableAfter(plan, rest, cap, chosen + [d], d);
    }
    assert Without(chosen, d) == chosen && Without(chosen + [d], d) == chosen by {
      DroppedIsNotChosen(chosen, d, rest);
      WithoutConcat(chosen, d, d);
    }
    GreedyCons(plan, d, rest, cap, chosen);
    SurvivingCons(plan, d, rest, d);
  }

  /** Before `d` is reached the two runs agree; when it is reached, one slot is already spent. */
  lemma {:induction false} StableBefore(plan: Plan, candidates: seq<TaskId>, cap: int, chosen: seq<TaskId>, d: TaskId)
    requires NoDuplicates(chosen + candidates) && d !in chosen && |chosen| <= cap
    requires d in Greedy(plan, candidates, cap, chosen)
    ensures Tracks(plan, candidates, cap, chosen, d)
    decreases |candidates|
  {
    if |chosen| == cap - 1 {
      LastSlot(plan, candidates, cap, chosen, d);
    } else {
      var c, rest := candidates[0], candidates[1..];
      assert candidates == [c] + rest && chosen + [c] + rest == chosen + candidates;
      DropKeepsDistinct(chosen, c, rest);
      if ConflictsWithAny(plan, c, chosen) {
        StableBefore(plan, rest, cap, chosen, d);
        TracksSkip(plan, c, rest, cap, chosen, d);
      } else if c == d {
        TracksHit(plan, rest, cap, chosen, d);
      } else {
        ChosenIsCompatible(plan, rest, cap, chosen, c, d);
        StableBefore(plan, rest, cap, chosen + [c], d);
        TracksTake(plan, c, rest, cap, chosen, d);
      }
    }
  }

  lemma LastSlot(plan: Plan, candidates: seq<TaskId>, cap: int, chosen: seq<TaskId>, d: TaskId)
    requires d !in chosen && |chosen| == cap - 1 && d in Greedy(plan, candidates, cap, chosen)
    ensures Without(Greedy(plan, candidates, cap, chosen), d) == chosen
  {
    GreedyChoice(plan, candidates, cap, chosen);
    OneMore(chosen, Greedy(plan, candidates, cap, chosen), d);
  }

  lemma OneMore(chosen: seq<TaskId>, r: seq<TaskId>, d: TaskId)
    requires chosen <= r && |r| <= |chosen| + 1 && d in r && d !in chosen
    ensures Without(r, d) == chosen
  {
    assert r == chosen + [d];
    WithoutConcat(chosen, d, d);
  }

  /** A task chosen before `d` is compatible with it. */
  lemma ChosenIsCompatible(plan: Plan, rest: seq<TaskId>, cap: int, chosen: seq<TaskId>, c: TaskId, d: TaskId)
    requires c != d && d !in chosen && |chosen| < cap
    requires d in Greedy(plan, rest, cap, chosen + [c])
    ensures !Clash(plan, c, d)
  {
    var r, n := Greedy(plan, rest, cap, chosen + [c]), |chosen|;
    GreedyChoice(plan, rest, cap, chosen + [c]);
    var k :| 0 <= k < |r| && r[k] == d;
    forall i | 0 <= i <= n ensures r[i] != d {
      assert r[i] == (chosen + [c])[i];
      if i < n { assert chosen[i] in chosen; }
    }
    assert r[n] == (chosen + [c])[n] == c;
    ClashSymmetric(plan, c, d);
  }

  lemma ConcatDistinct(a: seq<TaskId>, b: seq<TaskId>)
    requires NoDuplicates(a + b)
    ensures NoDuplicates(a)
  {
    forall i, j | 0 <= i < j < |a| ensures a[i] != a[j] { assert (a + b)[i] != (a + b)[j]; }
  }

  lemma DroppedIsNotChosen(chosen: seq<TaskId>, c: TaskId, rest: seq<TaskId>)
    requires NoDuplicates(chosen + ([c] + rest))
    ensures c !in chosen && c !in rest
  {
    var whole := chosen + ([c] + rest);
    assert whole[|chosen|] == c;
    forall i | 0 <= i < |chosen| ensures chosen[i] != c { assert whole[i] == chosen[i]; }
    forall i | 0 <= i < |rest| ensures rest[i] != c { assert whole[|chosen| + 1 + i] == rest[i]; }
  }

  function AttemptsOf(s: State, t: TaskId): nat { if t in s.attempts then s.attempts[t] else 0 }

  function Dispatched(s: State, t: TaskId): State {
    State(s.statuses[t := RUNNING], s.active + {t}, s.attempts[t := AttemptsOf(s, t) + 1])
  }

  /** Dispatching `d` takes away exactly `d` and what clashes with it. */
  lemma {:induction false} CandidatesAfterDispatch(plan: Plan, s: State, order: seq<TaskId>, d: TaskId)
    requires Candidate(plan, s, d)
    ensures CandidatesOf(plan, Dispatched(s, d), order) == Surviving(plan, CandidatesOf(plan, s, order), d)
  {
    if order != [] {
      var init, last := order[..|order| - 1], order[|order| - 1];
      CandidatesAfterDispatch(plan, s, init, d);
      CandidateAfterDispatch(plan, s, last, d);
      var tail := if Candidate(plan, s, last) then [last] else [];
      SurvivingConcat(plan, CandidatesOf(plan, s, init), tail, d);
      assert Surviving(plan, [], d) == [];
    }
  }

  lemma CandidateAfterDispatch(plan: Plan, s: State, t: TaskId, d: TaskId)
    requires Candidate(plan, s, d)
    ensures Candidate(plan, Dispatched(s, d), t) <==>
              Candidate(plan, s, t) && t != d && !Clash(plan, t, d)
  {
    var after := Dispatched(s, d);
    assert forall a :: a in after.active <==> a in s.active || a == d;
    assert forall x :: x in after.statuses && after.statuses[x].DONE? <==> x in s.statuses && s.statuses[x].DONE?;
  }

  lemma GreedyFromNothing(plan: Plan, candidates: seq<TaskId>, cap: int)
    requires NoDuplicates(candidates)
    ensures var r := Greedy(plan, candidates, cap, []);
            (forall t | t in r :: t in candidates) && NoDuplicates(r) && (r != [] ==> |r| <= cap)
  {
    GreedyChoice(plan, candidates, cap, []);
    assert [] + candidates == candidates;
    GreedyDistinct(plan, candidates, cap, []);
  }

  lemma DispatchableAreCandidates(plan: Plan, maxWorkers: int, s: State)
    requires Shaped(plan, s)
    ensures forall t :: t in Dispatchable(plan, maxWorkers, s) ==> Candidate(plan, s, t)
    ensures NoDuplicates(Dispatchable(plan, maxWorkers, s))
    ensures Dispatchable(plan, maxWorkers, s) != [] ==> |s.active| + |Dispatchable(plan, maxWorkers, s)| <= maxWorkers
  {
    GreedyFromNothing(plan, CandidatesOf(plan, s, plan.order), maxWorkers - |s.active|);
  }

  lemma OneSlotLess(plan: Plan, candidates: seq<TaskId>, cap: int, d: TaskId)
    requires NoDuplicates(candidates) && d in Greedy(plan, candidates, cap, [])
    ensures Greedy(plan, Surviving(plan, candidates, d), cap - 1, []) == Without(Greedy(plan, candidates, cap, []), d)
  {
    assert [] + candidates == candidates;
    StableBefore(plan, candidates, cap, [], d);
    assert Without([], d) == [];
  }

  lemma ListedIsCandidate(plan: Plan, maxWorkers: int, s: State, d: TaskId)
    requires Shaped(plan, s) && d in Dispatchable(plan, maxWorkers, s)
    ensures Candidate(plan, s, d) && NoDuplicates(plan.order)
  {
    DispatchableAreCandidates(plan, maxWorkers, s);
  }

  lemma StabilityOfGreedy(plan: Plan, maxWorkers: int, s: State, d: TaskId)
    requires NoDuplicates(plan.order) && Candidate(plan, s, d) && d in Dispatchable(plan, maxWorkers, s)
    ensures Greedy(plan, CandidatesOf(plan, Dispatched(s, d), plan.order), maxWorkers - |s.active| - 1, []) ==
            Without(Dispatchable(plan, maxWorkers, s), d)
  {
    CandidatesAfterDispatch(plan, s, plan.order, d);
    OneSlotLess(plan, CandidatesOf(plan, s, plan.order), maxWorkers - |s.active|, d);
  }

  lemma ListAfterDispatch(plan: Plan, maxWorkers: int, s: State, d: TaskId)
    requires d !in s.active
    ensures Dispatchable(plan, maxWorkers, Dispatched(s, d)) ==
            Greedy(plan, CandidatesOf(plan, Dispatched(s, d), plan.order), maxWorkers - |s.active| - 1, [])
  {
    assert |Dispatched(s, d).active| == |s.active| + 1;
  }

  /** Dispatching any member of the list leaves a fresh call with the rest of the list, in order. */
  lemma GreedyStability(plan: Plan, maxWorkers: int, s: State, d: TaskId)
    requires Shaped(plan, s) && d in Dispatchable(plan, maxWorkers, s)
    ensures Dispatchable(plan, maxWorkers, Dispatched(s, d)) == Without(Dispatchable(plan, maxWorkers, s), d)
  {
    ListedIsCandidate(plan, maxWorkers, s, d);
    StabilityOfGreedy(plan, maxWorkers, s, d);
    ListAfterDispatch(plan, maxWorkers, s, d);
  }

  function DispatchedAll(s: State, ds: seq<TaskId>): State
    decreases |ds|
  {
    if ds == [] then s else DispatchedAll(Dispatched(s, ds[0]), ds[1..])
  }

  /** Any selection from one list can be dispatched one after the other, without a second look. */
  lemma {:induction false} AnySelectionDispatches(plan: Plan, maxWorkers: int, s: State, ds: seq<TaskId>, k: nat)
    requires Shaped(plan, s) && NoDuplicates(ds) && k < |ds|
    requires forall d | d in ds :: d in Dispatchable(plan, maxWorkers, s)
    ensures ds[k] in Dispatchable(plan, maxWorkers, DispatchedAll(s, ds[..k]))
    decreases k
  {
    DispatchableAreCandidates(plan, maxWorkers, s);
    if k > 0 {
      var next := Dispatched(s, ds[0]);
      GreedyStability(plan, maxWorkers, s, ds[0]);
      forall d | d in ds[1..] ensures d in Dispatchable(plan, maxWorkers, next) {
        var i :| 0 <= i < |ds[1..]| && ds[1..][i] == d;
        assert ds[i + 1] == d;
      }
      AnySelectionDispatches(plan, maxWorkers, next, ds[1..], k - 1);
      assert ds[..k][0] == ds[0] && ds[..k][1..] == ds[1..][..k - 1];
    } else {
      assert ds[..0] == [];
    }
  }

  lemma DispatchIsSafe(plan: Plan, maxWorkers: int, s: State, t: TaskId)
    requires Shaped(plan, s) && t in Dispatchable(plan, maxWorkers, s)
    ensures t in plan.tasks && t in s.attempts && |s.active| < maxWorkers && Shaped(plan, Dispatched(s, t))
  {
    DispatchableAreCandidates(plan, maxWorkers, s);
  }

  // ---------------------------------------------------------------------------------------
  // The list, by the manifests' own fields
  // ---------------------------------------------------------------------------------------

  /** `u` stands somewhere before `t` in `s`. */
  ghost predicate Precedes(s: seq<TaskId>, u: TaskId, t: TaskId) {
    exists i, j :: 0 <= i < j < |s| && s[i] == u && s[j] == t
  }

  /** Waiting to be started: READY, not running, every dependency DONE. */
  ghost predicate Waiting(plan: Plan, s: State, t: TaskId) {
    && t in plan.tasks && t in s.statuses && s.statuses[t] == READY && t !in s.active
    && forall d | d in plan.tasks[t].dependencies :: d in s.statuses && s.statuses[d] == DONE
  }

  lemma CandidateExactly(plan: Plan, s: State, t: TaskId)
    requires s.active <= plan.tasks.Keys
    ensures Candidate(plan, s, t) <==>
              Waiting(plan, s, t) && forall a | a in s.active :: Apart(plan.tasks[t], plan.tasks[a])
  {
    if t in plan.tasks {
      forall a | a in s.active
        ensures Conflict(plan.tasks[t], plan.tasks[a]) <==> !Apart(plan.tasks[t], plan.tasks[a])
      {
        ConflictExactly(plan.tasks[t], plan.tasks[a]);
      }
    }
  }

  lemma {:induction false} CandidatesKeepOrder(plan: Plan, s: State, order: seq<TaskId>, i: nat, j: nat)
    requires i < j < |CandidatesOf(plan, s, order)|
    ensures Precedes(order, CandidatesOf(plan, s, order)[i], CandidatesOf(plan, s, order)[j])
  {
    var init, last := order[..|order| - 1], order[|order| - 1];
    var before, all := CandidatesOf(plan, s, init), CandidatesOf(plan, s, order);
    if j < |before| {
      CandidatesKeepOrder(plan, s, init, i, j);
      var m, n :| 0 <= m < n < |init| && init[m] == all[i] && init[n] == all[j];
      assert order[m] == all[i] && order[n] == all[j];
    } else {
      assert all[i] in init;
      var m :| 0 <= m < |init| && init[m] == all[i];
      assert order[m] == all[i] && order[|order| - 1] == all[j];
    }
  }

  lemma PrecedesLater(c: TaskId, rest: seq<TaskId>, u: TaskId, t: TaskId)
    requires Precedes(rest, u, t) || (u == c && t in rest)
    ensures Precedes([c] + rest, u, t)
  {
    var s := [c] + rest;
    if Precedes(rest, u, t) {
      var i, j :| 0 <= i < j < |rest| && rest[i] == u && rest[j] == t;
      assert s[i + 1] == u && s[j + 1] == t;
    } else {
      var j :| 0 <= j < |rest| && rest[j] == t;
      assert s[0] == u && s[j + 1] == t;
    }
  }

  lemma {:induction false} GreedyKeepsOrder(plan: Plan, candidates: seq<TaskId>, cap: int, chosen: seq<TaskId>,
                                            i: nat, j: nat)
    requires |chosen| <= cap || cap < 0
    requires |chosen| <= i < j < |Greedy(plan, candidates, cap, chosen)|
    ensures var r := Greedy(plan, candidates, cap, chosen); Precedes(candidates, r[i], r[j])
    decreases |candidates|
  {
    var r := Greedy(plan, candidates, cap, chosen);
    var c, rest := candidates[0], candidates[1..];
    assert candidates == [c] + rest;
    if ConflictsWithAny(plan, c, chosen) {
      GreedyKeepsOrder(plan, rest, cap, chosen, i, j);
    } else {
      GreedyChoice(plan, rest, cap, chosen + [c]);
      if i > |chosen| { GreedyKeepsOrder(plan, rest, cap, chosen + [c], i, j); }
    }
    PrecedesLater(c, rest, r[i], r[j]);
  }

  /** What a candidate ran into: no slot left, or a clash with one of the first `k` choices. */
  ghost predicate PassedOver(plan: Plan, candidates: seq<TaskId>, cap: int, from: nat, r: seq<TaskId>, k: nat,
                             t: TaskId) {
    && from <= k <= |r| && (k >= cap || ConflictsWithAny(plan, t, r[..k]))
    && forall j | from <= j < k :: Precedes(candidates, r[j], t)
  }

  /** A candidate is left out only for lack of a slot, or for a clash, with choices made before its turn. */
  lemma {:induction false} GreedyMissing(plan: Plan, candidates: seq<TaskId>, cap: int, chosen: seq<TaskId>, t: TaskId)
      returns (k: nat)
    requires |chosen| <= cap || cap < 0
    requires t in candidates && t !in Greedy(plan, candidates, cap, chosen)
    ensures PassedOver(plan, candidates, cap, |chosen|, Greedy(plan, candidates, cap, chosen), k, t)
    decreases |candidates|
  {
    k := |chosen|;
    var c, rest := candidates[0], candidates[1..];
    assert candidates == [c] + rest;
    if |chosen| < cap {
      var r := Greedy(plan, candidates, cap, chosen);
      var after := if ConflictsWithAny(plan, c, chosen) then chosen else chosen + [c];
      GreedyChoice(plan, rest, cap, after);
      assert r[..|chosen|] == chosen;
      if !(t == c && ConflictsWithAny(plan, c, chosen)) {
        assert t in rest by { assert |after| > |chosen| ==> r[|chosen|] == c; }
        k := GreedyMissing(plan, rest, cap, after, t);
        forall j | |chosen| <= j < k ensures Precedes(candidates, r[j], t) {
          PrecedesLater(c, rest, r[j], t);
        }
      }
    }
  }

  /**
   The list, by the manifests' fields: waiting tasks in plan order, apart from every running
   task and from each other, no more than there are slots.
   */
  lemma ListedTasks(plan: Plan, maxWorkers: int, s: State)
    requires Shaped(plan, s)
    ensures var r := Dispatchable(plan, maxWorkers, s);
            && (forall t | t in r :: t in plan.order && Waiting(plan, s, t))
            && (forall t, a | t in r && a in s.active :: Apart(plan.tasks[t], plan.tasks[a]))
            && (forall i, j | 0 <= i < j < |r| :: Precedes(plan.order, r[i], r[j]))
            && (r != [] ==> |s.active| + |r| <= maxWorkers)
  {
    var candidates, cap := CandidatesOf(plan, s, plan.order), maxWorkers - |s.active|;
    var r := Dispatchable(plan, maxWorkers, s);
    DispatchableAreCandidates(plan, maxWorkers, s);
    GreedyChoice(plan, candidates, cap, []);
    forall t | t in r ensures t in plan.order && Candidate(plan, s, t) {}
    forall t | t in r
      ensures Waiting(plan, s, t) && forall a | a in s.active :: Apart(plan.tasks[t], plan.tasks[a])
    {
      CandidateExactly(plan, s, t);
    }
    forall i, j | 0 <= i < j < |r| ensures Precedes(plan.order, r[i], r[j]) {
      GreedyKeepsOrder(plan, candidates, cap, [], i, j);
      CandidatesPrecede(plan, s, r[i], r[j]);
    }
  }

  lemma ListedTasksStandApart(plan: Plan, maxWorkers: int, s: State, i: nat, j: nat)
    requires Shaped(plan, s) && i < j < |Dispatchable(plan, maxWorkers, s)|
    ensures var r := Dispatchable(plan, maxWorkers, s);
            r[i] in plan.tasks && r[j] in plan.tasks && Apart(plan.tasks[r[i]], plan.tasks[r[j]])
  {
    var r := Dispatchable(plan, maxWorkers, s);
    assert r[i] in plan.tasks && r[j] in plan.tasks by {
      DispatchableAreCandidates(plan, maxWorkers, s);
      assert r[i] in r && r[j] in r;
    }
    ChoicesDoNotClash(plan, maxWorkers, s, i, j);
    ConflictExactly(plan.tasks[r[i]], plan.tasks[r[j]]);
  }

  lemma ChoicesDoNotClash(plan: Plan, maxWorkers: int, s: State, i: nat, j: nat)
    requires i < j < |Dispatchable(plan, maxWorkers, s)|
    ensures !Clash(plan, Dispatchable(plan, maxWorkers, s)[i], Dispatchable(plan, maxWorkers, s)[j])
  {
    var r := Dispatchable(plan, maxWorkers, s);
    GreedyChoice(plan, CandidatesOf(plan, s, plan.order), maxWorkers - |s.active|, []);
    ClashSymmetric(plan, r[i], r[j]);
  }

  lemma CandidatesPrecede(plan: Plan, s: State, u: TaskId, t: TaskId)
    requires Precedes(CandidatesOf(plan, s, plan.order), u, t)
    ensures Precedes(plan.order, u, t)
  {
    var candidates := CandidatesOf(plan, s, plan.order);
    var i, j :| 0 <= i < j < |candidates| && candidates[i] == u && candidates[j] == t;
    CandidatesKeepOrder(plan, s, plan.order, i, j);
  }

  /**
   And nothing else is missing: a waiting task is left out only because it is not apart from a
   running task, or because `k` tasks listed before its turn took every slot or hold one that it
   is not apart from.
   */
  lemma MissingTask(plan: Plan, maxWorkers: int, s: State, t: TaskId) returns (k: nat)
    requires Shaped(plan, s) && Waiting(plan, s, t) && t !in Dispatchable(plan, maxWorkers, s)
    requires forall a | a in s.active :: Apart(plan.tasks[t], plan.tasks[a])
    ensures var r := Dispatchable(plan, maxWorkers, s);
            && k <= |r| && (forall j | 0 <= j < k :: r[j] in plan.tasks && Precedes(plan.order, r[j], t))
            && (|s.active| + k >= maxWorkers || exists j :: 0 <= j < k && !Apart(plan.tasks[t], plan.tasks[r[j]]))
  {
    var candidates, cap := CandidatesOf(plan, s, plan.order), maxWorkers - |s.active|;
    var r := Dispatchable(plan, maxWorkers, s);
    DispatchableAreCandidates(plan, maxWorkers, s);
    CandidateExactly(plan, s, t);
    assert t in plan.Graph().deps;
    k := GreedyMissing(plan, candidates, cap, [], t);
    forall j | 0 <= j < k ensures r[j] in plan.tasks && Precedes(plan.order, r[j], t) {
      assert r[j] in r;
      CandidatesPrecede(plan, s, r[j], t);
    }
    if k < cap {
      var j :| 0 <= j < k && Clash(plan, t, r[..k][j]);
      assert r[j] in r;
      ConflictExactly(plan.tasks[t], plan.tasks[r[j]]);
    }
  }

  // ---------------------------------------------------------------------------------------
  // Status updates
  // ---------------------------------------------------------------------------------------

  /** Everything that needs `t`, directly or not, becomes BLOCKED; nothing else moves. */
  ghost function Cascaded(plan: Plan, statuses: map<TaskId, TaskStatus>, t: TaskId): map<TaskId, TaskStatus> {
    map u | u in statuses :: if plan.Graph().Reaches(u, t) then BLOCKED else statuses[u]
  }

  /** The scheduler after `update_task_status(t, new)`. */
  ghost function Updated(plan: Plan, s: State, t: TaskId, new_: TaskStatus): State
    requires t in s.statuses
  {
    var statuses := s.statuses[t := new_];
    State(if new_.FAILED? then Cascaded(plan, statuses, t) else statuses,
          if new_.RUNNING? then s.active + {t} else if s.statuses[t].RUNNING? then s.active - {t} else s.active,
          s.attempts)
  }

  function RetryLimit(plan: Plan, t: TaskId): int
    requires t in plan.tasks
  {
    if plan.tasks[t].maxAttempts < 3 then plan.tasks[t].maxAttempts else 3
  }

  predicate Retryable(plan: Plan, s: State, t: TaskId) {
    && t in s.statuses && s.statuses[t].FAILED? && t in plan.tasks
    && AttemptsOf(s, t) < RetryLimit(plan, t)
  }

  function Retried(s: State, t: TaskId): State { s.(statuses := s.statuses[t := READY]) }

  /** A task needs another by way of the manifests that list it. */
  lemma NeedsExactly(plan: Plan, u: TaskId, t: TaskId)
    ensures plan.Graph().Reaches(u, t) <==>
              exists c :: c in plan.tasks && t in plan.tasks[c].dependencies && (u == c || plan.Graph().Reaches(u, c))
  {
    var g := plan.Graph();
    NeedsByDirectDependent(g, u, t);
    if c :| NeedsBy(g, u, c, t) { assert c in plan.tasks && t in plan.tasks[c].dependencies; }
    if c :| c in plan.tasks && t in plan.tasks[c].dependencies && (u == c || g.Reaches(u, c)) {
      assert NeedsBy(g, u, c, t);
    }
  }

  /** What a status update leaves, task by task: only a failure touches others, and only those that need it. */
  lemma UpdateExactly(plan: Plan, s: State, t: TaskId, new_: TaskStatus, u: TaskId)
    requires Shaped(plan, s) && t in plan.tasks && u in plan.tasks
    ensures var after := Updated(plan, s, t, new_);
            && after.statuses.Keys == plan.tasks.Keys && after.attempts == s.attempts
            && (u in after.active <==>
                  if u != t then u in s.active
                  else new_ == RUNNING || (t in s.active && s.statuses[t] != RUNNING))
            && (u == t && !plan.Graph().Reaches(t, t) ==> after.statuses[t] == new_)
            && (u != t && new_ != FAILED ==> after.statuses[u] == s.statuses[u])
            && (u != t && new_ == FAILED && !plan.Graph().Reaches(u, t) ==> after.statuses[u] == s.statuses[u])
            && (new_ == FAILED && plan.Graph().Reaches(u, t) ==> after.statuses[u] == BLOCKED)
  {
  }

  lemma DirectDependentsAreBlocked(plan: Plan, s: State, t: TaskId, u: TaskId)
    requires Shaped(plan, s) && t in plan.tasks && u in plan.tasks && t in plan.tasks[u].dependencies
    ensures Updated(plan, s, t, FAILED).statuses[u] == BLOCKED
  {
    NeedsExactly(plan, u, t);
  }

  lemma DispatchExactly(plan: Plan, s: State, t: TaskId, u: TaskId)
    requires Shaped(plan, s) && t in plan.tasks && u in plan.tasks
    ensures var after := Dispatched(s, t);
            && Shaped(plan, after)
            && after.statuses[u] == (if u == t then RUNNING else s.statuses[u])
            && (u in after.active <==> u == t || u in s.active)
            && after.attempts[u] == s.attempts[u] + (if u == t then 1 else 0)
  {
  }

  /** A retry: from FAILED, with fewer attempts than three and than the manifest allows. */
  lemma RetryExactly(plan: Plan, s: State, t: TaskId)
    requires Shaped(plan, s)
    ensures Retryable(plan, s, t) <==>
              && t in plan.tasks && s.statuses[t] == FAILED
              && s.attempts[t] < 3 && s.attempts[t] < plan.tasks[t].maxAttempts
    ensures var after := Retried(s, t);
            && t in after.statuses && after.statuses[t] == READY
            && (forall u | u in s.statuses && u != t :: u in after.statuses && after.statuses[u] == s.statuses[u])
            && after.active == s.active && after.attempts == s.attempts
  {
  }

  // ---------------------------------------------------------------------------------------
  // The scheduler object
  // ---------------------------------------------------------------------------------------

  datatype SchedulerError =
    | BadWorkerCount | DuplicateIds | BadDependencies(problem: CheckError)
    | UnknownTask | NotDispatchable | WorkersExhausted | NotFailed | RetryBudgetExhausted

  class DAGScheduler {
    const plan: Plan
    const maxWorkers: int
    ghost const topo: seq<TaskId>
    var taskStatuses: map<TaskId, TaskStatus>
    var activeTasks: set<TaskId>
    var attempts: map<TaskId, nat>

    ghost function View(): State
      reads this
    {
      State(taskStatuses, activeTasks, attempts)
    }

    ghost predicate Valid()
      reads this
    {
      1 <= maxWorkers <= 3 && plan.Checked(topo) && Shaped(plan, View())
    }

    constructor (plan: Plan, maxWorkers: int, ghost topo: seq<TaskId>)
      requires 1 <= maxWorkers <= 3 && plan.Checked(topo)
      ensures Valid() && this.plan == plan && this.maxWorkers == maxWorkers && this.topo == topo
      ensures View() == Fresh(plan)
      ensures taskStatuses.Keys == plan.tasks.Keys
      ensures forall t | t in plan.tasks :: taskStatuses[t] == plan.tasks[t].status
      ensures activeTasks == {} && attempts.Keys == plan.tasks.Keys && forall t | t in plan.tasks :: attempts[t] == 0
    {
      this.plan, this.maxWorkers, this.topo := plan, maxWorkers, topo;
      taskStatuses := map t | t in plan.tasks :: plan.tasks[t].status;
      activeTasks := {};
      attempts := map t | t in plan.tasks :: 0;
    }

    method UpdateTaskStatus(t: TaskId, new_: TaskStatus) returns (e: Option<SchedulerError>)
      requires Valid()
      modifies this
      ensures Valid()
      ensures e == (if t in plan.tasks then None else Some(UnknownTask))
      ensures e.None? && new_ != FAILED ==> taskStatuses == old(taskStatuses)[t := new_]
      ensures attempts == old(attempts)
      ensures View() == (if t in plan.tasks then Updated(plan, old(View()), t, new_) else old(View()))
    {
      if t !in plan.tasks { return Some(UnknownTask); }
      var oldStatus := taskStatuses[t];
      taskStatuses := taskStatuses[t := new_];
      if new_.RUNNING? { activeTasks := activeTasks + {t}; }
      if oldStatus.RUNNING? && !new_.RUNNING? { activeTasks := activeTasks - {t}; }
      if new_.FAILED? {
        var dependents := GetDependents(plan.Graph(), t, topo);
        BlockAll(t, dependents);
      }
      return None;
    }

    /** The cascade loop. */
    method BlockAll(t: TaskId, dependents: seq<TaskId>)
      requires taskStatuses.Keys == plan.tasks.Keys
      requires forall u :: u in dependents <==> plan.Graph().Reaches(u, t)
      modifies this`taskStatuses
      ensures taskStatuses == Cascaded(plan, old(taskStatuses), t)
    {
      for i := 0 to |dependents|
        invariant taskStatuses.Keys == plan.tasks.Keys
        invariant forall u | u in plan.tasks ::
          taskStatuses[u] == if u in dependents[..i] then BLOCKED else old(taskStatuses)[u]
      {
        assert dependents[i] in dependents;
        ReachedIsKnown(plan.Graph(), dependents[i], t);
        assert dependents[..i + 1] == dependents[..i] + [dependents[i]];
        taskStatuses := taskStatuses[dependents[i] := BLOCKED];
      }
      assert dependents[..|dependents|] == dependents;
    }

    method RetryFailedTask(t: TaskId) returns (e: Option<SchedulerError>)
      requires Valid()
      modifies this
      ensures Valid()
      ensures e.None? <==> Retryable(plan, old(View()), t)
      ensures e == (if t !in plan.tasks || old(taskStatuses)[t] != FAILED then Some(NotFailed)
                    else if old(attempts)[t] >= 3 || old(attempts)[t] >= plan.tasks[t].maxAttempts
                      then Some(RetryBudgetExhausted)
                    else None)
      ensures taskStatuses == (if e.None? then old(taskStatuses)[t := READY] else old(taskStatuses))
      ensures activeTasks == old(activeTasks) && attempts == old(attempts)
      ensures View() == (if e.None? then Retried(old(View()), t) else old(View()))
    {
      if t !in taskStatuses || !taskStatuses[t].FAILED? { return Some(NotFailed); }
      var limit := if plan.tasks[t].maxAttempts < 3 then plan.tasks[t].maxAttempts else 3;
      if attempts[t] >= limit { return Some(RetryBudgetExhausted); }
      taskStatuses := taskStatuses[t := READY];
      return None;
    }

    method ConflictsWithActive(task: Manifest) returns (r: bool)
      requires Valid()
      ensures r <==> exists a :: a in activeTasks && Conflict(task, plan.tasks[a])
    {
      var todo := activeTasks;
      while todo != {}
        invariant todo <= activeTasks
        invariant forall a | a in activeTasks && a !in todo :: !Conflict(task, plan.tasks[a])
      {
        var a :| a in todo;
        var clash := CheckTaskConflict(task, plan.tasks[a]);
        if clash { return true; }
        todo := todo - {a};
      }
      return false;
    }

    /** First pass: who could start now, in plan order. */
    method ReadyCandidates() returns (ready: seq<TaskId>)
      requires Valid()
      ensures ready == CandidatesOf(plan, View(), plan.order)
    {
      ready := [];
      for i := 0 to |plan.order|
        invariant ready == CandidatesOf(plan, View(), plan.order[..i])
      {
        var tid := plan.order[i];
        assert plan.order[..i + 1][..i] == plan.order[..i];
        assert tid in plan.Graph().order && tid in plan.Graph().deps;
        var task := plan.tasks[tid];
        if tid in activeTasks { continue; }
        if !taskStatuses[tid].READY? { continue; }
        var depsDone := forall d | d in task.dependencies :: d in taskStatuses && taskStatuses[d].DONE?;
        if !depsDone { continue; }
        var clash := ConflictsWithActive(task);
        if !clash { ready := ready + [tid]; }
      }
      assert plan.order[..|plan.order|] == plan.order;
    }

    method GetDispatchableTasks() returns (r: seq<TaskId>)
      requires Valid()
      ensures r == Dispatchable(plan, maxWorkers, View())
    {
      var slots := maxWorkers - |activeTasks|;
      if slots <= 0 { return []; }
      var ready := ReadyCandidates();
      r := [];
      for i := 0 to |ready|
        invariant forall c | c in r :: c in plan.tasks
        invariant Greedy(plan, ready, slots, []) == Greedy(plan, ready[i..], slots, r)
      {
        if |r| >= slots { break; }
        var c := ready[i];
        assert c in ready;
        assert ready[i..] == [c] + ready[i + 1..];
        GreedyCons(plan, c, ready[i + 1..], slots, r);
        var clash := ConflictsWithChosen(c, r);
        if !clash { r := r + [c]; }
      }
    }

    method ConflictsWithChosen(c: TaskId, chosen: seq<TaskId>) returns (r: bool)
      requires Valid() && c in plan.tasks && forall t | t in chosen :: t in plan.tasks
      ensures r <==> ConflictsWithAny(plan, c, chosen)
    {
      for i := 0 to |chosen|
        invariant forall k | 0 <= k < i :: !Clash(plan, c, chosen[k])
      {
        assert chosen[i] in chosen;
        var clash := CheckTaskConflict(plan.tasks[c], plan.tasks[chosen[i]]);
        if clash { assert Clash(plan, c, chosen[i]); return true; }
      }
      return false;
    }

    method Dispatch(t: TaskId) returns (e: Option<SchedulerError>)
      requires Valid()
      modifies this
      ensures Valid()
      ensures e == (if t in Dispatchable(plan, maxWorkers, old(View())) then None else Some(NotDispatchable))
      ensures e.None? ==> taskStatuses == old(taskStatuses)[t := RUNNING] && activeTasks == old(activeTasks) + {t}
      ensures e.None? ==> t in old(attempts) && attempts == old(attempts)[t := old(attempts)[t] + 1]
      ensures View() == (if e.None? then Dispatched(old(View()), t) else old(View()))
    {
      var list := GetDispatchableTasks();
      if t !in list { return Some(NotDispatchable); }
      DispatchIsSafe(plan, maxWorkers, View(), t);
      if |activeTasks| >= maxWorkers { return Some(WorkersExhausted); }
      activeTasks := activeTasks + {t};
      attempts := attempts[t := attempts[t] + 1];
      taskStatuses := taskStatuses[t := RUNNING];
      return None;
    }
  }

  function Fresh(plan: Plan): State {
    State(map t | t in plan.tasks :: plan.tasks[t].status, {}, map t | t in plan.tasks :: 0)
  }

  lemma ReachedIsKnown(g: DependencyGraph.Graph, u: TaskId, t: TaskId)
    requires g.Reaches(u, t)
    ensures u in g.deps
  {
    var p :| g.PathFromTo(p, u, t);
    assert g.Edge(p[0], p[1]);
  }

  /** The plan lists these manifests, in this order. */
  ghost predicate Lists(plan: Plan, manifests: seq<(TaskId, Manifest)>) {
    && |plan.order| == |manifests|
    && forall i | 0 <= i < |manifests| ::
         plan.order[i] == manifests[i].0 && manifests[i].0 in plan.tasks && plan.tasks[manifests[i].0] == manifests[i].1
  }

  ghost predicate DistinctIds(manifests: seq<(TaskId, Manifest)>) {
    forall i, j | 0 <= i < j < |manifests| :: manifests[i].0 != manifests[j].0
  }

  /** The dictionary the source builds: a repeated id keeps its last manifest. */
  function TasksOf(manifests: seq<(TaskId, Manifest)>): map<TaskId, Manifest> {
    if manifests == [] then map[]
    else
      var last := manifests[|manifests| - 1];
      TasksOf(manifests[..|manifests| - 1])[last.0 := last.1]
  }

  function PlanOf(manifests: seq<(TaskId, Manifest)>): Plan {
    Plan(seq(|manifests|, i requires 0 <= i < |manifests| => manifests[i].0), TasksOf(manifests))
  }

  lemma LastIsNew(manifests: seq<(TaskId, Manifest)>)
    requires manifests != []
    ensures var n := |manifests| - 1;
            DistinctIds(manifests) <==>
              DistinctIds(manifests[..n]) && forall i | 0 <= i < n :: manifests[i].0 != manifests[n].0
  {
    var n := |manifests| - 1;
    if DistinctIds(manifests) {
      forall i, j | 0 <= i < j < n ensures manifests[..n][i].0 != manifests[..n][j].0 {
        assert manifests[i].0 != manifests[j].0;
      }
    } else {
      var i, j :| 0 <= i < j < |manifests| && manifests[i].0 == manifests[j].0;
      if j < n { assert manifests[..n][i].0 == manifests[..n][j].0; }
    }
  }

  lemma {:induction false} TasksOfKeys(manifests: seq<(TaskId, Manifest)>, t: TaskId)
    ensures t in TasksOf(manifests) <==> exists i :: 0 <= i < |manifests| && manifests[i].0 == t
  {
    if manifests != [] {
      var n := |manifests| - 1;
      TasksOfKeys(manifests[..n], t);
      assert forall i | 0 <= i < n :: manifests[..n][i] == manifests[i];
    }
  }

  /** The dictionary comes out short exactly when an id is repeated. */
  lemma {:induction false} TasksOfSize(manifests: seq<(TaskId, Manifest)>)
    ensures |TasksOf(manifests)| <= |manifests|
    ensures |TasksOf(manifests)| == |manifests| <==> DistinctIds(manifests)
  {
    if manifests != [] {
      var n := |manifests| - 1;
      TasksOfSize(manifests[..n]);
      LastIsNew(manifests);
      TasksOfKeys(manifests[..n], manifests[n].0);
      assert forall i | 0 <= i < n :: manifests[..n][i] == manifests[i];
    }
  }

  lemma {:induction false} TasksOfLookup(manifests: seq<(TaskId, Manifest)>, i: nat)
    requires DistinctIds(manifests) && i < |manifests|
    ensures manifests[i].0 in TasksOf(manifests) && TasksOf(manifests)[manifests[i].0] == manifests[i].1
  {
    var n := |manifests| - 1;
    if i < n {
      LastIsNew(manifests);
      assert manifests[..n][i] == manifests[i];
      TasksOfLookup(manifests[..n], i);
    }
  }

  lemma PlanOfLists(manifests: seq<(TaskId, Manifest)>)
    requires DistinctIds(manifests)
    ensures Lists(PlanOf(manifests), manifests) && PlanOf(manifests).Graph().Valid()
  {
    forall i | 0 <= i < |manifests|
      ensures manifests[i].0 in TasksOf(manifests) && TasksOf(manifests)[manifests[i].0] == manifests[i].1
    {
      TasksOfLookup(manifests, i);
    }
    forall t ensures t in TasksOf(manifests) <==> t in PlanOf(manifests).order {
      TasksOfKeys(manifests, t);
      if i :| 0 <= i < |manifests| && manifests[i].0 == t { assert PlanOf(manifests).order[i] == t; }
    }
  }

  method CollectTasks(manifests: seq<(TaskId, Manifest)>) returns (plan: Plan)
    ensures plan == PlanOf(manifests)
  {
    var order: seq<TaskId> := [];
    var tasks: map<TaskId, Manifest> := map[];
    for i := 0 to |manifests|
      invariant order == PlanOf(manifests[..i]).order && tasks == TasksOf(manifests[..i])
    {
      var (id, manifest) := manifests[i];
      assert manifests[..i + 1][..i] == manifests[..i];
      order := order + [id];
      tasks := tasks[id := manifest];
    }
    assert manifests[..|manifests|] == manifests;
    plan := Plan(order, tasks);
  }

  /** Building the scheduler: refuses bad worker counts, repeated ids and bad dependencies. */
  method NewScheduler(manifests: seq<(TaskId, Manifest)>, maxWorkers: int)
      returns (r: Result<DAGScheduler, SchedulerError>)
    ensures r.Err? && r.error.BadWorkerCount? <==> !(1 <= maxWorkers <= 3)
    ensures r.Err? && r.error.DuplicateIds? <==> 1 <= maxWorkers <= 3 && !DistinctIds(manifests)
    ensures r.Ok? <==> && 1 <= maxWorkers <= 3 && DistinctIds(manifests)
                       && PlanOf(manifests).Graph().Known() && PlanOf(manifests).Graph().Acyclic()
    ensures r.Ok? ==> fresh(r.value) && r.value.Valid() && r.value.maxWorkers == maxWorkers
    ensures r.Ok? ==> r.value.plan == PlanOf(manifests) && Lists(r.value.plan, manifests)
    ensures r.Ok? ==> r.value.View() == Fresh(r.value.plan)
  {
    if maxWorkers < 1 || maxWorkers > 3 { return Err(BadWorkerCount); }
    var plan := CollectTasks(manifests);
    TasksOfSize(manifests);
    if |plan.tasks| != |manifests| { return Err(DuplicateIds); }
    PlanOfLists(manifests);
    var problem, topo := CheckCircularDependencies(plan.Graph());
    if problem.Some? { return Err(BadDependencies(problem.value)); }
    var scheduler := new DAGScheduler(plan, maxWorkers, topo);
    return Ok(scheduler);
  }
}
