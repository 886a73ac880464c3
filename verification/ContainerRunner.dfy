/**
 Container clean-up (orchestrator/core/container.py): one run's journal against what the
 Docker daemon holds.

 The model follows one run id.  Its `run` call, any number of reconciliation passes and
 other clients of the daemon interleave freely; every step below is one file save or one
 daemon request, so a crash can fall between any two.  A create request may take effect
 after the call that sent it has given up.
 */
module ContainerRunner {
  import opened Wrappers

  type Id = string

  /** A container as `inspect` shows it: its name and the two labels the runner sets. */
  datatype Container = Container(name: string, run: string, owner: string)

  type Daemon = map<Id, Container>

  datatype Cleanup = PENDING | CONFIRMED

  /** The journal file; `owner` is the random label of this run. */
  datatype Journal = Journal(owner: string, containerId: Option<Id>, cleanup: Cleanup)

  datatype Phase = Begun | Found(id: Id) | IdSaved(id: Id) | Removed | Clear | Over

  /** A reconciliation pass: the journal as it read it, and how far it has come. */
  datatype Pass = Pass(record: Journal, phase: Phase)

  datatype System = System(
    run: string, journal: Option<Journal>, daemon: Daemon, used: set<Id>,
    requested: bool, inFlight: bool, created: Option<Id>, passes: seq<Pass>)

  function Name(run: string): string { "factory-" + run }

  datatype Step =
    | Intend(owner: string)                 // the journal is saved before anything else
    | Request                               // the create call is sent
    | Arrive(id: Id)                        // and takes effect
    | Refuse                                // or is refused
    | Learn                                 // the id comes back and is saved
    | SaveAgain                             // the exit code is saved
    | Begin                                 // a reconciliation reads the journal
    | FindFirst(p: nat, answer: Option<Id>)
    | SaveId(p: nat)
    | Remove(p: nat)
    | FindAgain(p: nat, answer: Option<Id>)
    | Confirm(p: nat)
    | Quit(p: nat)                          // an exception, or the end of the process
    | Create(id: Id, c: Container)          // other clients
    | Delete(id: Id)

  // ---------------------------------------------------------------------------------------
  // One step
  // ---------------------------------------------------------------------------------------

  predicate NameFree(daemon: Daemon, name: string) { forall id | id in daemon :: daemon[id].name != name }

  /** A listing by name answers truthfully. */
  predicate Truthful(daemon: Daemon, name: string, answer: Option<Id>) {
    match answer
    case None => NameFree(daemon, name)
    case Some(id) => id in daemon && daemon[id].name == name
  }

  /** The checks of `_find_owned`: both labels, and the recorded id when there is one. */
  predicate Owned(run: string, record: Journal, daemon: Daemon, id: Id) {
    && id in daemon && daemon[id].name == Name(run) && daemon[id].run == run && daemon[id].owner == record.owner
    && (record.containerId.None? || record.containerId == Some(id))
  }

  predicate Can(s: System, p: nat) { p < |s.passes| && !s.passes[p].phase.Over? }

  function To(s: System, p: nat, phase: Phase): System
    requires p < |s.passes|
  {
    s.(passes := s.passes[p := s.passes[p].(phase := phase)])
  }

  function Next(s: System, step: Step): System {
    match step
    case Intend(owner) =>
      if s.journal.Some? || (exists id :: id in s.daemon && s.daemon[id].owner == owner) then s
      else s.(journal := Some(Journal(owner, None, PENDING)))
    case Request => if s.journal.None? || s.requested then s else s.(requested := true, inFlight := true)
    case Arrive(id) =>
      if !s.inFlight || s.journal.None? || id in s.used || !NameFree(s.daemon, Name(s.run)) then s
      else s.(daemon := s.daemon[id := Container(Name(s.run), s.run, s.journal.value.owner)],
              used := s.used + {id}, inFlight := false, created := Some(id))
    case Refuse => s.(inFlight := false)
    case Learn =>
      if s.created.None? || s.journal.None? then s
      else s.(journal := Some(Journal(s.journal.value.owner, s.created, PENDING)))
    case SaveAgain =>
      if s.created.None? || s.journal.None? then s
      else s.(journal := Some(Journal(s.journal.value.owner, s.created, PENDING)))
    case Begin => if s.journal.None? then s else s.(passes := s.passes + [Pass(s.journal.value, Begun)])
    case FindFirst(p, answer) =>
      if !Can(s, p) || !s.passes[p].phase.Begun? || !Truthful(s.daemon, Name(s.run), answer) then s
      else if answer.None? then To(s, p, if s.passes[p].record.containerId.Some? then Removed else Over)
      else To(s, p, if Owned(s.run, s.passes[p].record, s.daemon, answer.value) then Found(answer.value) else Over)
    case SaveId(p) =>
      if !Can(s, p) || !s.passes[p].phase.Found? then s
      else
        var record := s.passes[p].record.(containerId := Some(s.passes[p].phase.id));
        s.(journal := Some(record), passes := s.passes[p := Pass(record, IdSaved(s.passes[p].phase.id))])
    case Remove(p) =>
      if !Can(s, p) || !s.passes[p].phase.IdSaved? then s
      else To(s, p, Removed).(daemon := s.daemon - {s.passes[p].phase.id})
    case FindAgain(p, answer) =>
      if !Can(s, p) || !s.passes[p].phase.Removed? || !Truthful(s.daemon, Name(s.run), answer) then s
      else To(s, p, if answer.None? then Clear else Over)
    case Confirm(p) =>
      if !Can(s, p) || !s.passes[p].phase.Clear? then s
      else To(s, p, Over).(journal := Some(s.passes[p].record.(cleanup := CONFIRMED)))
    case Quit(p) => if Can(s, p) then To(s, p, Over) else s
    case Create(id, c) =>
      if id in s.used || !NameFree(s.daemon, c.name) || (s.journal.Some? && c.owner == s.journal.value.owner) then s
      else s.(daemon := s.daemon[id := c], used := s.used + {id})
    case Delete(id) => s.(daemon := s.daemon - {id})
  }

  function Start(run: string, daemon: Daemon): System {
    System(run, None, daemon, daemon.Keys, false, false, None, [])
  }

  function Exec(run: string, daemon: Daemon, steps: seq<Step>): System {
    if steps == [] then Start(run, daemon) else Next(Exec(run, daemon, steps[..|steps| - 1]), steps[|steps| - 1])
  }

  predicate NamesUnique(daemon: Daemon) {
    forall a, b | a in daemon && b in daemon && daemon[a].name == daemon[b].name :: a == b
  }

  // ---------------------------------------------------------------------------------------
  // What every interleaving keeps
  // ---------------------------------------------------------------------------------------

  /** A record of this run: its owner label, and at most the id of the container it created. */
  predicate RecordFits(s: System, record: Journal) {
    && s.journal.Some? && record.owner == s.journal.value.owner
    && (record.containerId.Some? ==> s.created == record.containerId && s.journal.value.containerId == s.created)
    && (record.cleanup.CONFIRMED? ==> record.containerId.Some? && Gone(s))
  }

  predicate Gone(s: System) { s.created.Some? && s.created.value !in s.daemon }

  predicate PassFits(s: System, p: Pass) {
    && RecordFits(s, p.record)
    && (p.phase.Found? ==> s.created == Some(p.phase.id))
    && (p.phase.IdSaved? ==> s.created == Some(p.phase.id) && p.record.containerId == Some(p.phase.id))
    && (p.phase.Removed? ==> p.record.containerId.Some?)
    && (p.phase.Clear? ==> p.record.containerId.Some? && Gone(s))
  }

  /** The run's label is on at most one container, ever: the one its single create request made. */
  predicate LabelFits(s: System) {
    && (s.inFlight ==> s.requested && s.created.None?) && (s.created.Some? ==> s.requested && s.created.value in s.used)
    && s.daemon.Keys <= s.used && NamesUnique(s.daemon)
    && (s.journal.None? ==> !s.requested && s.passes == [])
    && forall id | id in s.daemon && s.journal.Some? && s.daemon[id].owner == s.journal.value.owner ::
         s.created == Some(id) && s.daemon[id] == Container(Name(s.run), s.run, s.journal.value.owner)
  }

  ghost predicate Sound(s: System) {
    && LabelFits(s) && (s.journal.Some? ==> RecordFits(s, s.journal.value))
    && (forall p | 0 <= p < |s.passes| :: PassFits(s, s.passes[p]))
    && (s.created.Some? && s.created.value in s.daemon ==>
          s.journal.Some? && s.daemon[s.created.value].owner == s.journal.value.owner)
  }

  lemma StepKeepsNames(s: System, step: Step)
    requires NamesUnique(s.daemon) && s.daemon.Keys <= s.used
    ensures NamesUnique(Next(s, step).daemon) && Next(s, step).daemon.Keys <= Next(s, step).used
    ensures s.used <= Next(s, step).used
    ensures Next(s, step).run == s.run
  {
  }

  /** The journal is never dropped and its owner label never changes. */
  lemma OwnerKept(s: System, step: Step)
    requires Sound(s)
    ensures s.journal.Some? ==>
              Next(s, step).journal.Some? && Next(s, step).journal.value.owner == s.journal.value.owner
    ensures s.journal.None? && Next(s, step).journal.Some? ==>
              && step.Intend? && Next(s, step).daemon == s.daemon
              && forall id | id in s.daemon :: s.daemon[id].owner != step.owner
  {
    if step.SaveId? || step.Confirm? { assert step.p < |s.passes| ==> PassFits(s, s.passes[step.p]); }
  }

  /** Containers come from the one create request or from strangers, who do not have the label. */
  lemma ContainersOf(s: System, step: Step, id: Id)
    requires id in Next(s, step).daemon
    ensures var next := Next(s, step);
            || (id in s.daemon && next.daemon[id] == s.daemon[id])
            || (s.journal.Some? && next.created == Some(id)
                && next.daemon[id] == Container(Name(s.run), s.run, s.journal.value.owner))
            || (s.journal.Some? ==> next.daemon[id].owner != s.journal.value.owner)
  {
  }

  lemma CreatedKept(s: System, step: Step)
    requires LabelFits(s)
    ensures var next := Next(s, step);
            && (next.inFlight ==> next.requested && next.created.None?)
            && (next.created.Some? ==> next.requested && next.created.value in next.used)
            && (next.journal.None? ==> !next.requested && next.passes == [])
            && (s.created.Some? ==> next.created == s.created)
  {
  }

  lemma StepKeepsLabel(s: System, step: Step)
    requires Sound(s)
    ensures LabelFits(Next(s, step))
  {
    StepKeepsNames(s, step);
    OwnerKept(s, step);
    CreatedKept(s, step);
    var next := Next(s, step);
    forall id | id in next.daemon && next.journal.Some? && next.daemon[id].owner == next.journal.value.owner
      ensures next.created == Some(id) && next.daemon[id] == Container(Name(s.run), s.run, next.journal.value.owner)
    {
      ContainersOf(s, step, id);
    }
  }

  /** Once on record the id stays on record, and what is gone stays gone. */
  lemma StepKeepsRecord(s: System, step: Step, record: Journal)
    requires Sound(s) && RecordFits(s, record)
    ensures RecordFits(Next(s, step), record)
    ensures Gone(s) ==> Gone(Next(s, step))
  {
    assert step.SaveId? || step.Confirm? ==> step.p < |s.passes| ==> PassFits(s, s.passes[step.p]);
  }

  lemma StepKeepsPass(s: System, step: Step, p: nat)
    requires Sound(s) && p < |s.passes|
    ensures p < |Next(s, step).passes| && PassFits(Next(s, step), Next(s, step).passes[p])
  {
    assert PassFits(s, s.passes[p]);
    StepKeepsStanding(s, step, s.passes[p]);
    if Next(s, step).passes[p] != s.passes[p] { PassMoves(s, step, p); }
  }

  /** What holds of a pass keeps holding while others move. */
  lemma StepKeepsStanding(s: System, step: Step, pass: Pass)
    requires Sound(s) && PassFits(s, pass)
    ensures PassFits(Next(s, step), pass)
  {
    StepKeepsRecord(s, step, pass.record);
  }

  lemma PassMoves(s: System, step: Step, p: nat)
    requires Sound(s) && p < |s.passes| && PassFits(s, s.passes[p])
    requires p < |Next(s, step).passes| && Next(s, step).passes[p] != s.passes[p]
    requires PassFits(Next(s, step), s.passes[p])
    ensures PassFits(Next(s, step), Next(s, step).passes[p])
  {
  }

  lemma StepKeepsJournal(s: System, step: Step)
    requires Sound(s)
    ensures var next := Next(s, step);
            && (next.journal.Some? ==> RecordFits(next, next.journal.value))
            && (next.created.Some? && next.created.value in next.daemon ==>
                  next.journal.Some? && next.daemon[next.created.value].owner == next.journal.value.owner)
  {
    if s.journal.Some? { StepKeepsRecord(s, step, s.journal.value); }
  }

  lemma StepKeepsSound(s: System, step: Step)
    requires Sound(s)
    ensures Sound(Next(s, step)) && Next(s, step).run == s.run
  {
    StepKeepsLabel(s, step);
    StepKeepsJournal(s, step);
    var next := Next(s, step);
    forall p | 0 <= p < |next.passes| ensures PassFits(next, next.passes[p]) {
      if p < |s.passes| { StepKeepsPass(s, step, p); }
    }
  }

  lemma StartIsSound(run: string, daemon: Daemon)
    requires NamesUnique(daemon)
    ensures Sound(Start(run, daemon))
  {
  }

  lemma {:induction false} AlwaysSound(run: string, daemon: Daemon, steps: seq<Step>)
    requires NamesUnique(daemon)
    ensures Sound(Exec(run, daemon, steps)) && Exec(run, daemon, steps).run == run
  {
    if steps == [] {
      StartIsSound(run, daemon);
    } else {
      AlwaysSound(run, daemon, steps[..|steps| - 1]);
      StepKeepsSound(Exec(run, daemon, steps[..|steps| - 1]), steps[|steps| - 1]);
    }
  }

  // ---------------------------------------------------------------------------------------
  // Clean-up, over all interleavings
  // ---------------------------------------------------------------------------------------

  predicate Confirmed(s: System) { s.journal.Some? && s.journal.value.cleanup.CONFIRMED? }

  predicate Labelled(s: System, id: Id) {
    s.journal.Some? && id in s.daemon && s.daemon[id].owner == s.journal.value.owner
  }

  /** CONFIRMED is only ever written with the container's id on record and the container gone. */
  lemma ConfirmedMeansGone(run: string, daemon: Daemon, steps: seq<Step>)
    requires NamesUnique(daemon) && Confirmed(Exec(run, daemon, steps))
    ensures var s := Exec(run, daemon, steps);
            && s.journal.value.containerId.Some? && s.created == s.journal.value.containerId
            && s.created.value !in s.daemon && forall id :: !Labelled(s, id)
  {
    AlwaysSound(run, daemon, steps);
  }

  lemma GoneStaysGone(s: System, step: Step)
    requires Sound(s) && Gone(s)
    ensures Gone(Next(s, step)) && Next(s, step).created == s.created
  {
  }

  lemma GoneMeansUnlabelled(s: System)
    requires Sound(s) && Gone(s)
    ensures forall id :: !Labelled(s, id)
  {
  }

  /** And it stays gone: no later step of anybody brings back a container with this run's label. */
  lemma {:induction false} GoneForever(run: string, daemon: Daemon, steps: seq<Step>, m: nat)
    requires NamesUnique(daemon) && m <= |steps| && Gone(Exec(run, daemon, steps[..m]))
    ensures Gone(Exec(run, daemon, steps)) && forall id :: !Labelled(Exec(run, daemon, steps), id)
    decreases |steps| - m
  {
    if m == |steps| {
      assert steps[..m] == steps;
      AlwaysSound(run, daemon, steps);
      GoneMeansUnlabelled(Exec(run, daemon, steps));
    } else {
      assert steps[..m + 1][..m] == steps[..m];
      AlwaysSound(run, daemon, steps[..m]);
      GoneStaysGone(Exec(run, daemon, steps[..m]), steps[m]);
      GoneForever(run, daemon, steps, m + 1);
    }
  }

  /** What the runner removes carries the run's name and both labels, and its id is on record by then. */
  lemma OnlyOwnContainersRemoved(run: string, daemon: Daemon, steps: seq<Step>, step: Step, id: Id)
    requires NamesUnique(daemon) && !step.Delete?
    requires var s := Exec(run, daemon, steps); id in s.daemon && id !in Next(s, step).daemon
    ensures var s := Exec(run, daemon, steps);
            && step.Remove? && s.journal.Some? && s.journal.value.containerId == Some(id)
            && s.daemon[id].name == "factory-" + run && s.daemon[id].run == run
            && s.daemon[id].owner == s.journal.value.owner
  {
    AlwaysSound(run, daemon, steps);
    var s := Exec(run, daemon, steps);
    assert PassFits(s, s.passes[step.p]);
  }

  /** No step of the runner alters or replaces a container, its own included. */
  lemma OthersUntouched(s: System, step: Step, id: Id)
    requires Sound(s) && id in s.daemon && id in Next(s, step).daemon
    ensures Next(s, step).daemon[id] == s.daemon[id]
  {
  }

  /** At any crash point the run's container, if it is there, passes the ownership checks. */
  lemma OwnContainerRecognized(run: string, daemon: Daemon, steps: seq<Step>, id: Id)
    requires NamesUnique(daemon)
    ensures var s := Exec(run, daemon, steps);
            s.journal.Some? ==> (Owned(run, s.journal.value, s.daemon, id) <==> s.created == Some(id) && id in s.daemon)
  {
    AlwaysSound(run, daemon, steps);
  }

  /** The ownership checks by their fields: the name, both labels, and the id if one is on record. */
  ghost predicate CarriesOurMarks(run: string, record: Journal, daemon: Daemon, id: Id) {
    && id in daemon && daemon[id].name == "factory-" + run && daemon[id].run == run
    && daemon[id].owner == record.owner && (record.containerId != None ==> record.containerId.value == id)
  }

  ghost predicate NobodyNamed(daemon: Daemon, run: string) {
    !exists id :: id in daemon && daemon[id].name == "factory-" + run
  }

  lemma MarksExactly(run: string, record: Journal, daemon: Daemon)
    ensures NameFree(daemon, Name(run)) <==> NobodyNamed(daemon, run)
    ensures forall id :: Owned(run, record, daemon, id) <==> CarriesOurMarks(run, record, daemon, id)
  {
  }

  // ---------------------------------------------------------------------------------------
  // Reconciling again
  // ---------------------------------------------------------------------------------------

  /** The run's own saves; they may still come while its `run` call is alive. */
  predicate SavedByRun(step: Step) { step.Learn? || step.SaveAgain? }

  predicate ByStranger(step: Step) { step.Create? || step.Delete? }

  predicate Harmless(pass: Pass, j: Journal) {
    pass.phase.Over? || (pass.record == j && (pass.phase.Begun? || pass.phase.Removed? || pass.phase.Clear?))
  }

  /** Confirmed, and every pass under way has read the confirmed journal. */
  ghost predicate Settled(s: System, j: Journal) {
    && Sound(s) && s.journal == Some(j) && j.cleanup.CONFIRMED?
    && forall p | 0 <= p < |s.passes| :: Harmless(s.passes[p], j)
  }

  lemma StepKeepsSettled(s: System, step: Step, j: Journal)
    requires Settled(s, j) && !SavedByRun(step)
    ensures Settled(Next(s, step), j)
    ensures !ByStranger(step) ==> Next(s, step).daemon == s.daemon
  {
    StepKeepsSound(s, step);
    assert Gone(s);
  }

  lemma ExecNext(run: string, daemon: Daemon, steps: seq<Step>, step: Step)
    ensures Exec(run, daemon, steps + [step]) == Next(Exec(run, daemon, steps), step)
  {
    assert (steps + [step])[..|steps|] == steps;
  }

  lemma {:induction false} SettledStays(run: string, daemon: Daemon, steps: seq<Step>, more: seq<Step>, j: Journal)
    requires Settled(Exec(run, daemon, steps), j) && forall i | 0 <= i < |more| :: !SavedByRun(more[i])
    ensures Settled(Exec(run, daemon, steps + more), j)
    decreases |more|
  {
    if more == [] {
      assert steps + more == steps;
    } else {
      var init, last := more[..|more| - 1], more[|more| - 1];
      SettledStays(run, daemon, steps, init, j);
      assert steps + more == steps + init + [last];
      ExecNext(run, daemon, steps + init, last);
      StepKeepsSettled(Exec(run, daemon, steps + init), last, j);
    }
  }

  /**
   Once the clean-up is confirmed, the `run` call over and no pass under way, reconciling any
   number of times, with or without crashes, saves nothing new and removes nothing.
   */
  lemma ReconcilingAgain(run: string, daemon: Daemon, steps: seq<Step>, more: seq<Step>, step: Step)
    requires NamesUnique(daemon) && Confirmed(Exec(run, daemon, steps))
    requires forall p | p in Exec(run, daemon, steps).passes :: p.phase.Over?
    requires !SavedByRun(step) && forall i | 0 <= i < |more| :: !SavedByRun(more[i])
    ensures var s := Exec(run, daemon, steps + more);
            && s.journal == Exec(run, daemon, steps).journal
            && Next(s, step).journal == s.journal && (!ByStranger(step) ==> Next(s, step).daemon == s.daemon)
  {
    AlwaysSound(run, daemon, steps);
    var j := Exec(run, daemon, steps).journal.value;
    SettledStays(run, daemon, steps, more, j);
    StepKeepsSettled(Exec(run, daemon, steps + more), step, j);
  }

  // ---------------------------------------------------------------------------------------
  // The runner object
  // ---------------------------------------------------------------------------------------

  datatype RunnerError =
    | DockerFailed | OwnershipMismatch | CreateUncertain | CleanupUnconfirmed | NoJournal | AlreadyRun | ExecutionFailed

  datatype Outcome = Works | FailsBefore | FailsAfter

  /** How the Docker calls of one reconciliation turn out. */
  datatype Weather = Weather(firstListing: bool, removal: Outcome, secondListing: bool)

  /** A create call: it answers with the id, or is refused, or is lost and perhaps takes effect all the same. */
  datatype CreateOutcome = Answered(id: Id) | Rejected | Lost(effect: Option<Id>)

  function EffectOf(create: CreateOutcome): Option<Id> {
    match create case Answered(id) => Some(id) case Rejected => None case Lost(effect) => effect
  }

  /** Exactly when a reconciliation confirms the clean-up. */
  ghost predicate Reconcilable(run: string, journal: Option<Journal>, daemon: Daemon, w: Weather) {
    && journal.Some? && w.firstListing && w.secondListing
    && (if NameFree(daemon, Name(run)) then journal.value.containerId.Some?
        else w.removal.Works? && exists id :: Owned(run, journal.value, daemon, id))
  }

  /** By the fields: both listings answer, and the name is free and an id on record, or our container is removed. */
  lemma ReconcilableExactly(run: string, journal: Option<Journal>, daemon: Daemon, w: Weather)
    ensures Reconcilable(run, journal, daemon, w) <==>
              && journal != None && w.firstListing && w.secondListing
              && (NobodyNamed(daemon, run) ==> journal.value.containerId != None)
              && (!NobodyNamed(daemon, run) ==>
                    w.removal == Works && exists id :: CarriesOurMarks(run, journal.value, daemon, id))
  {
    if journal.Some? { MarksExactly(run, journal.value, daemon); }
  }

  /** What a run left behind can be cleaned up exactly when its container came to be and every call works. */
  lemma LeftoversReconcile(run: string, owner: string, before: Daemon, create: CreateOutcome, w: Weather)
    requires forall id | id in before :: before[id].owner != owner
    requires EffectOf(create).Some? ==> NameFree(before, Name(run))
    ensures var id, known := EffectOf(create), if create.Answered? then Some(create.id) else None;
            var after := if id.None? then before else before[id.value := Container(Name(run), run, owner)];
            Reconcilable(run, Some(Journal(owner, known, PENDING)), after, w) <==>
              id.Some? && w.firstListing && w.removal.Works? && w.secondListing
  {
    var id, known := EffectOf(create), if create.Answered? then Some(create.id) else None;
    if id.Some? {
      var after := before[id.value := Container(Name(run), run, owner)];
      assert Owned(run, Journal(owner, known, PENDING), after, id.value);
    }
  }

  class OfflineContainerRunner {
    const run: string
    ghost const origin: Daemon
    var journal: Option<Journal>
    var daemon: Daemon
    ghost var history: seq<Step>

    ghost function World(): System
      reads this`history
    {
      Exec(run, origin, history)
    }

    ghost predicate Valid()
      reads this
    {
      && NamesUnique(origin) && Sound(World()) && World().run == run
      && journal == World().journal && daemon == World().daemon
    }

    constructor (run: string, daemon: Daemon)
      requires NamesUnique(daemon)
      ensures Valid() && this.run == run && this.daemon == daemon && journal == None && history == []
    {
      this.run, this.daemon, this.origin, journal, history := run, daemon, daemon, None, [];
      new;
      AlwaysSound(run, daemon, []);
    }

    /** One step of this run; journal file and daemon are what the step leaves. */
    method Do(ghost step: Step, newJournal: Option<Journal>, newDaemon: Daemon)
      requires Valid() && newJournal == Next(World(), step).journal && newDaemon == Next(World(), step).daemon
      modifies this
      ensures Valid() && history == old(history) + [step] && World() == Next(old(World()), step)
      ensures journal == newJournal && daemon == newDaemon
    {
      ExecNext(run, origin, history, step);
      StepKeepsSound(World(), step);
      history := history + [step];
      journal, daemon := newJournal, newDaemon;
    }

    /** `container ls --filter name`. */
    method ListByName() returns (answer: Option<Id>)
      ensures Truthful(daemon, Name(run), answer)
    {
      if id :| id in daemon && daemon[id].name == Name(run) { return Some(id); }
      return None;
    }

    method FindOwned(record: Journal, works: bool) returns (r: Result<Option<Id>, RunnerError>)
      requires NamesUnique(daemon)
      ensures r.Ok? <==> works && (NameFree(daemon, Name(run)) || exists id :: Owned(run, record, daemon, id))
      ensures r.Ok? && r.value.None? ==> NameFree(daemon, Name(run))
      ensures r.Ok? && r.value.Some? ==> Owned(run, record, daemon, r.value.value)
      ensures r.Ok? <==>
                works && (NobodyNamed(daemon, run) || exists id :: CarriesOurMarks(run, record, daemon, id))
      ensures r.Ok? && r.value.Some? ==> CarriesOurMarks(run, record, daemon, r.value.value)
    {
      MarksExactly(run, record, daemon);
      if !works { return Err(DockerFailed); }
      var found := ListByName();
      if found.None? { return Ok(None); }
      var actual := daemon[found.value];
      if actual.run != run || actual.owner != record.owner
        || !(record.containerId.None? || record.containerId == found) {
        return Err(OwnershipMismatch);
      }
      assert Owned(run, record, daemon, found.value);
      return Ok(found);
    }

    /** Pass `p` of this run stands here with this record. */
    ghost predicate At(p: nat, record: Journal, phase: Phase)
      reads this`history
    {
      p < |World().passes| && World().passes[p] == Pass(record, phase)
    }

    /** The id is saved before the container is removed. */
    method RemoveFound(ghost p: nat, record: Journal, id: Id, removal: Outcome) returns (e: Option<RunnerError>)
      requires Valid() && At(p, record, Found(id)) && journal.Some?
      modifies this
      ensures Valid() && old(history) <= history && World().created == old(World()).created
      ensures journal == Some(record.(containerId := Some(id)))
      ensures daemon == if removal.FailsBefore? then old(daemon) else old(daemon) - {id}
      ensures e.None? <==> removal.Works?
      ensures e.None? ==> At(p, record.(containerId := Some(id)), Removed)
    {
      Do(SaveId(p), Some(record.(containerId := Some(id))), daemon);
      if removal.FailsBefore? {
        Do(Quit(p), journal, daemon);
        return Some(DockerFailed);
      }
      Do(Remove(p), journal, daemon - {id});
      if removal.FailsAfter? {
        Do(Quit(p), journal, daemon);
        return Some(DockerFailed);
      }
      return None;
    }

    /** CONFIRMED is written only after a second look found the name free. */
    method ConfirmGone(ghost p: nat, record: Journal, works: bool) returns (e: Option<RunnerError>)
      requires Valid() && At(p, record, Removed) && NamesUnique(daemon)
      modifies this
      ensures Valid() && old(history) <= history && World().created == old(World()).created
      ensures daemon == old(daemon)
      ensures e.None? <==> works && NameFree(daemon, Name(run))
      ensures journal == if e.None? then Some(record.(cleanup := CONFIRMED)) else old(journal)
    {
      var again := FindOwned(record, works);
      if again.Err? {
        Do(Quit(p), journal, daemon);
        return Some(again.error);
      }
      Do(FindAgain(p, again.value), journal, daemon);
      if again.value.Some? { return Some(CleanupUnconfirmed); }
      Do(Confirm(p), Some(record.(cleanup := CONFIRMED)), daemon);
      return None;
    }

    method FindForRemoval(ghost p: nat, record: Journal, works: bool) returns (r: Result<Option<Id>, RunnerError>)
      requires Valid() && At(p, record, Begun)
      modifies this
      ensures Valid() && old(history) <= history && World().created == old(World()).created
      ensures journal == old(journal) && daemon == old(daemon)
      ensures r.Ok? <==> && works
                         && (if NameFree(daemon, Name(run)) then record.containerId.Some?
                             else exists id :: Owned(run, record, daemon, id))
      ensures r.Ok? && r.value.None? ==> NameFree(daemon, Name(run)) && At(p, record, Removed)
      ensures r.Ok? && r.value.Some? ==>
                Owned(run, record, daemon, r.value.value) && At(p, record, Found(r.value.value))
    {
      var found := FindOwned(record, works);
      if found.Err? {
        Do(Quit(p), journal, daemon);
        return found;
      }
      Do(FindFirst(p, found.value), journal, daemon);
      if found.value.None? && record.containerId.None? { return Err(CreateUncertain); }
      return found;
    }

    /** Control-plane recovery; may be called again after a crash at any point of itself or of `Run`. */
    method Reconcile(w: Weather) returns (e: Option<RunnerError>)
      requires Valid()
      modifies this
      ensures Valid() && old(history) <= history && World().created == old(World()).created
      ensures e.None? <==> Reconcilable(run, old(journal), old(daemon), w)
      ensures e.None? ==> && NameFree(daemon, Name(run)) && World().created.Some?
                          && daemon == old(daemon) - {World().created.value}
                          && journal == Some(Journal(old(journal).value.owner, World().created, CONFIRMED))
      ensures daemon == old(daemon) || (World().created.Some? && daemon == old(daemon) - {World().created.value})
      ensures old(journal).None? ==> journal.None?
      ensures old(journal).Some? ==> && journal.Some? && journal.value.owner == old(journal).value.owner
                                     && (e.Some? ==> journal.value.cleanup == old(journal).value.cleanup)
      ensures old(journal).Some? && old(journal).value.cleanup.CONFIRMED? ==>
                journal == old(journal) && daemon == old(daemon)
    {
      if journal.None? { return Some(NoJournal); }
      var record := journal.value;
      ghost var p := |World().passes|;
      Do(Begin, journal, daemon);
      var found := FindForRemoval(p, record, w.firstListing);
      if found.Err? { return Some(found.error); }
      if found.value.Some? {
        e := RemoveFound(p, record, found.value.value, w.removal);
        if e.Some? { return; }
        record := record.(containerId := found.value);
      }
      e := ConfirmGone(p, record, w.secondListing);
    }

    /** The journal is saved before the first request that changes anything outside. */
    method SendRequest(owner: string)
      requires Valid() && journal.None? && forall id | id in daemon :: daemon[id].owner != owner
      modifies this
      ensures Valid() && old(history) <= history && daemon == old(daemon)
      ensures journal == Some(Journal(owner, None, PENDING))
      ensures World().inFlight && World().created.None? && World().used == old(World()).used
    {
      Do(Intend(owner), Some(Journal(owner, None, PENDING)), daemon);
      Do(Request, journal, daemon);
    }

    /** The id is saved as soon as it is known. */
    method CreateContainer(owner: string, create: CreateOutcome) returns (e: Option<RunnerError>)
      requires Valid() && journal.None? && forall id | id in daemon :: daemon[id].owner != owner
      requires EffectOf(create).Some? ==> EffectOf(create).value !in World().used && NameFree(daemon, Name(run))
      modifies this
      ensures Valid() && old(history) <= history && World().created == EffectOf(create)
      ensures e.None? <==> create.Answered?
      ensures journal == Some(Journal(owner, if create.Answered? then Some(create.id) else None, PENDING))
      ensures daemon == if EffectOf(create).None? then old(daemon)
                        else old(daemon)[EffectOf(create).value := Container("factory-" + run, run, owner)]
    {
      SendRequest(owner);
      match create {
        case Answered(id) =>
          Do(Arrive(id), journal, daemon[id := Container(Name(run), run, owner)]);
          Do(Learn, Some(Journal(owner, Some(id), PENDING)), daemon);
          return None;
        case Rejected =>
          Do(Refuse, journal, daemon);
        case Lost(effect) =>
          if effect.Some? {
            Do(Arrive(effect.value), journal, daemon[effect.value := Container(Name(run), run, owner)]);
          }
      }
      return Some(DockerFailed);
    }

    /** What is inside the `try`: create, look it up, start, wait, save the exit code. */
    method Guarded(owner: string, create: CreateOutcome, listed: bool, execution: Option<nat>)
        returns (r: Result<nat, RunnerError>)
      requires Valid() && journal.None? && forall id | id in daemon :: daemon[id].owner != owner
      requires EffectOf(create).Some? ==> EffectOf(create).value !in World().used && NameFree(daemon, Name(run))
      modifies this
      ensures Valid() && old(history) <= history && World().created == EffectOf(create)
      ensures r.Ok? <==> create.Answered? && listed && execution.Some?
      ensures r.Ok? ==> r.value == execution.value
      ensures journal == Some(Journal(owner, if create.Answered? then Some(create.id) else None, PENDING))
      ensures daemon == if EffectOf(create).None? then old(daemon)
                        else old(daemon)[EffectOf(create).value := Container("factory-" + run, run, owner)]
    {
      var failed := CreateContainer(owner, create);
      if failed.Some? { return Err(failed.value); }
      assert Owned(run, journal.value, daemon, create.id);
      var found := FindOwned(journal.value, listed);
      if found.Err? { return Err(found.error); }
      if found.value != Some(create.id) { return Err(DockerFailed); }
      if execution.None? { return Err(ExecutionFailed); }
      Do(SaveAgain, journal, daemon);
      return Ok(execution.value);
    }

    /** The clean-up always runs, and its own failure takes the place of a result. */
    method Run(owner: string, create: CreateOutcome, listed: bool, execution: Option<nat>, w: Weather)
        returns (r: Result<nat, RunnerError>)
      requires Valid() && forall id | id in daemon :: daemon[id].owner != owner
      requires EffectOf(create).Some? ==> EffectOf(create).value !in World().used && NameFree(daemon, Name(run))
      modifies this
      ensures Valid() && old(history) <= history
      ensures r.Ok? <==> && old(journal).None? && create.Answered? && listed && execution.Some?
                         && w.firstListing && w.removal.Works? && w.secondListing
      ensures r.Ok? ==> && r.value == execution.value && journal == Some(Journal(owner, Some(create.id), CONFIRMED))
                        && daemon == old(daemon) && NameFree(daemon, Name(run))
      ensures forall id | id in old(daemon) :: id in daemon && daemon[id] == old(daemon)[id]
      ensures old(journal).None? ==> && journal.Some? && journal.value.owner == owner
                                     && (journal.value.cleanup.CONFIRMED? ==> daemon == old(daemon))
      ensures old(journal).None? ==> (
        journal.value.cleanup == CONFIRMED <==>
          && EffectOf(create) != None && w.firstListing && w.removal == Works && w.secondListing)
      ensures old(journal).Some? ==> r == Err(AlreadyRun) && journal == old(journal) && daemon == old(daemon)
    {
      if journal.Some? { return Err(AlreadyRun); }
      LeftoversReconcile(run, owner, daemon, create, w);
      r := Guarded(owner, create, listed, execution);
      assert create.Answered? ==> Owned(run, journal.value, daemon, create.id);
      var failed := Reconcile(w);
      if failed.Some? { return Err(failed.value); }
    }
  }

  /**
   After a crash at any point the clean-up can be completed exactly when no stranger holds the
   name and the container is either still there or has its id on record.
   */
  lemma CrashPointsAreReconcilable(run: string, daemon: Daemon, steps: seq<Step>)
    requires NamesUnique(daemon) && Exec(run, daemon, steps).journal.Some?
    ensures var s := Exec(run, daemon, steps);
            var there := s.created.Some? && s.created.value in s.daemon;
            Reconcilable(run, s.journal, s.daemon, Weather(true, Works, true)) <==>
              there || (s.journal.value.containerId.Some? && NameFree(s.daemon, Name(run)))
  {
    AlwaysSound(run, daemon, steps);
    var s := Exec(run, daemon, steps);
    if s.created.Some? { OwnContainerRecognized(run, daemon, steps, s.created.value); }
    if id :| Owned(run, s.journal.value, s.daemon, id) { OwnContainerRecognized(run, daemon, steps, id); }
  }
}
