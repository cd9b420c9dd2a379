/** Whole runs of an execution: the steps' tasks interleave, each lock-protected section is one action. */
module Runs {
  import opened Text
  import opened Graph
  import opened Machines
  import opened FailurePath
  import opened Execution
  import opened Replays

  // Where a step's task is: runNode checks whether to skip, marks the skip or announces the start, then
  // runs the step and marks its outcome.
  datatype Phase = Queued | ToSkip | Passed | Started | Ended

  // passed holds every step that passed the skip check, continuing those that failed without stopping the
  // run and have yet to say so, hard whether a hard failure was marked.
  datatype World = World(exec: Exec, phase: map<string, Phase>, enqueued: bool, bootFailed: bool,
                         passed: set<string>, continuing: set<string>, hard: bool)

  datatype Action =
    | Note(source: string)                      // an informational event
    | Enqueue
    | FailBoot
    | CheckSkip(id: string)
    | CheckPass(id: string)
    | MarkSkip(id: string, message: string)
    | Start(id: string)
    | Report(id: string)                        // a reset of mocks, or a remote worker's report
    | End(id: string, status: Status, message: string, hard: bool)
    | Continue(id: string)                      // the event after a tolerated failure
    | CancelQueued(id: string, message: string) // the queue drops the step
    | Destroy                                   // finish or service close

  function Init(topology: seq<Step>, notes: seq<Event>, hasBackend: bool): World {
    World(Booted(topology, notes, hasBackend), map id | id in StepIds(topology) :: Queued, false, false, {}, {}, false)
  }

  function PhaseOf(w: World, id: string): Phase {
    if id in w.phase then w.phase[id] else Ended
  }

  // What the queue promises: a step is handed over once, after the tasks of its dependencies have ended, and
  // only a step that was not handed over is dropped. A report that a worker sent while its step was running
  // can arrive after the step has ended: the coordinator has let it through by then.
  ghost predicate Enabled(w: World, a: Action) {
    match a
    case Note(_) => true
    case Enqueue => !w.enqueued && !w.bootFailed
    case FailBoot => !w.enqueued && !w.bootFailed
    case CheckSkip(id) => Ready(w, id) && ShouldSkip(w.exec, StepByID(w.exec.topology, id).value)
    case CheckPass(id) => Ready(w, id) && !ShouldSkip(w.exec, StepByID(w.exec.topology, id).value)
    case MarkSkip(id, _) => id in w.phase && w.phase[id] == ToSkip
    case Start(id) => id in w.phase && w.phase[id] == Passed
    case Report(id) => id in w.phase && id in w.passed && w.phase[id] in {Started, Ended}
    case End(id, status, _, hard) => id in w.phase && w.phase[id] == Started && IsTerminal(status) &&
      (hard ==> status == Failed) &&
      (status == Failed && !hard ==> Continues(w.exec.topology, id))
    case Continue(id) => id in w.continuing
    case CancelQueued(id, _) => w.enqueued && id in w.phase && w.phase[id] == Queued
    case Destroy => true
  }

  predicate Continues(topology: seq<Step>, id: string) {
    StepByID(topology, id).Some? && StepByID(topology, id).value.continueOnFailure
  }

  ghost predicate Ready(w: World, id: string) {
    && w.enqueued && id in w.phase && w.phase[id] == Queued
    && StepByID(w.exec.topology, id).Some?
    && (forall d :: d in StepByID(w.exec.topology, id).value.dependsOn ==> PhaseOf(w, d) == Ended)
  }

  // The change of state behind an action; the checks and the enqueueing leave the state alone.
  function OpOf(a: Action): Option<Op> {
    match a
    case Note(source) => Some(Append(Event(source, Unset)))
    case FailBoot => Some(BootFails)
    case MarkSkip(id, message) => Some(Mark(id, Skipped, message, false))
    case Start(id) => Some(Append(Event(id, Running)))
    case Report(id) => Some(Append(Event(id, Running)))
    case End(id, status, message, hard) => Some(Mark(id, status, message, hard))
    case Continue(id) => Some(Append(Event(id, Failed)))
    case CancelQueued(id, message) => Some(Mark(id, Skipped, message, false))
    case Destroy => Some(Release)
    case _ => None
  }

  function PhasesAfter(phase: map<string, Phase>, a: Action): map<string, Phase> {
    match a
    case CheckSkip(id) => phase[id := ToSkip]
    case CheckPass(id) => phase[id := Passed]
    case Start(id) => phase[id := Started]
    case MarkSkip(id, _) => phase[id := Ended]
    case End(id, _, _, _) => phase[id := Ended]
    case CancelQueued(id, _) => phase[id := Ended]
    case _ => phase
  }

  function ContinuingAfter(continuing: set<string>, a: Action): set<string> {
    match a
    case End(id, status, _, hard) => if status == Failed && !hard then continuing + {id} else continuing
    case Continue(id) => continuing - {id}
    case _ => continuing
  }

  function Next(w: World, a: Action): World {
    World(
      if OpOf(a).Some? then Do(w.exec, OpOf(a).value) else Ensured(w.exec),
      PhasesAfter(w.phase, a),
      w.enqueued || a.Enqueue?,
      w.bootFailed || a.FailBoot?,
      if a.CheckPass? then w.passed + {a.id} else w.passed,
      ContinuingAfter(w.continuing, a),
      w.hard || (a.End? && a.hard))
  }

  /***** What holds in every run *****/

  // A topology as resolution leaves it: distinct, trimmed, non-empty ids, none of them "boot", and no
  // dependency missing.
  ghost predicate Resolved(topology: seq<Step>) {
    && CleanIds(topology) && "boot" !in StepIds(topology)
    && |StepIds(topology)| == |topology|
    && (forall s, d :: s in topology && d in s.dependsOn ==> d in StepIds(topology))
  }

  function EndedSteps(phase: map<string, Phase>): set<string> {
    set id | id in phase && phase[id] == Ended
  }

  // A step that has ended can read running again.
  predicate Fits(phase: Phase, status: Status) {
    match phase
    case Queued => status == Pending
    case ToSkip => status == Pending
    case Passed => status == Pending
    case Started => status == Running
    case Ended => IsTerminal(status) || status == Running
  }

  ghost predicate AllFit(phase: map<string, Phase>, statuses: map<string, Status>) {
    phase.Keys == statuses.Keys && forall id :: id in phase ==> Fits(phase[id], statuses[id])
  }

  ghost predicate AllContinue(phase: map<string, Phase>, statuses: map<string, Status>, continuing: set<string>) {
    forall id :: id in continuing ==> id in phase && phase[id] == Ended && StatusOf(statuses, id) in {Failed, Running}
  }

  ghost predicate Standing(w: World) {
    var x := w.exec;
    && Resolved(x.topology) && Live(x) && x.total == |x.topology|
    && AllFit(w.phase, x.stepStatus)
    && AllContinue(w.phase, x.stepStatus, w.continuing)
    && x.completed == |EndedSteps(w.phase)|
  }

  ghost predicate Verdict(w: World) {
    var x := w.exec;
    && (x.status == RunFailed <==> w.hard || w.bootFailed)
    && (x.status == RunHealthy <==> EndedSteps(w.phase) == w.phase.Keys != {} && !w.hard && !w.bootFailed)
    && x.cancelCalls == (if w.hard then 1 else 0)
    && x.destroyCalls == (if x.released && x.hasBackend then 1 else 0)
    && (w.bootFailed ==> !w.enqueued)
    && (!w.enqueued ==> !w.hard && forall id :: id in w.phase ==> w.phase[id] == Queued)
  }

  ghost predicate Sound(w: World) {
    Standing(w) && Verdict(w)
  }

  /***** One action *****/

  // What an action needs of the phase of its step.
  predicate PhaseAllows(phase: map<string, Phase>, continuing: set<string>, a: Action) {
    match a
    case CheckSkip(id) => id in phase && phase[id] == Queued
    case CheckPass(id) => id in phase && phase[id] == Queued
    case MarkSkip(id, _) => id in phase && phase[id] == ToSkip
    case Start(id) => id in phase && phase[id] == Passed
    case Report(id) => id in phase && phase[id] in {Started, Ended}
    case End(id, status, _, _) => id in phase && phase[id] == Started && IsTerminal(status)
    case Continue(id) => id in continuing
    case CancelQueued(id, _) => id in phase && phase[id] == Queued
    case _ => true
  }

  // What an action does to the statuses.
  function StatusesAfter(statuses: map<string, Status>, a: Action): map<string, Status> {
    match a
    case Start(id) => statuses[id := Running]
    case Report(id) => statuses[id := Running]
    case MarkSkip(id, _) => statuses[id := Skipped]
    case End(id, status, _, _) => statuses[id := status]
    case Continue(id) => statuses[id := Failed]
    case CancelQueued(id, _) => statuses[id := Skipped]
    case _ => statuses
  }

  // What an action adds to the log.
  function Emitted(a: Action): seq<Event> {
    match a
    case Note(source) => [Event(source, Unset)]
    case FailBoot => [Event("boot", Failed)]
    case MarkSkip(id, _) => [Event(id, Skipped)]
    case Start(id) => [Event(id, Running)]
    case Report(id) => [Event(id, Running)]
    case End(id, status, _, _) => [Event(id, status)]
    case Continue(id) => [Event(id, Failed)]
    case CancelQueued(id, _) => [Event(id, Skipped)]
    case _ => []
  }

  lemma AllFitKept(phase: map<string, Phase>, statuses: map<string, Status>, continuing: set<string>, a: Action)
    requires AllFit(phase, statuses) && AllContinue(phase, statuses, continuing) && PhaseAllows(phase, continuing, a)
    ensures AllFit(PhasesAfter(phase, a), StatusesAfter(statuses, a))
  {
  }

  lemma AllContinueKept(phase: map<string, Phase>, statuses: map<string, Status>, continuing: set<string>, a: Action)
    requires AllFit(phase, statuses) && AllContinue(phase, statuses, continuing) && PhaseAllows(phase, continuing, a)
    ensures AllContinue(PhasesAfter(phase, a), StatusesAfter(statuses, a), ContinuingAfter(continuing, a))
  {
  }

  lemma EndedCount(phase: map<string, Phase>, continuing: set<string>, a: Action)
    requires PhaseAllows(phase, continuing, a)
    ensures |EndedSteps(PhasesAfter(phase, a))| == |EndedSteps(phase)| + if Marks(a) then 1 else 0
    ensures !Marks(a) ==> EndedSteps(PhasesAfter(phase, a)) == EndedSteps(phase)
  {
    if Marks(a) {
      assert EndedSteps(PhasesAfter(phase, a)) == EndedSteps(phase) + {a.id};
    } else {
      assert EndedSteps(PhasesAfter(phase, a)) == EndedSteps(phase);
    }
  }

  predicate Marks(a: Action) {
    a.MarkSkip? || a.End? || a.CancelQueued?
  }

  lemma SoundIsLoaded(w: World)
    requires Standing(w)
    ensures Ensured(w.exec) == w.exec
  {
    if w.exec.stepStatus == map[] {
      assert EndedSteps(w.phase) == {} && TerminalSteps(map[]) == {};
    }
  }

  lemma AppendEffect(x: Exec, id: string, status: Status)
    requires Ensured(x) == x && id in x.stepStatus && TrimSpace(id) == id && id != "" && status != Unset
    ensures Appended(x, Event(id, status)) ==
      x.(stepStatus := x.stepStatus[id := status], events := x.events + [Event(id, status)])
  {
  }

  lemma IdleAppendEffect(x: Exec, e: Event)
    requires Ensured(x) == x && (e.status == Unset || TrimSpace(e.source) !in x.stepStatus)
    ensures Appended(x, e) == x.(events := x.events + [e])
  {
  }

  lemma StepIsKnown(w: World, id: string)
    requires Standing(w) && id in w.phase
    ensures id in w.exec.stepStatus && id != "" && TrimSpace(id) == id && id in StepIds(w.exec.topology)
  {
  }

  lemma EnabledIsAllowed(w: World, a: Action)
    requires Standing(w) && Enabled(w, a)
    ensures PhaseAllows(w.phase, w.continuing, a)
    ensures OpOf(a).Some? ==> Allowed(w.exec.topology, OpOf(a).value)
  {
    if Marks(a) {
      StepIsKnown(w, a.id);
    }
  }

  // Marking actions find their step unfinished.
  lemma MarkingEffect(w: World, a: Action)
    requires Standing(w) && Enabled(w, a) && Marks(a)
    ensures OpOf(a).Some? && OpOf(a).value.Mark?
    ensures var op := OpOf(a).value; Next(w, a).exec == Finished(w.exec, op.id, op.status, op.message, op.hard)
  {
    SoundIsLoaded(w);
    EnabledIsAllowed(w, a);
    UnfinishedStep(w.phase, w.exec.stepStatus, w.continuing, a);
    var op := OpOf(a).value;
    MarkedUnfinished(w.exec, op.id, op.status, op.message, op.hard);
  }

  lemma UnfinishedStep(phase: map<string, Phase>, statuses: map<string, Status>, continuing: set<string>, a: Action)
    requires AllFit(phase, statuses) && PhaseAllows(phase, continuing, a) && Marks(a)
    ensures a.id in phase && phase[a.id] != Ended && a.id in statuses && !IsTerminal(statuses[a.id])
  {
  }

  lemma MarkedUnfinished(x: Exec, id: string, status: Status, message: string, hard: bool)
    requires Ensured(x) == x && !IsTerminal(StatusOf(x.stepStatus, id))
    ensures Marked(x, id, status, message, hard) == Finished(x, id, status, message, hard)
  {
  }

  // The others leave everything but the statuses, the log and the release alone, except that a failed
  // boot fails the run.
  ghost predicate OnlyLogs(x: Exec, y: Exec, statuses: map<string, Status>, status: RunStatus, emitted: seq<Event>) {
    && y.stepStatus == statuses && y.status == status && y.events == x.events + emitted && y.terminalErr == x.terminalErr
    && y.topology == x.topology && y.completed == x.completed && y.total == x.total
    && y.cancelCalls == x.cancelCalls && y.hasBackend == x.hasBackend
    && y.released == x.released && y.destroyCalls == x.destroyCalls
  }

  // Start, Report and Continue.
  predicate Announces(a: Action) {
    a.Start? || a.Report? || a.Continue?
  }

  lemma AnnouncingEffect(w: World, a: Action)
    requires Standing(w) && Enabled(w, a) && Announces(a)
    ensures OnlyLogs(w.exec, Next(w, a).exec, StatusesAfter(w.exec.stepStatus, a), w.exec.status, Emitted(a))
  {
    SoundIsLoaded(w);
    EnabledIsAllowed(w, a);
    StepIsKnown(w, a.id);
    AppendEffect(w.exec, a.id, if a.Continue? then Failed else Running);
  }

  lemma NoteEffect(w: World, source: string)
    requires Standing(w)
    ensures OnlyLogs(w.exec, Next(w, Note(source)).exec, w.exec.stepStatus, w.exec.status, Emitted(Note(source)))
  {
    SoundIsLoaded(w);
    IdleAppendEffect(w.exec, Event(source, Unset));
  }

  lemma BootFailureEffect(w: World)
    requires Standing(w)
    ensures OnlyLogs(w.exec, Next(w, FailBoot).exec, w.exec.stepStatus, RunFailed, Emitted(FailBoot))
  {
    SoundIsLoaded(w);
    TrimmedIsFixed("boot");
    assert "boot" !in w.exec.stepStatus;
    IdleAppendEffect(w.exec.(status := RunFailed), Event("boot", Failed));
  }

  lemma OtherEffect(w: World, a: Action)
    requires Standing(w) && Enabled(w, a) && !Marks(a) && !a.Destroy?
    ensures OnlyLogs(w.exec, Next(w, a).exec, StatusesAfter(w.exec.stepStatus, a),
                     if a.FailBoot? then RunFailed else w.exec.status, Emitted(a))
  {
    if Announces(a) {
      AnnouncingEffect(w, a);
    } else if a.Note? {
      NoteEffect(w, a.source);
    } else if a.FailBoot? {
      BootFailureEffect(w);
    } else {
      SoundIsLoaded(w);
      assert w.exec.events + [] == w.exec.events;
    }
  }

  lemma ActionEffect(w: World, a: Action)
    requires Standing(w) && Enabled(w, a)
    ensures Next(w, a).exec.stepStatus == StatusesAfter(w.exec.stepStatus, a)
    ensures Next(w, a).exec.topology == w.exec.topology && Next(w, a).exec.total == w.exec.total
    ensures Next(w, a).exec.completed == w.exec.completed + if Marks(a) then 1 else 0
  {
    if Marks(a) {
      MarkingEffect(w, a);
    } else if !a.Destroy? {
      OtherEffect(w, a);
    }
  }

  lemma StandingKept(w: World, a: Action)
    requires Standing(w) && Enabled(w, a)
    ensures Standing(Next(w, a))
  {
    ActionEffect(w, a);
    EnabledIsAllowed(w, a);
    AllFitKept(w.phase, w.exec.stepStatus, w.continuing, a);
    AllContinueKept(w.phase, w.exec.stepStatus, w.continuing, a);
    EndedCount(w.phase, w.continuing, a);
    if OpOf(a).Some? {
      DoKeepsLive(w.exec, OpOf(a).value);
    } else {
      SoundIsLoaded(w);
    }
  }

  lemma VerdictKept(w: World, a: Action)
    requires Sound(w) && Enabled(w, a)
    ensures Verdict(Next(w, a))
  {
    EnabledIsAllowed(w, a);
    EndedCount(w.phase, w.continuing, a);
    assert PhasesAfter(w.phase, a).Keys == w.phase.Keys;
    if Marks(a) {
      VerdictAfterMark(w, a);
    } else if a.Destroy? {
      VerdictAfterRelease(w);
    } else {
      VerdictAfterOther(w, a);
    }
  }

  lemma VerdictAfterRelease(w: World)
    requires Sound(w)
    ensures Verdict(Next(w, Destroy))
  {
  }

  lemma VerdictAfterOther(w: World, a: Action)
    requires Sound(w) && Enabled(w, a) && !Marks(a) && !a.Destroy?
    requires EndedSteps(PhasesAfter(w.phase, a)) == EndedSteps(w.phase) && PhasesAfter(w.phase, a).Keys == w.phase.Keys
    ensures Verdict(Next(w, a))
  {
    OtherEffect(w, a);
  }

  lemma VerdictAfterMark(w: World, a: Action)
    requires Sound(w) && Enabled(w, a) && Marks(a)
    ensures Verdict(Next(w, a))
  {
    EnabledIsAllowed(w, a);
    UnfinishedStep(w.phase, w.exec.stepStatus, w.continuing, a);
    assert a.id in w.phase && w.phase[a.id] != Ended && a.id !in EndedSteps(w.phase);
    HealthyExactlyWhen(w, a);
    MarkingEffect(w, a);
  }

  lemma HealthyExactlyWhen(w: World, a: Action)
    requires Standing(w) && Enabled(w, a) && Marks(a) && w.exec.status != RunHealthy
    ensures var w' := Next(w, a);
      w'.exec.status == RunHealthy <==>
        EndedSteps(w'.phase) == w'.phase.Keys != {} && !(OpOf(a).Some? && OpOf(a).value.hard) && w.exec.status != RunFailed
  {
    MarkingEffect(w, a);
    StandingKept(w, a);
    var w' := Next(w, a);
    assert w'.phase.Keys == StepIds(w'.exec.topology) && a.id in w'.phase.Keys;
    if |EndedSteps(w'.phase)| >= |w'.phase.Keys| {
      SubsetOfSameSize(EndedSteps(w'.phase), w'.phase.Keys);
    }
  }

  lemma SoundKept(w: World, a: Action)
    requires Sound(w) && Enabled(w, a)
    ensures Sound(Next(w, a)) && Next(w, a).exec.topology == w.exec.topology
  {
    StandingKept(w, a);
    VerdictKept(w, a);
    ActionEffect(w, a);
  }

  /***** What holds while no report comes late *****/

  // Every step that has ended still reads terminal.
  ghost predicate Settled(w: World) {
    AllSettled(w.phase, w.exec.stepStatus)
  }

  ghost predicate AllSettled(phase: map<string, Phase>, statuses: map<string, Status>) {
    forall id :: id in phase && phase[id] == Ended ==> IsTerminal(StatusOf(statuses, id))
  }

  // What a step that passed the check may rely on.
  ghost predicate Justified(topology: seq<Step>, statuses: map<string, Status>, passed: set<string>, id: string) {
    var step := StepByID(topology, id);
    && step.Some?
    && (forall d :: d in step.value.dependsOn ==> d in passed && Excused(topology, statuses, step.value, d))
    && (step.value.onFailure != [] ==> Triggered(step.value, statuses))
  }

  predicate Excused(topology: seq<Step>, statuses: map<string, Status>, s: Step, d: string) {
    StatusOf(statuses, d) == Healthy || (StatusOf(statuses, d) == Failed && Tolerated(topology, s, d))
  }

  ghost predicate Closed(w: World) {
    && (forall id :: id in w.passed ==> Justified(w.exec.topology, w.exec.stepStatus, w.passed, id))
    && HavePassed(w.phase, w.exec.stepStatus, w.passed)
  }

  ghost predicate Good(w: World) {
    Sound(w) && Settled(w) && Closed(w)
  }

  // A report is timely if its step is still running.
  predicate Timely(w: World, a: Action) {
    a.Report? ==> PhaseOf(w, a.id) == Started
  }

  /** In every run: a terminal status is changed by a report of its step, which is late then, and by nothing else. */
  lemma TerminalStaysExactlyWhen(w: World, a: Action, id: string)
    requires Sound(w) && Enabled(w, a) && IsTerminal(StatusOf(w.exec.stepStatus, id))
    ensures StatusOf(Next(w, a).exec.stepStatus, id) == StatusOf(w.exec.stepStatus, id) <==> a != Report(id)
    ensures a == Report(id) ==> !Timely(w, a)
  {
    ActionEffect(w, a);
    EnabledIsAllowed(w, a);
    TerminalIsKept(w.phase, w.exec.stepStatus, w.continuing, a, id);
  }

  lemma TerminalIsKept(phase: map<string, Phase>, statuses: map<string, Status>, continuing: set<string>, a: Action, id: string)
    requires AllFit(phase, statuses) && AllContinue(phase, statuses, continuing) && PhaseAllows(phase, continuing, a)
    requires id in statuses && IsTerminal(statuses[id])
    ensures phase[id] == Ended
    ensures StatusOf(StatusesAfter(statuses, a), id) == statuses[id] <==> a != Report(id)
  {
  }

  /** In every run: completed is the number of terminal steps exactly as long as every ended step reads terminal. */
  lemma CountedExactlyWhen(w: World)
    requires Sound(w)
    ensures Counted(w.exec) <==> Settled(w)
  {
    TerminalHaveEnded(w.phase, w.exec.stepStatus);
    if Counted(w.exec) {
      SubsetOfSameSize(TerminalSteps(w.exec.stepStatus), EndedSteps(w.phase));
    }
  }

  lemma TerminalHaveEnded(phase: map<string, Phase>, statuses: map<string, Status>)
    requires AllFit(phase, statuses)
    ensures TerminalSteps(statuses) <= EndedSteps(phase)
    ensures TerminalSteps(statuses) == EndedSteps(phase) <==> AllSettled(phase, statuses)
  {
    forall id | id in TerminalSteps(statuses)
      ensures id in EndedSteps(phase)
    {
      assert Fits(phase[id], statuses[id]);
    }
    if TerminalSteps(statuses) == EndedSteps(phase) {
      forall id | id in phase && phase[id] == Ended
        ensures id in TerminalSteps(statuses)
      {
        assert id in EndedSteps(phase);
      }
    }
  }

  lemma AllSettledKept(phase: map<string, Phase>, statuses: map<string, Status>, continuing: set<string>, a: Action)
    requires AllFit(phase, statuses) && AllSettled(phase, statuses) && PhaseAllows(phase, continuing, a)
    ensures AllSettled(PhasesAfter(phase, a), StatusesAfter(statuses, a)) <==> (a.Report? ==> phase[a.id] == Started)
  {
    if a.Report? {
      assert PhasesAfter(phase, a)[a.id] == phase[a.id];
    }
  }

  // What justified a step keeps justifying it while terminal statuses stay.
  lemma JustifiedKept(topology: seq<Step>, statuses: map<string, Status>, statuses': map<string, Status>,
                      passed: set<string>, passed': set<string>, id: string)
    requires Justified(topology, statuses, passed, id) && passed <= passed'
    requires forall d :: IsTerminal(StatusOf(statuses, d)) ==> StatusOf(statuses', d) == StatusOf(statuses, d)
    ensures Justified(topology, statuses', passed', id)
  {
    var step := StepByID(topology, id).value;
    forall d | d in step.dependsOn
      ensures Excused(topology, statuses', step, d)
    {
      assert Excused(topology, statuses, step, d);
    }
    if step.onFailure != [] {
      var t :| t in step.onFailure && StatusOf(statuses, t) == Failed;
      assert StatusOf(statuses', t) == Failed;
    }
  }

  lemma PassIsJustified(w: World, id: string)
    requires Good(w) && Enabled(w, CheckPass(id))
    ensures Justified(w.exec.topology, w.exec.stepStatus, w.passed, id)
  {
    var step := StepByID(w.exec.topology, id).value;
    forall d | d in step.dependsOn
      ensures Excused(w.exec.topology, w.exec.stepStatus, step, d) && d in w.passed
    {
      assert PhaseOf(w, d) == Ended && d in StepIds(w.exec.topology);
      assert IsTerminal(StatusOf(w.exec.stepStatus, d)) && !Blocks(w.exec, step, d);
    }
  }

  lemma ClosedKept(w: World, a: Action)
    requires Good(w) && Enabled(w, a) && Timely(w, a)
    ensures Closed(Next(w, a))
  {
    var w' := Next(w, a);
    ActionEffect(w, a);
    forall d | IsTerminal(StatusOf(w.exec.stepStatus, d))
      ensures StatusOf(w'.exec.stepStatus, d) == StatusOf(w.exec.stepStatus, d)
    {
      TerminalStaysExactlyWhen(w, a, d);
    }
    forall id | id in w'.passed
      ensures Justified(w'.exec.topology, w'.exec.stepStatus, w'.passed, id)
    {
      if id !in w.passed {
        PassIsJustified(w, id);
      }
      JustifiedKept(w.exec.topology, w.exec.stepStatus, w'.exec.stepStatus, w.passed, w'.passed, id);
    }
    EnabledIsAllowed(w, a);
    SettledHavePassed(w.phase, w.exec.stepStatus, w.continuing, w.passed, a);
  }

  ghost predicate HavePassed(phase: map<string, Phase>, statuses: map<string, Status>, passed: set<string>) {
    && (forall id :: id in phase && phase[id] in {Passed, Started} ==> id in passed)
    && (forall id :: StatusOf(statuses, id) in {Healthy, Failed} ==> id in passed)
  }

  lemma SettledHavePassed(phase: map<string, Phase>, statuses: map<string, Status>, continuing: set<string>,
                          passed: set<string>, a: Action)
    requires AllFit(phase, statuses) && AllContinue(phase, statuses, continuing) && AllSettled(phase, statuses)
    requires PhaseAllows(phase, continuing, a) && HavePassed(phase, statuses, passed)
    ensures HavePassed(PhasesAfter(phase, a), StatusesAfter(statuses, a), if a.CheckPass? then passed + {a.id} else passed)
  {
  }

  /** A state with all of these properties keeps them in one more action if and only if that is not a late report. */
  lemma GoodKeptExactlyWhen(w: World, a: Action)
    requires Good(w) && Enabled(w, a)
    ensures Good(Next(w, a)) <==> Timely(w, a)
    ensures Sound(Next(w, a)) && Next(w, a).exec.topology == w.exec.topology
  {
    SoundKept(w, a);
    ActionEffect(w, a);
    EnabledIsAllowed(w, a);
    AllSettledKept(w.phase, w.exec.stepStatus, w.continuing, a);
    if Timely(w, a) {
      ClosedKept(w, a);
    }
  }

  /***** Whole runs *****/

  ghost const RUN := Machine(Enabled, Next)

  // No report comes late.
  ghost predicate TimelyRun(w: World, actions: seq<Action>) {
    actions != [] ==>
      && TimelyRun(w, actions[..|actions| - 1])
      && Timely(After(RUN, w, actions[..|actions| - 1]), actions[|actions| - 1])
  }

  lemma InitIsGood(topology: seq<Step>, notes: seq<Event>, hasBackend: bool)
    requires Resolved(topology) && OnlyNotes(notes)
    ensures Good(Init(topology, notes, hasBackend))
  {
    NotesReplayToPending(topology, notes);
    var phase := Init(topology, notes, hasBackend).phase;
    assert EndedSteps(phase) == {};
  }

  lemma {:induction false} StaysSound(w: World, actions: seq<Action>)
    requires Sound(w) && Legal(RUN, w, actions)
    ensures Sound(After(RUN, w, actions)) && After(RUN, w, actions).exec.topology == w.exec.topology
  {
    if actions != [] {
      StaysSound(w, actions[..|actions| - 1]);
      SoundKept(After(RUN, w, actions[..|actions| - 1]), actions[|actions| - 1]);
    }
  }

  lemma {:induction false} StaysGood(w: World, actions: seq<Action>)
    requires Good(w) && Legal(RUN, w, actions) && TimelyRun(w, actions)
    ensures Good(After(RUN, w, actions))
  {
    if actions != [] {
      StaysGood(w, actions[..|actions| - 1]);
      GoodKeptExactlyWhen(After(RUN, w, actions[..|actions| - 1]), actions[|actions| - 1]);
    }
  }

  /** In every run, late reports included: the live statuses are the replayed log; completed is the number of
      steps that have ended and never exceeds total; a run is healthy exactly when it has steps, all have ended and
      none failed hard; it is failed exactly after a hard or boot failure; running steps are cancelled once after a hard
      failure, and the backend is released at most once. */
  lemma RunVerdict(topology: seq<Step>, notes: seq<Event>, hasBackend: bool, actions: seq<Action>)
    requires Resolved(topology) && OnlyNotes(notes) && Legal(RUN, Init(topology, notes, hasBackend), actions)
    ensures var w := After(RUN, Init(topology, notes, hasBackend), actions); var x := w.exec;
      && Sound(w)
      && x.topology == topology && x.stepStatus == Replay(topology, x.events)
      && x.completed == |EndedSteps(w.phase)| <= x.total == |topology|
      && (x.status == RunHealthy <==> EndedSteps(w.phase) == StepIds(topology) != {} && !w.hard && !w.bootFailed)
      && (x.status == RunFailed <==> w.hard || w.bootFailed)
      && x.cancelCalls == (if w.hard then 1 else 0) && x.destroyCalls <= 1
  {
    InitIsGood(topology, notes, hasBackend);
    StaysSound(Init(topology, notes, hasBackend), actions);
    var phase := After(RUN, Init(topology, notes, hasBackend), actions).phase;
    assert phase.Keys == EndedSteps(phase) + (phase.Keys - EndedSteps(phase));
  }

  function AllEmitted(actions: seq<Action>): seq<Event> {
    if actions == [] then [] else AllEmitted(actions[..|actions| - 1]) + Emitted(actions[|actions| - 1])
  }

  // The message of the first hard failure that has one.
  function FirstMessage(actions: seq<Action>): Option<string> {
    if actions == [] then None else
      var before, last := FirstMessage(actions[..|actions| - 1]), actions[|actions| - 1];
      if before.Some? then before
      else if last.End? && last.hard && !Blank(last.message) then Some(last.message)
      else None
  }

  predicate HardFailure(actions: seq<Action>) {
    actions != [] && (HardFailure(actions[..|actions| - 1]) || (actions[|actions| - 1].End? && actions[|actions| - 1].hard))
  }

  // The log is what the actions said, in their order; the error is the first message of a hard failure; hard and
  // boot failures are those that happened; and the backend is released exactly if there is one and somebody asked for it.
  ghost predicate Recorded(w: World, notes: seq<Event>, hasBackend: bool, actions: seq<Action>) {
    var x := w.exec;
    && x.events == notes + AllEmitted(actions)
    && x.terminalErr == FirstMessage(actions) && (x.terminalErr.Some? ==> w.hard)
    && (w.hard <==> HardFailure(actions)) && (w.bootFailed <==> FailBoot in actions)
    && x.hasBackend == hasBackend && (x.released <==> Destroy in actions)
    && x.destroyCalls == if Destroy in actions && hasBackend then 1 else 0
  }

  /** Every run is on record. */
  lemma RunIsRecorded(topology: seq<Step>, notes: seq<Event>, hasBackend: bool, actions: seq<Action>)
    requires Resolved(topology) && OnlyNotes(notes) && Legal(RUN, Init(topology, notes, hasBackend), actions)
    ensures Recorded(After(RUN, Init(topology, notes, hasBackend), actions), notes, hasBackend, actions)
  {
    InitIsGood(topology, notes, hasBackend);
    NothingRecorded(topology, notes, hasBackend);
    StaysRecorded(Init(topology, notes, hasBackend), notes, hasBackend, actions);
  }

  lemma {:induction false} StaysRecorded(w0: World, notes: seq<Event>, hasBackend: bool, actions: seq<Action>)
    requires Sound(w0) && Recorded(w0, notes, hasBackend, []) && Legal(RUN, w0, actions)
    ensures Recorded(After(RUN, w0, actions), notes, hasBackend, actions)
  {
    if actions != [] {
      var init, a := actions[..|actions| - 1], actions[|actions| - 1];
      StaysRecorded(w0, notes, hasBackend, init);
      StaysSound(w0, init);
      assert actions == init + [a];
      RecordGrows(After(RUN, w0, init), a, notes, hasBackend, init);
    }
  }

  lemma NothingRecorded(topology: seq<Step>, notes: seq<Event>, hasBackend: bool)
    ensures Recorded(Init(topology, notes, hasBackend), notes, hasBackend, [])
  {
    assert notes + [] == notes;
  }

  lemma RecordGrows(w: World, a: Action, notes: seq<Event>, hasBackend: bool, init: seq<Action>)
    requires Sound(w) && Enabled(w, a) && Recorded(w, notes, hasBackend, init)
    ensures Recorded(Next(w, a), notes, hasBackend, init + [a])
  {
    RecordedNext(w, a);
    ConcatAssoc(notes, AllEmitted(init), Emitted(a));
    assert (init + [a])[..|init|] == init;
  }

  lemma RecordedNext(w: World, a: Action)
    requires Sound(w) && Enabled(w, a) && (w.exec.terminalErr.Some? ==> w.hard)
    ensures var x, y := w.exec, Next(w, a).exec;
      && y.events == x.events + Emitted(a)
      && y.terminalErr == (if x.terminalErr.None? && a.End? && a.hard && !Blank(a.message) then Some(a.message) else x.terminalErr)
      && y.hasBackend == x.hasBackend && (y.released <==> x.released || a.Destroy?)
      && y.destroyCalls == x.destroyCalls + if a.Destroy? && !x.released && x.hasBackend then 1 else 0
  {
    if Marks(a) {
      MarkingEffect(w, a);
    } else if a.Destroy? {
      assert w.exec.events + [] == w.exec.events;
    } else {
      OtherEffect(w, a);
    }
  }

  /***** The skip decision *****/

  // What lets a step run: one of its triggers has failed, if it lists any; no dependency was skipped, and those that
  // failed are tolerated; and after a fatal failure, it leads on to a step whose trigger has failed.
  ghost predicate MayRun(w: World, step: Step) {
    var statuses := w.exec.stepStatus;
    && (step.onFailure == [] || exists t :: t in step.onFailure && StatusOf(statuses, t) == Failed)
    && (forall d :: d in step.dependsOn ==>
         && StatusOf(statuses, d) != Skipped
         && (StatusOf(statuses, d) == Failed ==> d in step.onFailure || Continues(w.exec.topology, d)))
    && (w.exec.status == RunFailed ==> exists p :: FailureRoute(w.exec.topology, statuses, step.id, p))
  }

  /** In every state a ready step passes the check if and only if that lets it run, and is skipped otherwise. */
  lemma CheckedExactlyWhen(w: World, id: string)
    requires Ready(w, id)
    ensures var step := StepByID(w.exec.topology, id).value;
      && (Enabled(w, CheckPass(id)) <==> MayRun(w, step))
      && (Enabled(w, CheckSkip(id)) <==> !MayRun(w, step))
  {
  }

  // Its dependencies are healthy, or have failed and are tolerated, and one of its triggers, if it lists any, has failed.
  ghost predicate IsFree(w: World, step: Step) {
    var statuses := w.exec.stepStatus;
    && (step.onFailure == [] || exists t :: t in step.onFailure && StatusOf(statuses, t) == Failed)
    && (forall d :: d in step.dependsOn && StatusOf(statuses, d) != Healthy ==>
         StatusOf(statuses, d) == Failed && (d in step.onFailure || Continues(w.exec.topology, d)))
  }

  // A run of such a topology, with no late report, has come this far.
  ghost predicate ComesTo(topology: seq<Step>, notes: seq<Event>, hasBackend: bool, actions: seq<Action>, w: World) {
    var w0 := Init(topology, notes, hasBackend);
    && Resolved(topology) && OnlyNotes(notes)
    && Legal(RUN, w0, actions) && TimelyRun(w0, actions) && w == After(RUN, w0, actions)
  }

  lemma TimelyIsGood(topology: seq<Step>, notes: seq<Event>, hasBackend: bool, actions: seq<Action>, w: World)
    requires ComesTo(topology, notes, hasBackend, actions, w)
    ensures Good(w) && w.exec.topology == topology
  {
    InitIsGood(topology, notes, hasBackend);
    StaysGood(Init(topology, notes, hasBackend), actions);
    StaysSound(Init(topology, notes, hasBackend), actions);
  }

  /** In every run without late reports: a free step that is ready passes the check in a run that has not failed, and
      in one that has if and only if a failure route leads on from it. Any other ready step is skipped. */
  lemma SkipDecision(topology: seq<Step>, notes: seq<Event>, hasBackend: bool, actions: seq<Action>, w: World, id: string)
    requires ComesTo(topology, notes, hasBackend, actions, w) && Ready(w, id)
    ensures StepByID(w.exec.topology, id).Some?
    ensures var step := StepByID(w.exec.topology, id).value;
      && (Enabled(w, CheckPass(id)) <==> (
           && IsFree(w, step)
           && (w.hard || w.bootFailed ==> exists p :: FailureRoute(w.exec.topology, w.exec.stepStatus, id, p))))
      && (Enabled(w, CheckSkip(id)) <==> !Enabled(w, CheckPass(id)))
  {
    TimelyIsGood(topology, notes, hasBackend, actions, w);
    CheckedExactlyWhen(w, id);
    FreeExactlyWhen(w, id);
  }

  lemma FreeExactlyWhen(w: World, id: string)
    requires Good(w) && Ready(w, id)
    ensures var step := StepByID(w.exec.topology, id).value;
      MayRun(w, step) <==> (
        && IsFree(w, step)
        && (w.hard || w.bootFailed ==> exists p :: FailureRoute(w.exec.topology, w.exec.stepStatus, id, p)))
  {
    var step := StepByID(w.exec.topology, id).value;
    DependenciesHaveEnded(w, id);
    FreeMeans(w, step);
  }

  lemma DependenciesHaveEnded(w: World, id: string)
    requires Good(w) && Ready(w, id)
    ensures forall d :: d in StepByID(w.exec.topology, id).value.dependsOn ==> IsTerminal(StatusOf(w.exec.stepStatus, d))
  {
    var step := StepByID(w.exec.topology, id).value;
    forall d | d in step.dependsOn
      ensures IsTerminal(StatusOf(w.exec.stepStatus, d))
    {
      assert PhaseOf(w, d) == Ended && d in StepIds(w.exec.topology);
    }
  }

  lemma FreeMeans(w: World, step: Step)
    requires forall d :: d in step.dependsOn ==> IsTerminal(StatusOf(w.exec.stepStatus, d))
    ensures MayRun(w, step) <==> (
      && IsFree(w, step)
      && (w.exec.status == RunFailed ==> exists p :: FailureRoute(w.exec.topology, w.exec.stepStatus, step.id, p)))
  {
  }

  /** While no report comes late, completed is the number of terminal steps, a healthy run has only those, and
      the steps that passed the skip check are closed under dependencies, in every later state. */
  lemma PassedAreClosed(topology: seq<Step>, notes: seq<Event>, hasBackend: bool, actions: seq<Action>, w: World)
    requires ComesTo(topology, notes, hasBackend, actions, w)
    ensures var x := w.exec;
      && x.completed == |TerminalSteps(x.stepStatus)|
      && (x.status == RunHealthy ==> TerminalSteps(x.stepStatus) == StepIds(topology))
      && (forall id :: id in w.passed ==> Justified(topology, x.stepStatus, w.passed, id))
  {
    TimelyIsGood(topology, notes, hasBackend, actions, w);
    CountedExactlyWhen(w);
    TerminalHaveEnded(w.phase, w.exec.stepStatus);
  }

  /** In every run Failed is absorbing, and so is a terminal status of a step of which no report is still to come. */
  lemma {:induction false} Absorbing(w: World, actions: seq<Action>, id: string)
    requires Sound(w) && Legal(RUN, w, actions)
    ensures w.exec.status == RunFailed ==> After(RUN, w, actions).exec.status == RunFailed
    ensures IsTerminal(StatusOf(w.exec.stepStatus, id)) && Report(id) !in actions ==>
      StatusOf(After(RUN, w, actions).exec.stepStatus, id) == StatusOf(w.exec.stepStatus, id)
  {
    if actions != [] {
      var init, a := actions[..|actions| - 1], actions[|actions| - 1];
      var v := After(RUN, w, init);
      Absorbing(w, init, id);
      StaysSound(w, init);
      VerdictKept(v, a);
      if IsTerminal(StatusOf(v.exec.stepStatus, id)) {
        TerminalStaysExactlyWhen(v, a, id);
      }
    }
  }

  /***** A late report *****/

  /** It leaves the counter where it is, with one terminal step less. */
  lemma LateReportMiscounts(w: World, id: string)
    requires Sound(w) && Enabled(w, Report(id)) && IsTerminal(StatusOf(w.exec.stepStatus, id))
    ensures var x, x' := w.exec, Next(w, Report(id)).exec;
      && x'.completed == x.completed && x'.status == x.status
      && |TerminalSteps(x'.stepStatus)| == |TerminalSteps(x.stepStatus)| - 1 < x'.completed
  {
    OtherEffect(w, Report(id));
    TerminalAfter(w.exec.stepStatus, id, Running);
    TerminalHaveEnded(w.phase, w.exec.stepStatus);
    SubsetCount(TerminalSteps(w.exec.stepStatus), EndedSteps(w.phase));
  }

  /** In every run: a step that has ended and reads running again changes by its Continue and by nothing else. */
  lemma RunningStaysExactlyWhen(w: World, a: Action, id: string)
    requires Sound(w) && Enabled(w, a) && id in w.phase && w.phase[id] == Ended && StatusOf(w.exec.stepStatus, id) == Running
    ensures StatusOf(Next(w, a).exec.stepStatus, id) == Running <==> a != Continue(id)
    ensures a == Continue(id) ==> id in w.continuing && StatusOf(Next(w, a).exec.stepStatus, id) == Failed
    ensures id in Next(w, a).phase && Next(w, a).phase[id] == Ended
    ensures id !in w.continuing ==> id !in Next(w, a).continuing
  {
    ActionEffect(w, a);
    EnabledIsAllowed(w, a);
    RunningIsKept(w.phase, w.exec.stepStatus, w.continuing, a, id);
  }

  lemma RunningIsKept(phase: map<string, Phase>, statuses: map<string, Status>, continuing: set<string>, a: Action, id: string)
    requires AllFit(phase, statuses) && PhaseAllows(phase, continuing, a)
    requires id in phase && phase[id] == Ended && StatusOf(statuses, id) == Running
    ensures StatusOf(StatusesAfter(statuses, a), id) == Running <==> a != Continue(id)
    ensures a == Continue(id) ==> id in continuing && StatusOf(StatusesAfter(statuses, a), id) == Failed
    ensures id in PhasesAfter(phase, a) && PhasesAfter(phase, a)[id] == Ended
    ensures id !in continuing ==> id !in ContinuingAfter(continuing, a)
  {
  }

  /** So it reads running for good if it has nothing to continue: if it has not failed tolerably, or has said so. */
  lemma {:induction false} ReadsRunningForGood(w: World, actions: seq<Action>, id: string)
    requires Sound(w) && Legal(RUN, w, actions)
    requires id in w.phase && w.phase[id] == Ended && StatusOf(w.exec.stepStatus, id) == Running && id !in w.continuing
    ensures var v := After(RUN, w, actions);
      id in v.phase && v.phase[id] == Ended && StatusOf(v.exec.stepStatus, id) == Running && id !in v.continuing
  {
    if actions != [] {
      var init := actions[..|actions| - 1];
      ReadsRunningForGood(w, init, id);
      StaysSound(w, init);
      RunningStaysExactlyWhen(After(RUN, w, init), actions[|actions| - 1], id);
    }
  }

  /** That can happen: a run of one step that is healthy and complete before the report. */
  lemma LateReportHappens(hasBackend: bool) returns (w: World)
    ensures Reaches(RUN, Init([Step("a", [], [], false)], [], hasBackend), w)
    ensures Sound(w) && w.exec.status == RunHealthy
    ensures Enabled(w, Report("a")) && IsTerminal(StatusOf(w.exec.stepStatus, "a"))
  {
    var step := Step("a", [], [], false);
    SingleStep(step);
    var w0 := Init([step], [], hasBackend);
    InitIsGood([step], [], hasBackend);
    ReachesItself(RUN, w0);
    w := SingleRun(w0, w0, step);
  }

  // One step, without dependencies or triggers, in a run that has not failed.
  ghost predicate Single(w: World, step: Step, phase: Phase) {
    Sound(w) && Shape(w.phase, w.hard || w.bootFailed, w.exec.topology, step, phase)
  }

  ghost predicate Shape(phases: map<string, Phase>, failed: bool, topology: seq<Step>, step: Step, phase: Phase) {
    && phases == map[step.id := phase] && !failed
    && topology == [step] && StepByID([step], step.id) == Some(step)
    && step.dependsOn == [] && step.onFailure == []
  }

  lemma ShapeMoves(phases: map<string, Phase>, topology: seq<Step>, step: Step, phase: Phase, a: Action)
    requires Shape(phases, false, topology, step, phase) && (a.CheckPass? || a.Start?) && a.id == step.id
    ensures Shape(PhasesAfter(phases, a), false, topology, step, if a.Start? then Started else Passed)
  {
    assert PhasesAfter(phases, a) == map[step.id := if a.Start? then Started else Passed];
  }

  lemma SingleRun(w0: World, w1: World, step: Step) returns (w: World)
    requires Reaches(RUN, w0, w1) && Single(w1, step, Queued) && !w1.enqueued
    ensures Reaches(RUN, w0, w) && Sound(w) && w.exec.status == RunHealthy
    ensures Enabled(w, Report(step.id)) && IsTerminal(StatusOf(w.exec.stepStatus, step.id))
  {
    Enqueued(w1, step);
    w := Then(RUN, w0, w1, Enqueue);
    HasPassed(w, step);
    w := Then(RUN, w0, w, CheckPass(step.id));
    HasStarted(w, step);
    w := Then(RUN, w0, w, Start(step.id));
    EndsHealthy(w, step.id);
    w := Then(RUN, w0, w, End(step.id, Healthy, "", false));
  }

  lemma Enqueued(w: World, step: Step)
    requires Single(w, step, Queued) && Enabled(w, Enqueue)
    ensures Single(Next(w, Enqueue), step, Queued) && Enabled(Next(w, Enqueue), CheckPass(step.id))
  {
    SoundKept(w, Enqueue);
    ActionEffect(w, Enqueue);
  }

  lemma HasPassed(w: World, step: Step)
    requires Single(w, step, Queued) && Enabled(w, CheckPass(step.id))
    ensures var w' := Next(w, CheckPass(step.id)); Single(w', step, Passed) && step.id in w'.passed
  {
    SingleMoves(w, CheckPass(step.id), step);
  }

  lemma HasStarted(w: World, step: Step)
    requires Single(w, step, Passed) && Enabled(w, Start(step.id))
    ensures Single(Next(w, Start(step.id)), step, Started)
  {
    SingleMoves(w, Start(step.id), step);
  }

  lemma SingleMoves(w: World, a: Action, step: Step)
    requires Single(w, step, PhaseOf(w, step.id)) && Enabled(w, a) && (a.CheckPass? || a.Start?) && a.id == step.id
    ensures Single(Next(w, a), step, if a.Start? then Started else Passed)
  {
    SoundKept(w, a);
    ShapeMoves(w.phase, w.exec.topology, step, PhaseOf(w, step.id), a);
  }

  // The last step of a run that has not failed makes it healthy.
  lemma EndsHealthy(w: World, id: string)
    requires Sound(w) && id in w.passed && w.phase == map[id := Started] && !w.hard && !w.bootFailed
    ensures Enabled(w, End(id, Healthy, "", false))
    ensures var w' := Next(w, End(id, Healthy, "", false));
      Sound(w') && w'.exec.status == RunHealthy && Enabled(w', Report(id)) && IsTerminal(StatusOf(w'.exec.stepStatus, id))
  {
    var a := End(id, Healthy, "", false);
    SoundKept(w, a);
    MarkingEffect(w, a);
    OneStepLeft(w, id);
    FinishedHealthy(w.exec, id);
  }

  lemma OneStepLeft(w: World, id: string)
    requires Sound(w) && w.phase == map[id := Started] && !w.hard && !w.bootFailed
    ensures w.exec.completed == 0 && w.exec.total == 1 && w.exec.status != RunFailed
  {
    assert EndedSteps(w.phase) == {} && StepIds(w.exec.topology) == {id};
  }

  lemma FinishedHealthy(x: Exec, id: string)
    requires x.completed + 1 >= x.total && x.status != RunFailed
    ensures var y := Finished(x, id, Healthy, "", false); y.status == RunHealthy && StatusOf(y.stepStatus, id) == Healthy
  {
  }

  lemma SingleStep(step: Step)
    requires step == Step("a", [], [], false)
    ensures StepIds([step]) == {"a"} && StepByID([step], "a") == Some(step) && Resolved([step])
  {
    assert step in [step];
    TrimmedIsFixed("a");
  }
}
