/** The live statuses against the event log, over every sequence of state changes. */
module Replays {
  import opened Text
  import opened FailurePath
  import opened Execution

  datatype Op =
    | Append(event: Event)
    | Mark(id: string, status: Status, message: string, hard: bool)
    | BootFails
    | Release

  function Do(x: Exec, op: Op): Exec {
    match op
    case Append(e) => Appended(x, e)
    case Mark(id, status, message, hard) => Marked(x, id, status, message, hard)
    case BootFails => BootFailed(x)
    case Release => Released(x)
  }

  function Run(x: Exec, ops: seq<Op>): Exec {
    if ops == [] then x else Do(Run(x, ops[..|ops| - 1]), ops[|ops| - 1])
  }

  // Steps are marked by their own task only, with one of the three terminal statuses.
  predicate Allowed(topology: seq<Step>, op: Op) {
    op.Mark? ==> op.id in StepIds(topology) && IsTerminal(op.status)
  }

  ghost predicate CleanIds(topology: seq<Step>) {
    forall id :: id in StepIds(topology) ==> id != "" && TrimSpace(id) == id
  }

  // What happens before the topology is resolved is only ever a note.
  ghost predicate OnlyNotes(events: seq<Event>) {
    forall e :: e in events ==> e.status == Unset
  }

  ghost predicate Live(x: Exec) {
    x.stepStatus == Replay(x.topology, x.events)
  }

  ghost predicate Counted(x: Exec) {
    x.completed == |TerminalSteps(x.stepStatus)|
  }

  lemma {:induction false} NotesReplayToPending(topology: seq<Step>, events: seq<Event>)
    requires OnlyNotes(events)
    ensures Replay(topology, events) == AllPending(topology)
  {
    if events != [] {
      NotesReplayToPending(topology, events[..|events| - 1]);
      assert events[|events| - 1] in events;
    }
  }

  lemma DoKeepsLive(x: Exec, op: Op)
    requires Live(x) && CleanIds(x.topology) && Allowed(x.topology, op)
    ensures Live(Do(x, op)) && Do(x, op).topology == x.topology
  {
    match op
    case Append(e) => ReplayAppend(x.topology, x.events, e);
    case Mark(id, status, _, _) => ReplayAppend(x.topology, x.events, Event(id, status));
    case BootFails => ReplayAppend(x.topology, x.events, Event("boot", Failed));
    case Release =>
  }

  /** In every reachable state the live statuses are those buildStepStatus computes from the log. */
  lemma {:induction false} LiveEqualsReplay(topology: seq<Step>, events: seq<Event>, hasBackend: bool, ops: seq<Op>)
    requires CleanIds(topology) && OnlyNotes(events)
    requires forall op :: op in ops ==> Allowed(topology, op)
    ensures var x := Run(Booted(topology, events, hasBackend), ops);
      Live(x) && x.topology == topology && x.total == |topology|
  {
    if ops == [] {
      NotesReplayToPending(topology, events);
    } else {
      LiveEqualsReplay(topology, events, hasBackend, ops[..|ops| - 1]);
      DoKeepsLive(Run(Booted(topology, events, hasBackend), ops[..|ops| - 1]), ops[|ops| - 1]);
    }
  }

  /***** The completed counter *****/

  // The event leaves the step it names as terminal, or as unfinished, as it was.
  predicate KeepsTerminality(x: Exec, e: Event) {
    var source := TrimSpace(e.source);
    source != "" && source in x.stepStatus && IsKnown(e.status) ==>
      IsTerminal(e.status) == IsTerminal(x.stepStatus[source])
  }

  /** Without statuses in memory, they and the counter are taken from the log; otherwise both stay. */
  lemma EnsuredMeans(x: Exec)
    ensures x.stepStatus == map[] ==> Live(Ensured(x)) && Counted(Ensured(x))
    ensures x.stepStatus != map[] ==> Ensured(x) == x
    ensures Ensured(x).(stepStatus := x.stepStatus, completed := x.completed) == x
  {
  }

  lemma EnsuredIsIdle(x: Exec)
    requires Live(x) && Counted(x)
    ensures Ensured(x) == x
  {
  }

  lemma TerminalAfter(statuses: map<string, Status>, id: string, status: Status)
    requires id in statuses
    ensures |TerminalSteps(statuses[id := status])| == |TerminalSteps(statuses)|
      + (if IsTerminal(status) then 1 else 0) - (if IsTerminal(statuses[id]) then 1 else 0)
  {
    var rest := TerminalSteps(statuses) - {id};
    assert TerminalSteps(statuses) == if IsTerminal(statuses[id]) then rest + {id} else rest;
    assert TerminalSteps(statuses[id := status]) == if IsTerminal(status) then rest + {id} else rest;
  }

  /** Exactly the events that keep a step's terminality keep the counter right. */
  lemma AppendKeepsCount(x: Exec, e: Event)
    requires Live(x) && Counted(x)
    ensures Counted(Appended(x, e)) <==> KeepsTerminality(x, e)
  {
    EnsuredIsIdle(x);
    var source := TrimSpace(e.source);
    if source in x.stepStatus {
      TerminalAfter(x.stepStatus, source, e.status);
    }
  }

  lemma MarkKeepsCount(x: Exec, id: string, status: Status, message: string, hard: bool)
    requires Live(x) && Counted(x) && id in x.stepStatus && IsTerminal(status)
    ensures Counted(Marked(x, id, status, message, hard))
  {
    EnsuredIsIdle(x);
    TerminalAfter(x.stepStatus, id, status);
  }

  ghost predicate Steady(x: Exec, op: Op) {
    match op
    case Append(e) => KeepsTerminality(x, e)
    case BootFails => KeepsTerminality(x, Event("boot", Failed))
    case _ => true
  }

  ghost predicate SteadyRun(x: Exec, ops: seq<Op>) {
    forall n :: 0 <= n < |ops| ==> Steady(Run(x, ops[..n]), ops[n])
  }

  lemma DoKeepsCount(x: Exec, op: Op)
    requires Live(x) && Counted(x) && Allowed(x.topology, op) && Steady(x, op)
    ensures Counted(Do(x, op))
  {
    match op
    case Append(e) => AppendKeepsCount(x, e);
    case Mark(id, status, message, hard) => MarkKeepsCount(x, id, status, message, hard);
    case BootFails => AppendKeepsCount(x.(status := RunFailed), Event("boot", Failed));
    case Release =>
  }

  /** Over a run of such events, completed is the number of terminal steps. */
  lemma {:induction false} CountIsExact(topology: seq<Step>, events: seq<Event>, hasBackend: bool, ops: seq<Op>)
    requires CleanIds(topology) && OnlyNotes(events)
    requires forall op :: op in ops ==> Allowed(topology, op)
    requires SteadyRun(Booted(topology, events, hasBackend), ops)
    ensures Counted(Run(Booted(topology, events, hasBackend), ops))
  {
    var x0 := Booted(topology, events, hasBackend);
    if ops == [] {
      assert TerminalSteps(x0.stepStatus) == {};
    } else {
      var n := |ops| - 1;
      forall k | 0 <= k < n
        ensures Steady(Run(x0, ops[..n][..k]), ops[..n][k])
      {
        assert ops[..n][..k] == ops[..k];
        assert Steady(Run(x0, ops[..k]), ops[k]);
      }
      CountIsExact(topology, events, hasBackend, ops[..n]);
      LiveEqualsReplay(topology, events, hasBackend, ops[..n]);
      assert Steady(Run(x0, ops[..n]), ops[n]);
      DoKeepsCount(Run(x0, ops[..n]), ops[n]);
    }
  }

  /** A step named boot takes the boot failure for its own, and is never counted. */
  lemma BootStepIsMiscounted()
    ensures var x := BootFailed(Booted([Step("boot", [], [], false)], [], true));
      x.stepStatus["boot"] == Failed && x.completed == 0
  {
    var step := Step("boot", [], [], false);
    assert step in [step] && "boot" in StepIds([step]);
    assert TrimSpace("boot") == "boot" by { TrimmedIsFixed("boot"); }
  }
}
