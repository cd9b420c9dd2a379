/** The live state of one execution and its event log (execution/flow.go, runtime.go). */
module Execution {
  import opened Text
  import opened FailurePath

  datatype Event = Event(source: string, status: Status)

  datatype RunStatus = Booting | RunHealthy | RunFailed

  // executionState. cancelCalls counts the calls to queue.CancelRunningGroup, destroyCalls those to the
  // backend's DestroyExecution.
  datatype Exec = Exec(
    topology: seq<Step>, events: seq<Event>, stepStatus: map<string, Status>,
    completed: int, total: int, status: RunStatus, terminalErr: Option<string>, cancelCalls: int,
    hasBackend: bool, released: bool, destroyCalls: int)

  predicate IsKnown(status: Status) {
    status != Unset
  }

  predicate IsTerminal(status: Status) {
    status in {Healthy, Failed, Skipped}
  }

  /***** The log, replayed *****/

  function AllPending(topology: seq<Step>): map<string, Status> {
    map id | id in StepIds(topology) :: Pending
  }

  function Applied(statuses: map<string, Status>, e: Event): map<string, Status> {
    var source := TrimSpace(e.source);
    if source != "" && source in statuses && IsKnown(e.status) then statuses[source := e.status] else statuses
  }

  function Replay(topology: seq<Step>, events: seq<Event>): (r: map<string, Status>)
    ensures r.Keys == StepIds(topology)
  {
    if events == [] then AllPending(topology)
    else Applied(Replay(topology, events[..|events| - 1]), events[|events| - 1])
  }

  lemma ReplayAppend(topology: seq<Step>, events: seq<Event>, e: Event)
    ensures Replay(topology, events + [e]) == Applied(Replay(topology, events), e)
  {
    assert (events + [e])[..|events|] == events;
  }

  // The event says something about that step.
  predicate Speaks(e: Event, id: string) {
    TrimSpace(e.source) == id && e.status != Unset
  }

  // What the last event that does says.
  function LastWord(events: seq<Event>, id: string): Option<Status> {
    if events == [] then None
    else if Speaks(events[|events| - 1], id) then Some(events[|events| - 1].status)
    else LastWord(events[..|events| - 1], id)
  }

  /** A step has the status of the last event that says something about it, and is pending without one. */
  lemma {:induction false} ReplayIsTheLastWord(topology: seq<Step>, events: seq<Event>, id: string)
    requires id in StepIds(topology) && id != ""
    ensures Replay(topology, events)[id] ==
      if LastWord(events, id).None? then Pending else LastWord(events, id).value
  {
    if events != [] {
      ReplayIsTheLastWord(topology, events[..|events| - 1], id);
    }
  }

  function TerminalSteps(statuses: map<string, Status>): set<string> {
    set id | id in statuses && IsTerminal(statuses[id])
  }

  /** buildStepStatus: the statuses a log leaves behind, and how many of them are terminal. */
  method BuildStepStatus(topology: seq<Step>, events: seq<Event>) returns (statuses: map<string, Status>, completed: int)
    ensures statuses == Replay(topology, events)
    ensures completed == |TerminalSteps(statuses)|
  {
    statuses := map[];
    for i := 0 to |topology|
      invariant statuses == AllPending(topology[..i])
    {
      PendingNext(topology, i);
      statuses := statuses[topology[i].id := Pending];
    }
    assert topology[..|topology|] == topology;
    statuses := ApplyEvents(topology, events, statuses);
    completed := CountTerminal(statuses);
  }

  lemma PendingNext(topology: seq<Step>, i: nat)
    requires i < |topology|
    ensures AllPending(topology[..i + 1]) == AllPending(topology[..i])[topology[i].id := Pending]
  {
    assert topology[..i + 1] == topology[..i] + [topology[i]];
    assert StepIds(topology[..i + 1]) == StepIds(topology[..i]) + {topology[i].id};
  }

  method ApplyEvents(ghost topology: seq<Step>, events: seq<Event>, pending: map<string, Status>)
    returns (statuses: map<string, Status>)
    requires pending == AllPending(topology)
    ensures statuses == Replay(topology, events)
  {
    statuses := pending;
    for i := 0 to |events|
      invariant statuses == Replay(topology, events[..i])
    {
      assert events[..i + 1][..i] == events[..i];
      var source := TrimSpace(events[i].source);
      if source == "" || source !in statuses || !IsKnown(events[i].status) {
        continue;
      }
      statuses := statuses[source := events[i].status];
    }
    assert events[..|events|] == events;
  }

  method CountTerminal(statuses: map<string, Status>) returns (completed: int)
    ensures completed == |TerminalSteps(statuses)|
  {
    completed := 0;
    var todo := statuses.Keys;
    while todo != {}
      invariant todo <= statuses.Keys && completed == |TerminalSteps(statuses) - todo|
      decreases |todo|
    {
      var id :| id in todo;
      ghost var rest := TerminalSteps(statuses) - todo;
      assert TerminalSteps(statuses) - (todo - {id}) == if IsTerminal(statuses[id]) then rest + {id} else rest;
      todo := todo - {id};
      if IsTerminal(statuses[id]) {
        completed := completed + 1;
      }
    }
    assert TerminalSteps(statuses) - {} == TerminalSteps(statuses);
  }

  /***** What the operations do to the state *****/

  // bootExecution: every step of the resolved topology pending; earlier events are kept.
  function Booted(topology: seq<Step>, events: seq<Event>, hasBackend: bool): Exec {
    Exec(topology, events, AllPending(topology), 0, |topology|, Booting, None, 0, hasBackend, false, 0)
  }

  // ensureStepStatusLocked
  function Ensured(x: Exec): Exec {
    if x.stepStatus != map[] then x else
      var statuses := Replay(x.topology, x.events);
      x.(stepStatus := statuses, completed := |TerminalSteps(statuses)|)
  }

  // appendEvent
  function Appended(x: Exec, e: Event): Exec {
    var y := Ensured(x);
    y.(stepStatus := Applied(y.stepStatus, e), events := y.events + [e])
  }

  // markNodeTerminal
  function Marked(x: Exec, id: string, status: Status, message: string, hard: bool): Exec {
    var y := Ensured(x);
    if IsTerminal(StatusOf(y.stepStatus, id)) then y else Finished(y, id, status, message, hard)
  }

  // ... of a step that is not terminal yet.
  function Finished(y: Exec, id: string, status: Status, message: string, hard: bool): Exec {
    var completed := y.completed + 1;
    var first := hard && y.status != RunFailed;
    var failed := hard || y.status == RunFailed;
    var done := completed >= y.total && !failed;
    y.(stepStatus := y.stepStatus[id := status],
       completed := completed,
       events := y.events + [Event(id, status)],
       status := if failed then RunFailed else if done then RunHealthy else y.status,
       terminalErr := if done then None
                      else if hard && !Blank(message) && y.terminalErr.None? then Some(message)
                      else y.terminalErr,
       cancelCalls := y.cancelCalls + if first then 1 else 0)
  }

  // failBootedExecution, without the release that follows it.
  function BootFailed(x: Exec): Exec {
    Appended(x.(status := RunFailed), Event("boot", Failed))
  }

  // destroyExecutionBackend, which finishing an execution and closing the service both call.
  function Released(x: Exec): Exec {
    if x.released then x
    else x.(released := true, destroyCalls := x.destroyCalls + if x.hasBackend then 1 else 0)
  }

  class ExecutionState {
    var topology: seq<Step>
    var events: seq<Event>
    var stepStatus: map<string, Status>
    var completed: int
    var total: int
    var status: RunStatus
    var terminalErr: Option<string>
    var cancelCalls: int
    var hasBackend: bool
    var released: bool
    var destroyCalls: int

    function State(): Exec
      reads this
    {
      Exec(topology, events, stepStatus, completed, total, status, terminalErr, cancelCalls,
           hasBackend, released, destroyCalls)
    }

    constructor (topology: seq<Step>, events: seq<Event>, hasBackend: bool)
      ensures State() == Booted(topology, events, hasBackend)
    {
      this.hasBackend, released, destroyCalls := hasBackend, false, 0;
      this.topology, this.events, total := topology, events, |topology|;
      completed, status, terminalErr, cancelCalls := 0, Booting, None, 0;
      stepStatus := AllPending(topology);
    }

    method EnsureStepStatus()
      modifies this
      ensures State() == Ensured(old(State()))
    {
      if |stepStatus| > 0 {
        return;
      }
      stepStatus, completed := BuildStepStatus(topology, events);
    }

    method AppendEvent(e: Event)
      modifies this
      ensures State() == Appended(old(State()), e)
    {
      EnsureStepStatus();
      var source := TrimSpace(e.source);
      if source != "" && IsKnown(e.status) {
        if source in stepStatus {
          stepStatus := stepStatus[source := e.status];
        }
      }
      events := events + [e];
    }

    method MarkNodeTerminal(id: string, newStatus: Status, message: string, hardFailure: bool) returns (finished: bool)
      modifies this
      ensures State() == Marked(old(State()), id, newStatus, message, hardFailure)
      ensures var y := Ensured(old(State()));
        finished == (completed >= total && (IsTerminal(StatusOf(y.stepStatus, id)) ==> total > 0))
    {
      EnsureStepStatus();
      if IsTerminal(StatusOf(stepStatus, id)) {
        return completed >= total && total > 0;
      }
      finished := FinishStep(id, newStatus, message, hardFailure);
    }

    method FinishStep(id: string, newStatus: Status, message: string, hardFailure: bool) returns (finished: bool)
      modifies this
      ensures State() == Finished(old(State()), id, newStatus, message, hardFailure)
      ensures finished == (completed >= total)
    {
      var cancelRunning := false;
      finished := false;
      stepStatus := stepStatus[id := newStatus];
      completed := completed + 1;
      if hardFailure {
        if status != RunFailed {
          status := RunFailed;
          cancelRunning := true;
        }
        if !Blank(message) && terminalErr.None? {
          terminalErr := Some(message);
        }
      }
      if completed >= total {
        finished := true;
        if status != RunFailed {
          status := RunHealthy;
          terminalErr := None;
        }
      }
      events := events + [Event(id, newStatus)];
      if cancelRunning {
        cancelCalls := cancelCalls + 1;
      }
    }

    method FailBooted()
      modifies this
      ensures State() == BootFailed(old(State()))
    {
      status := RunFailed;
      AppendEvent(Event("boot", Failed));
    }

    method DestroyExecutionBackend()
      modifies this
      ensures State() == Released(old(State()))
    {
      var backend := false;
      if !released {
        backend := hasBackend;
        released := true;
      }
      if backend {
        destroyCalls := destroyCalls + 1;
      }
    }

    /** shouldSkipNode */
    method ShouldSkipNode(node: Step) returns (skip: bool)
      modifies this
      ensures State() == Ensured(old(State()))
      ensures skip <==> ShouldSkip(State(), node)
    {
      EnsureStepStatus();
      if |node.onFailure| > 0 {
        var triggered := false;
        for i := 0 to |node.onFailure|
          invariant triggered <==> exists j :: 0 <= j < i && StatusOf(stepStatus, node.onFailure[j]) == Failed
        {
          if StatusOf(stepStatus, node.onFailure[i]) == Failed {
            triggered := true;
            break;
          }
        }
        assert triggered <==> Triggered(node, stepStatus);
        if !triggered {
          return true;
        }
      }
      for i := 0 to |node.dependsOn|
        invariant forall j :: 0 <= j < i ==> !Blocks(State(), node, node.dependsOn[j])
      {
        var dependency := node.dependsOn[i];
        if StatusOf(stepStatus, dependency) == Skipped {
          assert Blocks(State(), node, dependency);
          return true;
        } else if StatusOf(stepStatus, dependency) == Failed {
          if dependency in node.onFailure {
            continue;
          }
          var step := StepByID(topology, dependency);
          if step.None? || !step.value.continueOnFailure {
            assert Blocks(State(), node, dependency);
            return true;
          }
        }
      }
      if status == RunFailed {
        var onPath := NodeBelongsToFailurePath(topology, stepStatus, node.id);
        return !onPath;
      }
      return false;
    }
  }

  /***** The skip decision *****/

  // A dependency that keeps the node from running.
  predicate Blocks(x: Exec, node: Step, d: string) {
    StatusOf(x.stepStatus, d) == Skipped ||
    (StatusOf(x.stepStatus, d) == Failed && !Tolerated(x.topology, node, d))
  }

  predicate Tolerated(topology: seq<Step>, node: Step, d: string) {
    d in node.onFailure || (StepByID(topology, d).Some? && StepByID(topology, d).value.continueOnFailure)
  }

  ghost predicate ShouldSkip(x: Exec, node: Step) {
    || (node.onFailure != [] && !Triggered(node, x.stepStatus))
    || (exists d :: d in node.dependsOn && Blocks(x, node, d))
    || (x.status == RunFailed && !OnFailurePath(x.topology, x.stepStatus, node.id))
  }
}
