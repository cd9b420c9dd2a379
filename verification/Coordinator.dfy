/** The assignment coordinator of the control plane (agent/coordinator.go, agent/runtime_cache.go). */
module Coordinator {
  import opened Text

  datatype Request = Request(jobID: string, executionID: string, nodeID: string, backendID: string, leaseTTL: int)

  datatype Status = Pending | Running | Succeeded | Failed | Canceled

  datatype Outcome = NoOutcome | WasCanceled | LeaseExpired(agent: string) | StepError(message: string)

  // doneCloses counts the calls of close(entry.done); a second one would panic. The zero time is None.
  datatype Entry = Entry(request: Request, status: Status, claimedBy: string, cancelRequested: bool,
                         leaseDeadline: Option<int>, err: Outcome, doneCloses: nat, completed: bool)

  type Assignments = map<string, Entry>

  datatype Error = NotFound | Claimed | Closed | Exists

  datatype Result<T> = Ok(value: T) | Err(error: Error)

  datatype LeaseResponse = LeaseResponse(status: Status, cancelRequested: bool)

  const DEFAULT_TTL := 8_000_000_000  // nanoseconds

  function FirstNonEmpty(values: seq<string>): string {
    if values == [] then ""
    else if !Blank(values[0]) then values[0]
    else FirstNonEmpty(values[1..])
  }

  // The request as Submit completes it.
  function Prepared(r: Request, uuid: string): Request {
    r.(jobID := FirstNonEmpty([TrimSpace(r.jobID), r.executionID + ":" + r.nodeID, uuid]),
       leaseTTL := if r.leaseTTL <= 0 then DEFAULT_TTL else r.leaseTTL)
  }

  /** The job is filed under the id given, or else under its execution and node; the third choice is never needed. */
  lemma PreparedMeans(r: Request, uuid: string)
    ensures Prepared(r, uuid) == r.(
      jobID := if Blank(r.jobID) then r.executionID + ":" + r.nodeID else TrimSpace(r.jobID),
      leaseTTL := if r.leaseTTL > 0 then r.leaseTTL else 8_000_000_000)
  {
    var second := r.executionID + ":" + r.nodeID;
    var values := [TrimSpace(r.jobID), second, uuid];
    TrimTwice(r.jobID);
    VisibleIsNotBlank(second, |r.executionID|);
    assert values[1..] == [second, uuid];
    assert FirstNonEmpty([second, uuid]) == second;
  }

  predicate Terminal(status: Status) {
    status in {Succeeded, Failed, Canceled}
  }

  /***** What the operations do to one entry *****/

  function NewEntry(r: Request): Entry {
    Entry(r, Pending, "", false, None, NoOutcome, 0, false)
  }

  predicate Claimable(e: Entry, agent: string) {
    e.status == Pending && TrimSpace(e.request.backendID) == TrimSpace(agent)
  }

  function ClaimedEntry(e: Entry, agent: string, now: int): Entry {
    e.(status := Running, claimedBy := agent, leaseDeadline := Some(now + e.request.leaseTTL))
  }

  function ExtendedEntry(e: Entry, agent: string, now: int): Entry {
    if e.status == Running && e.claimedBy == agent then e.(leaseDeadline := Some(now + e.request.leaseTTL)) else e
  }

  function CompletedEntry(e: Entry, agent: string, error: string): Entry {
    if e.claimedBy != agent || e.completed then e else
      var closed := e.(completed := true, leaseDeadline := None, doneCloses := e.doneCloses + 1);
      if e.cancelRequested then closed.(status := Canceled, err := WasCanceled)
      else if !Blank(error) then closed.(status := Failed, err := StepError(error))
      else closed.(status := Succeeded, err := NoOutcome)
  }

  function CanceledEntry(e: Entry): Entry {
    if e.completed then e
    else if e.status == Pending then
      e.(completed := true, status := Canceled, err := WasCanceled, doneCloses := e.doneCloses + 1)
    else e.(cancelRequested := true)
  }

  function ExpiredEntry(e: Entry, now: int): Entry {
    if e.completed || e.status != Running then e
    else if e.leaseDeadline.None? || now < e.leaseDeadline.value then e
    else e.(completed := true, status := Failed, err := LeaseExpired(e.claimedBy), doneCloses := e.doneCloses + 1)
  }

  /***** The operations *****/

  // Claim carries the job that the map iteration happens to reach first.
  datatype Op =
    | Submit(request: Request, uuid: string)
    | Cleanup(job: string)
    | Claim(agent: string, job: string, now: int)
    | Extend(job: string, agent: string, now: int)
    | Complete(job: string, agent: string, error: string)
    | Cancel(job: string)
    | Expire(now: int)

  function EntryAfter(e: Entry, job: string, op: Op): Entry {
    match op
    case Claim(agent, j, now) => if j == job then ClaimedEntry(e, agent, now) else e
    case Extend(j, agent, now) => if j == job then ExtendedEntry(e, agent, now) else e
    case Complete(j, agent, error) => if j == job then CompletedEntry(e, agent, error) else e
    case Cancel(j) => if j == job then CanceledEntry(e) else e
    case Expire(now) => ExpiredEntry(e, now)
    case _ => e
  }

  function Do(m: Assignments, op: Op): Assignments {
    match op
    case Submit(request, uuid) =>
      var p := Prepared(request, uuid);
      if p.jobID in m then m else m[p.jobID := NewEntry(p)]
    case Cleanup(job) => m - {job}
    case _ => map job | job in m :: EntryAfter(m[job], job, op)
  }

  /***** Snapshots *****/

  // AssignmentSnapshot; only the request is read back.
  datatype Snapshot = Snapshot(request: Request, status: Status, claimedBy: string, cancelRequested: bool)

  function SnapshotOf(e: Entry): Snapshot {
    Snapshot(e.request, e.status, e.claimedBy, e.cancelRequested)
  }

  // The last snapshot of a job wins, as in the loop of restoreAssignments.
  function RestoredFrom(m: Assignments, snapshots: seq<Snapshot>): Assignments {
    if snapshots == [] then m else
      var before, r := RestoredFrom(m, snapshots[..|snapshots| - 1]), snapshots[|snapshots| - 1].request;
      if r.jobID == "" then before else before[r.jobID := NewEntry(r)]
  }

  class Coordinator {
    var assignments: Assignments

    constructor ()
      ensures assignments == map[]
    {
      assignments := map[];
    }

    method Submit(request: Request, uuid: string) returns (r: Result<Request>)
      modifies this
      ensures assignments == Do(old(assignments), Op.Submit(request, uuid))
      ensures var p := Prepared(request, uuid); r == if p.jobID in old(assignments) then Err(Exists) else Ok(p)
      ensures r.Ok? ==>
        && r.value.jobID == (if Blank(request.jobID) then request.executionID + ":" + request.nodeID else TrimSpace(request.jobID))
        && r.value.leaseTTL == (if request.leaseTTL > 0 then request.leaseTTL else 8_000_000_000)
        && assignments == old(assignments)[r.value.jobID := Entry(r.value, Pending, "", false, None, NoOutcome, 0, false)]
    {
      PreparedMeans(request, uuid);
      var p := request.(jobID := FirstNonEmpty([TrimSpace(request.jobID), request.executionID + ":" + request.nodeID, uuid]));
      if p.leaseTTL <= 0 {
        p := p.(leaseTTL := DEFAULT_TTL);
      }
      if p.jobID in assignments {
        return Err(Exists);
      }
      assignments := assignments[p.jobID := NewEntry(p)];
      return Ok(p);
    }

    method Cleanup(job: string)
      modifies this
      ensures assignments == Do(old(assignments), Op.Cleanup(job))
      ensures job !in assignments && forall j :: j != job ==>
        (j in assignments <==> j in old(assignments)) && (j in assignments ==> assignments[j] == old(assignments)[j])
    {
      assignments := assignments - {job};
    }

    /** Claim takes any pending job of the agent, in the map's iteration order. */
    method Claim(agent: string, now: int) returns (job: Option<string>)
      modifies this
      ensures job.None? ==> assignments == old(assignments)
      ensures job.None? ==> forall j :: j in assignments && assignments[j].status == Pending ==>
        TrimSpace(assignments[j].request.backendID) != TrimSpace(agent)
      ensures job.Some? ==> job.value in old(assignments) && old(assignments)[job.value].status == Pending
      ensures job.Some? ==> TrimSpace(old(assignments)[job.value].request.backendID) == TrimSpace(agent)
      ensures job.Some? ==> assignments == Do(old(assignments), Op.Claim(agent, job.value, now))
    {
      var todo := assignments.Keys;
      while todo != {}
        invariant todo <= assignments.Keys && assignments == old(assignments)
        invariant forall j :: j in assignments && j !in todo ==> !Claimable(assignments[j], agent)
        decreases |todo|
      {
        var j :| j in todo;
        todo := todo - {j};
        var entry := assignments[j];
        if entry.status != Pending {
          continue;
        }
        if TrimSpace(entry.request.backendID) != TrimSpace(agent) {
          continue;
        }
        assignments := assignments[j := entry.(
          status := Running, claimedBy := agent, leaseDeadline := Some(now + entry.request.leaseTTL))];
        return Some(j);
      }
      return None;
    }

    method Extend(job: string, agent: string, now: int) returns (r: Result<LeaseResponse>)
      modifies this
      ensures assignments == Do(old(assignments), Op.Extend(job, agent, now))
      ensures job !in old(assignments) ==> r == Err(NotFound)
      ensures job in old(assignments) ==> var e := old(assignments)[job];
        r == if e.status == Running && e.claimedBy != agent then Err(Claimed) else Ok(LeaseResponse(e.status, e.cancelRequested))
    {
      if job !in assignments {
        return Err(NotFound);
      }
      var entry := assignments[job];
      if entry.status != Running {
        return Ok(LeaseResponse(entry.status, entry.cancelRequested));
      }
      if entry.claimedBy != agent {
        return Err(Claimed);
      }
      assignments := assignments[job := entry.(leaseDeadline := Some(now + entry.request.leaseTTL))];
      return Ok(LeaseResponse(entry.status, entry.cancelRequested));
    }

    method Complete(job: string, agent: string, error: string) returns (r: Result<()>)
      modifies this
      ensures assignments == Do(old(assignments), Op.Complete(job, agent, error))
      ensures r == if job !in old(assignments) then Err(NotFound)
                   else if old(assignments)[job].claimedBy != agent then Err(Claimed) else Ok(())
    {
      if job !in assignments {
        return Err(NotFound);
      }
      var entry := assignments[job];
      if entry.claimedBy != agent {
        return Err(Claimed);
      }
      if entry.completed {
        return Ok(());
      }
      entry := entry.(completed := true, leaseDeadline := None);
      if entry.cancelRequested {
        entry := entry.(status := Canceled, err := WasCanceled);
      } else if !Blank(error) {
        entry := entry.(status := Failed, err := StepError(error));
      } else {
        entry := entry.(status := Succeeded, err := NoOutcome);
      }
      assignments := assignments[job := entry.(doneCloses := entry.doneCloses + 1)];
      return Ok(());
    }

    method Cancel(job: string) returns (canceled: bool)
      modifies this
      ensures assignments == Do(old(assignments), Op.Cancel(job))
      ensures canceled <==> job in old(assignments) && !old(assignments)[job].completed
    {
      if job !in assignments || assignments[job].completed {
        return false;
      }
      var entry := assignments[job];
      if entry.status == Pending {
        assignments := assignments[job := entry.(
          completed := true, status := Canceled, err := WasCanceled, doneCloses := entry.doneCloses + 1)];
        return true;
      }
      assignments := assignments[job := entry.(cancelRequested := true)];
      return true;
    }

    /** assignmentRequest: who may report on a job. */
    method AssignmentRequest(job: string, agent: string) returns (r: Result<Request>)
      ensures r.Ok? <==> job in assignments && assignments[job].claimedBy == agent && !assignments[job].completed
      ensures r.Ok? ==> r.value == assignments[job].request
      ensures r == Err(NotFound) <==> job !in assignments
      ensures r == Err(Claimed) <==> job in assignments && assignments[job].claimedBy != agent
    {
      if job !in assignments {
        return Err(NotFound);
      }
      var entry := assignments[job];
      if entry.claimedBy != agent {
        return Err(Claimed);
      }
      if entry.completed {
        return Err(Closed);
      }
      return Ok(entry.request);
    }

    /** One tick of expiryLoop. */
    method Expire(now: int)
      modifies this
      ensures assignments == Do(old(assignments), Op.Expire(now))
    {
      var todo := assignments.Keys;
      while todo != {}
        invariant assignments.Keys == old(assignments).Keys && todo <= assignments.Keys
        invariant forall j :: j in assignments && j in todo ==> assignments[j] == old(assignments)[j]
        invariant forall j :: j in assignments && j !in todo ==> assignments[j] == ExpiredEntry(old(assignments)[j], now)
        decreases |todo|
      {
        var j :| j in todo;
        todo := todo - {j};
        var entry := assignments[j];
        if entry.completed || entry.status != Running {
          continue;
        }
        if entry.leaseDeadline.None? || now < entry.leaseDeadline.value {
          continue;
        }
        assignments := assignments[j := entry.(completed := true, status := Failed,
          err := LeaseExpired(entry.claimedBy), doneCloses := entry.doneCloses + 1)];
      }
    }

    /** persistAssignments: the jobs that are not completed, each once, in the map's iteration order. */
    method Persist() returns (snapshots: seq<Snapshot>)
      requires KeysMatch(assignments)
      ensures SnapshotsOf(assignments, assignments.Keys, snapshots)
    {
      snapshots := [];
      var todo := assignments.Keys;
      while todo != {}
        invariant todo <= assignments.Keys
        invariant SnapshotsOf(assignments, assignments.Keys - todo, snapshots)
        decreases |todo|
      {
        var j :| j in todo;
        todo := todo - {j};
        var entry := assignments[j];
        if entry.completed {
          continue;
        }
        snapshots := snapshots + [SnapshotOf(entry)];
      }
    }

    method Restore(snapshots: seq<Snapshot>)
      modifies this
      ensures assignments == RestoredFrom(old(assignments), snapshots)
    {
      for i := 0 to |snapshots|
        invariant assignments == RestoredFrom(old(assignments), snapshots[..i])
      {
        assert snapshots[..i + 1][..i] == snapshots[..i];
        var request := snapshots[i].request;
        if request.jobID == "" {
          continue;
        }
        assignments := assignments[request.jobID := NewEntry(request)];
      }
      assert snapshots[..|snapshots|] == snapshots;
    }
  }

  // Jobs are filed under their own ids.
  ghost predicate KeysMatch(m: Assignments) {
    forall job :: job in m ==> m[job].request.jobID == job
  }

  // The snapshots are those of the uncompleted jobs among the given ones, each once.
  ghost predicate SnapshotsOf(m: Assignments, jobs: set<string>, snapshots: seq<Snapshot>) {
    && (forall s :: s in snapshots ==> s.request.jobID in jobs && s.request.jobID in m)
    && (forall s :: s in snapshots && s.request.jobID in m ==>
         !m[s.request.jobID].completed && s == SnapshotOf(m[s.request.jobID]))
    && (forall j :: j in jobs && j in m && !m[j].completed ==> SnapshotOf(m[j]) in snapshots)
    && (forall i, k :: 0 <= i < k < |snapshots| ==> snapshots[i].request.jobID != snapshots[k].request.jobID)
  }

  // What Wait returns once the entry's done channel is closed; nil if the job was cleaned up meanwhile.
  function WaitResult(m: Assignments, job: string): Outcome {
    if job in m then m[job].err else NoOutcome
  }
}
