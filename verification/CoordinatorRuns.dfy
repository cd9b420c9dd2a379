/** Whole runs of the coordinator: every method is one atomic step, and the steps interleave freely. */
module CoordinatorRuns {
  import opened Machines
  import opened Text
  import opened Coordinator

  // A claim takes a claimable job.
  predicate Enabled(m: Assignments, op: Op) {
    op.Claim? ==> op.job in m && Claimable(m[op.job], op.agent)
  }

  const COORDINATION := Machine(Enabled, Do)

  /***** What holds of every entry, for any agent ids *****/

  // Completed, terminal and done closed (once) are one and the same; a claimant is the agent the request names.
  ghost predicate EntryOk(e: Entry) {
    && (e.completed <==> Terminal(e.status))
    && e.doneCloses == (if e.completed then 1 else 0)
    && (e.claimedBy != "" ==> TrimSpace(e.claimedBy) == TrimSpace(e.request.backendID))
    && (e.status == Pending ==> e.claimedBy == "" && !e.cancelRequested && e.leaseDeadline.None?)
    && (e.status == Running ==> e.leaseDeadline.Some?)
    && OutcomeOk(e)
    && e.request.jobID != ""
  }

  // How a job ended is what Wait will return.
  predicate OutcomeOk(e: Entry) {
    match e.status
    case Pending => e.err == NoOutcome
    case Running => e.err == NoOutcome
    case Succeeded => e.err == NoOutcome
    case Canceled => e.err == WasCanceled
    case Failed => (e.err.StepError? && !Blank(e.err.message)) || e.err == LeaseExpired(e.claimedBy)
  }

  ghost predicate AllOk(m: Assignments) {
    KeysMatch(m) && forall job :: job in m ==> EntryOk(m[job])
  }

  lemma PreparedHasId(r: Request, uuid: string)
    ensures Prepared(r, uuid).jobID != ""
  {
    PreparedMeans(r, uuid);
    assert |r.executionID + ":" + r.nodeID| > 0;
  }

  lemma EntryAfterOk(e: Entry, job: string, op: Op)
    requires EntryOk(e) && (op.Claim? && op.job == job ==> Claimable(e, op.agent))
    ensures EntryOk(EntryAfter(e, job, op)) && EntryAfter(e, job, op).request == e.request
  {
  }

  lemma NewEntryOk(r: Request)
    requires r.jobID != ""
    ensures EntryOk(NewEntry(r))
  {
  }

  lemma DoKeepsOk(m: Assignments, op: Op)
    requires AllOk(m) && Enabled(m, op)
    ensures AllOk(Do(m, op))
  {
    match op {
      case Submit(request, uuid) =>
        PreparedHasId(request, uuid);
        NewEntryOk(Prepared(request, uuid));
      case Cleanup(_) =>
      case _ =>
        forall job | job in m
          ensures EntryOk(Do(m, op)[job]) && Do(m, op)[job].request == m[job].request
        {
          EntryAfterOk(m[job], job, op);
        }
    }
  }

  /** Every reachable coordinator state is consistent. */
  lemma {:induction false} ReachableIsOk(m: Assignments, ops: seq<Op>)
    requires AllOk(m) && Legal(COORDINATION, m, ops)
    ensures AllOk(After(COORDINATION, m, ops))
  {
    if ops != [] {
      var n := |ops| - 1;
      ReachableIsOk(m, ops[..n]);
      DoKeepsOk(After(COORDINATION, m, ops[..n]), ops[n]);
    }
  }

  predicate KeepsJob(ops: seq<Op>, job: string) {
    forall k :: 0 <= k < |ops| ==> ops[k] != Cleanup(job)
  }

  // The life of an entry only moves forward.
  function Rank(status: Status): nat {
    match status
    case Pending => 0
    case Running => 1
    case _ => 2
  }

  // How the entry of a job may change while the job is not cleaned up.
  ghost predicate Forward(e: Entry, e': Entry) {
    && Rank(e.status) <= Rank(e'.status) && e'.request == e.request
    && (Terminal(e.status) ==> e' == e)
    && (e.status != Pending ==> e'.claimedBy == e.claimedBy)
  }

  lemma OneStepForward(m: Assignments, op: Op, job: string)
    requires AllOk(m) && Enabled(m, op) && job in m && op != Cleanup(job)
    ensures job in Do(m, op) && Forward(m[job], Do(m, op)[job])
  {
    if !op.Submit? && !op.Cleanup? {
      EntryForward(m[job], job, op);
    }
  }

  lemma EntryForward(e: Entry, job: string, op: Op)
    requires EntryOk(e) && (op.Claim? && op.job == job ==> e.status == Pending)
    ensures Forward(e, EntryAfter(e, job, op))
  {
  }

  /** The first terminal outcome of a job is never overwritten, so Wait reports that one; nor is its claimant. */
  lemma {:induction false} FirstOutcomeIsFinal(m: Assignments, ops: seq<Op>, job: string)
    requires AllOk(m) && Legal(COORDINATION, m, ops) && job in m && KeepsJob(ops, job)
    ensures var m' := After(COORDINATION, m, ops);
      && job in m' && Forward(m[job], m'[job])
      && (Terminal(m[job].status) ==> WaitResult(m', job) == m[job].err)
  {
    if ops != [] {
      var n := |ops| - 1;
      FirstOutcomeIsFinal(m, ops[..n], job);
      ReachableIsOk(m, ops[..n]);
      OneStepForward(After(COORDINATION, m, ops[..n]), ops[n], job);
    }
  }

  predicate IsClaim(op: Op, job: string) {
    op.Claim? && op.job == job
  }

  function Claims(ops: seq<Op>, job: string): nat {
    if ops == [] then 0
    else Claims(ops[..|ops| - 1], job) + if IsClaim(ops[|ops| - 1], job) then 1 else 0
  }

  /** A job is claimed at most once, and not at all once it has left Pending. */
  lemma {:induction false} ClaimedAtMostOnce(m: Assignments, ops: seq<Op>, job: string)
    requires AllOk(m) && Legal(COORDINATION, m, ops) && job in m && KeepsJob(ops, job)
    ensures Claims(ops, job) <= 1
    ensures m[job].status != Pending ==> Claims(ops, job) == 0
    ensures Claims(ops, job) > 0 ==>
      var m' := After(COORDINATION, m, ops); job in m' && m'[job].status != Pending
  {
    if ops != [] {
      var n := |ops| - 1;
      var m' := After(COORDINATION, m, ops[..n]);
      ClaimedAtMostOnce(m, ops[..n], job);
      FirstOutcomeIsFinal(m, ops[..n], job);
      ReachableIsOk(m, ops[..n]);
      OneStepForward(m', ops[n], job);
      if IsClaim(ops[n], job) {
        ClaimLeavesPending(m', ops[n]);
      }
    }
  }

  lemma ClaimLeavesPending(m: Assignments, op: Op)
    requires op.Claim? && Enabled(m, op)
    ensures op.job in m && m[op.job].status == Pending && Do(m, op)[op.job].status == Running
  {
  }

  /** Whoever claims a job is the agent its request names, and stays its claimant. */
  lemma ClaimantIsTheAgent(m: Assignments, agent: string, job: string, now: int, ops: seq<Op>)
    requires AllOk(m) && Enabled(m, Claim(agent, job, now)) && KeepsJob(ops, job)
    requires Legal(COORDINATION, Do(m, Claim(agent, job, now)), ops)
    ensures var m' := After(COORDINATION, Do(m, Claim(agent, job, now)), ops);
      job in m' && m'[job].claimedBy == agent && TrimSpace(agent) == TrimSpace(m'[job].request.backendID)
  {
    var claimed := Do(m, Claim(agent, job, now));
    DoKeepsOk(m, Claim(agent, job, now));
    FirstOutcomeIsFinal(claimed, ops, job);
    assert claimed[job].claimedBy == agent;
  }

  /***** What one operation does *****/

  // The job that an operation is about.
  function JobOf(op: Op): Option<string> {
    match op
    case Submit(request, uuid) => Some(Prepared(request, uuid).jobID)
    case Cleanup(job) => Some(job)
    case Claim(_, job, _) => Some(job)
    case Extend(job, _, _) => Some(job)
    case Complete(job, _, _) => Some(job)
    case Cancel(job) => Some(job)
    case Expire(_) => None
  }

  /** Other jobs stay as they are. */
  lemma OtherJobsStay(m: Assignments, op: Op, job: string)
    requires JobOf(op).Some? && JobOf(op).value != job
    ensures job in Do(m, op) <==> job in m
    ensures job in m ==> Do(m, op)[job] == m[job]
  {
  }

  /** A report or a renewal from anyone but the claimant changes nothing. */
  lemma StrangersChangeNothing(m: Assignments, op: Op)
    requires (op.Extend? || op.Complete?) && (op.job in m ==> m[op.job].claimedBy != op.agent)
    ensures Do(m, op) == m
  {
    forall job | job in m
      ensures Do(m, op)[job] == m[job]
    {
      if job != op.job {
        OtherJobsStay(m, op, job);
      }
    }
  }

  /** A cancellation ends a pending job, is noted on a running one, and comes too late for an ended one. */
  lemma CancelTakesEffect(m: Assignments, job: string)
    requires AllOk(m) && job in m
    ensures job in Do(m, Cancel(job))
    ensures m[job].status == Pending ==>
      Do(m, Cancel(job))[job].status == Canceled && WaitResult(Do(m, Cancel(job)), job) == WasCanceled
    ensures m[job].status == Running ==> Do(m, Cancel(job))[job] == m[job].(cancelRequested := true)
    ensures Terminal(m[job].status) ==> Do(m, Cancel(job))[job] == m[job]
  {
  }

  lemma RunningMark(e: Entry, job: string, op: Op)
    requires EntryOk(e) && e.status == Running && (op.Claim? && op.job == job ==> Claimable(e, op.agent))
    requires EntryAfter(e, job, op).status == Running
    ensures EntryAfter(e, job, op).cancelRequested <==> e.cancelRequested || op == Cancel(job)
  {
  }

  // A job that still runs is marked exactly if it has been cancelled since.
  lemma {:induction false} MarkedExactlyWhen(m: Assignments, ops: seq<Op>, job: string)
    requires AllOk(m) && Legal(COORDINATION, m, ops) && job in m && KeepsJob(ops, job)
    requires m[job].status == Running && !m[job].cancelRequested
    ensures var m' := After(COORDINATION, m, ops);
      job in m' && (m'[job].status == Running ==> (m'[job].cancelRequested <==> Cancel(job) in ops))
  {
    if ops != [] {
      var n := |ops| - 1;
      var m' := After(COORDINATION, m, ops[..n]);
      assert ops == ops[..n] + [ops[n]];
      MarkedExactlyWhen(m, ops[..n], job);
      ReachableIsOk(m, ops[..n]);
      FirstOutcomeIsFinal(m, ops[..n], job);
      OneStepForward(m', ops[n], job);
      if m'[job].status == Running && ops[n].Submit? == false && Do(m', ops[n])[job].status == Running {
        RunningMark(m'[job], job, ops[n]);
      }
    }
  }

  /** An open job that its claimant reports as complete is cancelled if that was asked for since it was claimed, has
      failed with the error reported if there is one, and has succeeded otherwise; and whatever comes later, that is
      what Wait returns. */
  lemma CompletionDecides(m: Assignments, agent: string, job: string, now: int, ops: seq<Op>, error: string, more: seq<Op>)
    requires AllOk(m) && Enabled(m, Claim(agent, job, now))
    requires var claimed := Do(m, Claim(agent, job, now));
      && Legal(COORDINATION, claimed, ops) && KeepsJob(ops, job)
      && var open := After(COORDINATION, claimed, ops);
         && job in open && open[job].status == Running
         && Legal(COORDINATION, Do(open, Complete(job, agent, error)), more) && KeepsJob(more, job)
    ensures var open := After(COORDINATION, Do(m, Claim(agent, job, now)), ops);
      var m' := After(COORDINATION, Do(open, Complete(job, agent, error)), more);
      && job in m'
      && m'[job].status == (if Cancel(job) in ops then Canceled else if Blank(error) then Succeeded else Failed)
      && WaitResult(m', job) == (if Cancel(job) in ops then WasCanceled else if Blank(error) then NoOutcome else StepError(error))
  {
    var claimed := Do(m, Claim(agent, job, now));
    var open := After(COORDINATION, claimed, ops);
    DoKeepsOk(m, Claim(agent, job, now));
    assert claimed[job].status == Running && !claimed[job].cancelRequested && claimed[job].claimedBy == agent;
    MarkedExactlyWhen(claimed, ops, job);
    ReachableIsOk(claimed, ops);
    FirstOutcomeIsFinal(claimed, ops, job);
    Completed(open, job, agent, error);
    DoKeepsOk(open, Complete(job, agent, error));
    FirstOutcomeIsFinal(Do(open, Complete(job, agent, error)), more, job);
  }

  lemma Completed(m: Assignments, job: string, agent: string, error: string)
    requires AllOk(m) && job in m && m[job].status == Running && m[job].claimedBy == agent
    ensures var m' := Do(m, Complete(job, agent, error));
      && job in m'
      && m'[job].status == (if m[job].cancelRequested then Canceled else if Blank(error) then Succeeded else Failed)
      && m'[job].err == (if m[job].cancelRequested then WasCanceled else if Blank(error) then NoOutcome else StepError(error))
  {
  }

  /***** What needs agent ids *****/

  // A job that runs, or has succeeded or failed, has a claimant.
  predicate HasClaimant(e: Entry) {
    e.status in {Running, Succeeded, Failed} ==> e.claimedBy != ""
  }

  ghost predicate AllHaveClaimants(m: Assignments) {
    forall job :: job in m ==> HasClaimant(m[job])
  }

  // The empty agent id claims a pending job, or completes it.
  predicate Anonymous(e: Entry, job: string, op: Op) {
    e.status == Pending && (op.Claim? || op.Complete?) && op.job == job && op.agent == ""
  }

  /** An operation leaves a job without a claimant if and only if it is the empty id that claims it or completes
      it while it is pending. */
  lemma HasClaimantExactlyWhen(e: Entry, job: string, op: Op)
    requires EntryOk(e) && HasClaimant(e) && (op.Claim? && op.job == job ==> Claimable(e, op.agent))
    ensures HasClaimant(EntryAfter(e, job, op)) <==> !Anonymous(e, job, op)
  {
  }

  /** A pending job can be completed, and by the empty id only. */
  lemma PendingCompletesExactlyWhen(e: Entry, agent: string, error: string)
    requires EntryOk(e) && e.status == Pending
    ensures CompletedEntry(e, agent, error) != e <==> agent == ""
    ensures agent == "" ==> CompletedEntry(e, agent, error).status == if Blank(error) then Succeeded else Failed
  {
  }

  predicate Named(op: Op) {
    op.Claim? || op.Complete? ==> op.agent != ""
  }

  /** With ids that are not empty, every reachable job that runs, or has succeeded or failed, has a claimant. */
  lemma {:induction false} ReachableHaveClaimants(m: Assignments, ops: seq<Op>)
    requires AllOk(m) && AllHaveClaimants(m) && Legal(COORDINATION, m, ops)
    requires forall k :: 0 <= k < |ops| ==> Named(ops[k])
    ensures AllHaveClaimants(After(COORDINATION, m, ops))
  {
    if ops != [] {
      var n := |ops| - 1;
      ReachableHaveClaimants(m, ops[..n]);
      ReachableIsOk(m, ops[..n]);
      assert Named(ops[n]);
      ClaimantsKept(After(COORDINATION, m, ops[..n]), ops[n]);
    }
  }

  lemma ClaimantsKept(m: Assignments, op: Op)
    requires AllOk(m) && AllHaveClaimants(m) && Enabled(m, op) && Named(op)
    ensures AllHaveClaimants(Do(m, op))
  {
    forall job | job in Do(m, op)
      ensures HasClaimant(Do(m, op)[job])
    {
      if job in m {
        HasClaimantExactlyWhen(m[job], job, op);
      }
    }
  }

  /***** Snapshots *****/

  predicate IsRestored(m: Assignments, s: Snapshot) {
    s.request.jobID in m && m[s.request.jobID] == NewEntry(s.request)
  }

  ghost predicate DistinctJobs(snapshots: seq<Snapshot>) {
    forall i, k :: 0 <= i < k < |snapshots| ==> snapshots[i].request.jobID != snapshots[k].request.jobID
  }

  // Restoring a list of snapshots of distinct jobs files each of them as pending.
  lemma {:induction false} RestoredEntry(snapshots: seq<Snapshot>, k: nat)
    requires DistinctJobs(snapshots) && k < |snapshots| && snapshots[k].request.jobID != ""
    ensures IsRestored(RestoredFrom(map[], snapshots), snapshots[k])
  {
    var n := |snapshots| - 1;
    if k < n {
      RestoredEntry(snapshots[..n], k);
      assert snapshots[k].request.jobID != snapshots[n].request.jobID;
    }
  }

  lemma {:induction false} RestoredJob(snapshots: seq<Snapshot>, job: string)
    requires job in RestoredFrom(map[], snapshots)
    ensures job != "" && exists s :: s in snapshots && s.request.jobID == job
  {
    var n := |snapshots| - 1;
    if job in RestoredFrom(map[], snapshots[..n]) {
      RestoredJob(snapshots[..n], job);
    } else {
      assert snapshots[n] in snapshots;
    }
  }

  /** What a snapshot restores into an empty coordinator: the uncompleted jobs, all pending again. */
  lemma SnapshotRoundTrip(m: Assignments, snapshots: seq<Snapshot>)
    requires AllOk(m) && SnapshotsOf(m, m.Keys, snapshots)
    ensures RestoredFrom(map[], snapshots) == Unfinished(m)
  {
    var restored := RestoredFrom(map[], snapshots);
    UnfinishedAreRestored(m, snapshots);
    OnlyUnfinishedAreRestored(m, snapshots);
    SameAssignments(restored, Unfinished(m));
  }

  lemma SameAssignments(a: Assignments, b: Assignments)
    requires forall job :: job in b ==> job in a && a[job] == b[job]
    requires forall job :: job in a ==> job in b
    ensures a == b
  {
    assert a.Keys == b.Keys;
  }

  lemma UnfinishedAreRestored(m: Assignments, snapshots: seq<Snapshot>)
    requires AllOk(m) && SnapshotsOf(m, m.Keys, snapshots)
    ensures forall job :: job in Unfinished(m) ==>
      job in RestoredFrom(map[], snapshots) && RestoredFrom(map[], snapshots)[job] == Unfinished(m)[job]
  {
    forall job | job in Unfinished(m)
      ensures job in RestoredFrom(map[], snapshots) && RestoredFrom(map[], snapshots)[job] == Unfinished(m)[job]
    {
      var k :| 0 <= k < |snapshots| && snapshots[k] == SnapshotOf(m[job]);
      assert EntryOk(m[job]);
      RestoredEntry(snapshots, k);
    }
  }

  lemma OnlyUnfinishedAreRestored(m: Assignments, snapshots: seq<Snapshot>)
    requires AllOk(m) && SnapshotsOf(m, m.Keys, snapshots)
    ensures forall job :: job in RestoredFrom(map[], snapshots) ==> job in Unfinished(m)
  {
    forall job | job in RestoredFrom(map[], snapshots)
      ensures job in Unfinished(m)
    {
      RestoredJob(snapshots, job);
    }
  }

  lemma RestoredIsOk(m: Assignments)
    requires AllOk(m)
    ensures AllOk(Unfinished(m))
  {
    forall job | job in Unfinished(m)
      ensures EntryOk(Unfinished(m)[job]) && Unfinished(m)[job].request.jobID == job
    {
      NewEntryOk(m[job].request);
    }
  }

  function Unfinished(m: Assignments): Assignments {
    map job | job in m && !m[job].completed :: NewEntry(m[job].request)
  }
}
