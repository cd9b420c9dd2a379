/** One job's lease, renewed by its worker and watched by the coordinator (agent/worker.go, agent/coordinator.go). */
module LeaseTiming {
  import opened Text
  import opened Coordinator
  import opened Machines

  // extendLease: ticks every half TTL, or every three seconds if that is nothing.
  function RenewInterval(ttl: int): int {
    if ttl / 2 <= 0 then 3_000_000_000 else ttl / 2
  }

  // The renewal loop. A renewal in flight carries the time its tick fired and, once the coordinator has
  // answered it, the answer on its way back.
  datatype Phase =
    | Starting
    | Waiting
    | InFlight(tick: int, reply: Option<LeaseResponse>)
    | Stopped(lapsed: bool, at: int)

  // renewed is the worker's record of its last success; replyLost tells whether, since then, a renewal
  // reached the coordinator and failed for the worker all the same, sooner or later: astray counts the failed
  // renewals that may still be on their way. reached is when the coordinator last heard of the worker.
  datatype World = World(entry: Entry, agent: string, now: int, phase: Phase, renewed: int, nextTick: int,
                         claimedAt: int, reached: int, replyLost: bool, astray: nat)

  datatype Action =
    | Pass(until: int)                // time goes by
    | Begin                           // the worker starts the loop
    | Send(dropped: nat)              // it receives a tick; the ticker dropped some later ones
    | Arrive                          // Extend runs on the coordinator
    | Succeed                         // the worker gets the answer
    | Fail                            // the request errors for the worker, wherever it got lost
    | ArriveLate                      // ... and Extend runs all the same
    | ExpiryTick                      // the coordinator's expiry loop
    | CancelJob
    | CompleteJob(error: string)

  function Ttl(w: World): int {
    w.entry.request.leaseTTL
  }

  function Init(e: Entry, agent: string, now: int): World {
    World(ClaimedEntry(e, agent, now), agent, now, Starting, 0, 0, now, now, false, 0)
  }

  predicate Enabled(w: World, a: Action) {
    match a
    case Pass(until) => until >= w.now
    case Begin => w.phase.Starting?
    case Send(dropped) => w.phase.Waiting? && w.now >= w.nextTick + dropped * RenewInterval(Ttl(w))
    case Arrive => w.phase.InFlight? && w.phase.reply.None?
    case Succeed => w.phase.InFlight? && w.phase.reply.Some?
    case Fail => w.phase.InFlight?
    case ArriveLate => w.astray > 0
    case _ => true
  }

  function Next(w: World, a: Action): World {
    match a
    case Pass(until) => w.(now := until)
    case Begin => w.(phase := Waiting, renewed := w.now, nextTick := w.now + RenewInterval(Ttl(w)))
    case Send(dropped) =>
      w.(phase := InFlight(w.nextTick, None), nextTick := w.nextTick + (1 + dropped) * RenewInterval(Ttl(w)))
    case Arrive => if !w.phase.InFlight? then w else
      w.(entry := ExtendedEntry(w.entry, w.agent, w.now), reached := w.now,
         phase := InFlight(w.phase.tick, Some(LeaseResponse(w.entry.status, w.entry.cancelRequested))))
    case Succeed => if !(w.phase.InFlight? && w.phase.reply.Some?) then w
      else if w.phase.reply.value.cancelRequested then w.(phase := Stopped(false, w.now))
      else w.(phase := Waiting, renewed := w.now, replyLost := false)
    case Fail => if !w.phase.InFlight? then w else
      var w' := if w.phase.reply.Some? then w.(replyLost := true) else w.(astray := w.astray + 1);
      if w.now - w.renewed >= Ttl(w) then w'.(phase := Stopped(true, w.now)) else w'.(phase := Waiting)
    case ArriveLate => if w.astray == 0 then w else
      w.(entry := ExtendedEntry(w.entry, w.agent, w.now), reached := w.now, replyLost := true, astray := w.astray - 1)
    case ExpiryTick => w.(entry := ExpiredEntry(w.entry, w.now))
    case CancelJob => w.(entry := CanceledEntry(w.entry))
    case CompleteJob(error) => w.(entry := CompletedEntry(w.entry, w.agent, error))
  }

  const LEASE := Machine(Enabled, Next)

  // The job is held by this worker for as long as it runs.
  ghost predicate Held(w: World) {
    && w.entry.claimedBy == w.agent && Ttl(w) > 0
    && w.entry.status != Pending && w.claimedAt <= w.now
    && (w.entry.status == Running ==> w.entry.leaseDeadline.Some? && !w.entry.completed)
  }

  /***** The worker does not give up early *****/

  // The deadline is a TTL after the coordinator last heard of the worker, and unless a failed renewal reached it
  // that was no later than the worker's last success.
  ghost predicate Covered(w: World) {
    && Held(w) && w.reached <= w.now
    && (w.phase.Stopped? ==> w.phase.at <= w.now)
    && (w.phase.Waiting? || w.phase.InFlight? ==> w.renewed <= w.now)
    && (w.entry.status == Running ==> w.entry.leaseDeadline == Some(w.reached + Ttl(w)))
    && (!w.replyLost ==>
         match w.phase
         case Waiting => w.reached <= w.renewed
         case InFlight(_, None) => w.reached <= w.renewed
         case Stopped(true, at) => w.reached <= at - Ttl(w)
         case _ => true)
  }

  lemma CoveredKept(w: World, a: Action)
    requires Covered(w) && Enabled(w, a)
    ensures Covered(Next(w, a))
  {
  }

  lemma {:induction false} StaysCovered(e: Entry, agent: string, start: int, actions: seq<Action>)
    requires Claimable(e, agent) && e.request.leaseTTL > 0 && !e.completed
    requires Legal(LEASE, Init(e, agent, start), actions)
    ensures Covered(After(LEASE, Init(e, agent, start), actions))
  {
    if actions != [] {
      var n := |actions| - 1;
      StaysCovered(e, agent, start, actions[..n]);
      CoveredKept(After(LEASE, Init(e, agent, start), actions[..n]), actions[n]);
    }
  }

  // The worker has stopped for a lapsed lease, and the job still counts as running.
  predicate GivenUp(w: World) {
    w.phase.Stopped? && w.phase.lapsed && w.entry.status == Running
  }

  /** A worker that stops for a lapsed lease stops at or after the coordinator's deadline if and only if the
      coordinator last heard of it a TTL before or earlier. Then, if the job still counts as running, the next tick of
      the expiry loop fails it; otherwise that tick fails it only if it comes at the deadline or later. */
  lemma StopsAfterTheDeadlineExactlyWhen(e: Entry, agent: string, start: int, actions: seq<Action>)
    requires Claimable(e, agent) && e.request.leaseTTL > 0 && !e.completed
    requires Legal(LEASE, Init(e, agent, start), actions) && GivenUp(After(LEASE, Init(e, agent, start), actions))
    ensures var w := After(LEASE, Init(e, agent, start), actions);
      && w.entry.leaseDeadline.Some? && w.phase.at <= w.now
      && (w.entry.leaseDeadline.value <= w.phase.at <==> w.reached <= w.phase.at - Ttl(w))
      && (w.reached <= w.phase.at - Ttl(w) ==>
            Next(w, ExpiryTick).entry.status == Failed && Next(w, ExpiryTick).entry.err == LeaseExpired(agent))
      && (Next(w, ExpiryTick).entry.status == Failed <==> w.reached <= w.now - Ttl(w))
  {
    StaysCovered(e, agent, start, actions);
    StaysWithAgent(Init(e, agent, start), actions);
  }

  lemma {:induction false} StaysWithAgent(w: World, actions: seq<Action>)
    ensures After(LEASE, w, actions).agent == w.agent
  {
    if actions != [] {
      StaysWithAgent(w, actions[..|actions| - 1]);
    }
  }

  /** So if no renewal that failed for the worker has reached the coordinator since its last success, the deadline
      has passed when it stops. */
  lemma StopsOnlyAfterTheDeadline(e: Entry, agent: string, start: int, actions: seq<Action>)
    requires Claimable(e, agent) && e.request.leaseTTL > 0 && !e.completed
    requires Legal(LEASE, Init(e, agent, start), actions)
    ensures var w := After(LEASE, Init(e, agent, start), actions);
      GivenUp(w) && !w.replyLost ==>
        w.entry.leaseDeadline.Some? && w.entry.leaseDeadline.value <= w.phase.at <= w.now
  {
    StaysCovered(e, agent, start, actions);
  }

  /** A worker stops for another reason only if the job has been cancelled ... */
  lemma {:induction false} StopsOnlyIfCanceled(e: Entry, agent: string, start: int, actions: seq<Action>)
    requires Claimable(e, agent) && e.request.leaseTTL > 0 && !e.completed
    requires Legal(LEASE, Init(e, agent, start), actions)
    ensures Told(After(LEASE, Init(e, agent, start), actions))
  {
    if actions != [] {
      StopsOnlyIfCanceled(e, agent, start, actions[..|actions| - 1]);
    }
  }

  // What the worker has been told of a cancellation is true.
  ghost predicate Told(w: World) {
    && (w.phase.Stopped? && !w.phase.lapsed ==> w.entry.cancelRequested)
    && (w.phase.InFlight? && w.phase.reply.Some? && w.phase.reply.value.cancelRequested ==> w.entry.cancelRequested)
  }

  /** ... and the first renewal that arrives after the cancellation, once answered, stops it; otherwise the answer
      renews the lease on its side. */
  lemma AnswerTellsOfTheCancellation(w: World, answered: int)
    requires w.phase.InFlight? && w.phase.reply.None? && w.now <= answered
    ensures Enabled(w, Arrive) && Enabled(Next(w, Arrive), Pass(answered))
    ensures Enabled(Next(Next(w, Arrive), Pass(answered)), Succeed)
    ensures var w' := Next(Next(Next(w, Arrive), Pass(answered)), Succeed);
      && w'.phase == (if w.entry.cancelRequested then Stopped(false, answered) else Waiting)
      && (!w.entry.cancelRequested ==> w'.renewed == answered && !w'.replyLost)
      && w'.reached == w.now
  {
  }

  function TenUnits(agent: string): World {
    Init(NewEntry(Request("j", "x", "n", agent, 10)), agent, 0)
  }

  /** It does not follow that the control plane has failed the step by then: the expiry loop may be late. */
  lemma ExpiryMayBeStillToCome(agent: string) returns (w: World)
    ensures Reaches(LEASE, TenUnits(agent), w)
    ensures GivenUp(w) && w.phase.at == 10 && !w.replyLost && !w.entry.completed
  {
    var w0 := TenUnits(agent);
    ReachesItself(LEASE, w0);
    w := Then(LEASE, w0, w0, Begin);
    w := Then(LEASE, w0, w, Pass(10));
    w := Then(LEASE, w0, w, Send(0));
    w := Then(LEASE, w0, w, Fail);
  }

  // A lease of 10, renewed at 5; the answer is lost, and the next renewal is under way at 10.
  ghost predicate AnswerLost(w: World) {
    Ttl(w) == 10 && w.renewed == 0 && w.replyLost && w.entry.status == Running && w.entry.leaseDeadline == Some(15)
  }

  lemma AnswerGetsLost(agent: string) returns (w: World)
    ensures Reaches(LEASE, TenUnits(agent), w)
    ensures AnswerLost(w) && w.phase == InFlight(10, None) && w.now == 10
  {
    var w0 := TenUnits(agent);
    w := FirstRenewal(agent);
    w := Then(LEASE, w0, w, Fail);
    w := Then(LEASE, w0, w, Pass(10));
    w := Then(LEASE, w0, w, Send(0));
  }

  lemma FirstRenewal(agent: string) returns (w: World)
    ensures Reaches(LEASE, TenUnits(agent), w)
    ensures Ttl(w) == 10 && w.renewed == 0 && w.entry.status == Running && w.entry.leaseDeadline == Some(15)
    ensures w.phase.InFlight? && w.phase.reply.Some? && w.now == 5 && w.nextTick == 10
  {
    w := FirstRequest(agent);
    w := Then(LEASE, TenUnits(agent), w, Arrive);
  }

  lemma FirstRequest(agent: string) returns (w: World)
    ensures Reaches(LEASE, TenUnits(agent), w)
    ensures Ttl(w) == 10 && w.renewed == 0 && w.entry.status == Running && w.entry.claimedBy == w.agent
    ensures w.phase == InFlight(5, None) && w.now == 5 && w.nextTick == 10
  {
    var w0 := TenUnits(agent);
    ReachesItself(LEASE, w0);
    w := Then(LEASE, w0, w0, Begin);
    w := Then(LEASE, w0, w, Pass(5));
    w := Then(LEASE, w0, w, Send(0));
  }

  /** With a lost answer it may stop early: a lease of 10 renewed at 5 runs until 15, and the worker stops at 10. */
  lemma LostAnswerMayStopEarly(agent: string) returns (w: World)
    ensures Reaches(LEASE, TenUnits(agent), w)
    ensures GivenUp(w) && w.phase.at == 10 && w.replyLost && w.entry.leaseDeadline == Some(15)
  {
    w := AnswerGetsLost(agent);
    w := Then(LEASE, TenUnits(agent), w, Fail);
  }

  /** It need not: if that last renewal takes until 15 to fail, the worker stops in time. */
  lemma LostAnswerMayStopInTime(agent: string) returns (w: World)
    ensures Reaches(LEASE, TenUnits(agent), w)
    ensures GivenUp(w) && w.phase.at == 15 && w.replyLost && w.entry.leaseDeadline == Some(15)
  {
    w := AnswerGetsLost(agent);
    w := Then(LEASE, TenUnits(agent), w, Pass(15));
    w := Then(LEASE, TenUnits(agent), w, Fail);
  }

  /***** A prompt worker does not lose its lease *****/

  // The worker starts within a of the claim, and a renewal reaches the coordinator within b of its tick.
  predicate Prompt(w: World, a: int, b: int) {
    match w.phase
    case Starting => w.now <= w.claimedAt + a
    case Waiting => w.now <= w.nextTick + b
    case InFlight(tick, None) => w.now <= tick + b
    case InFlight(_, Some(_)) => w.now <= w.nextTick + b
    case Stopped(_, _) => false
  }

  // No renewal is lost on its way to the coordinator (answers may be).
  ghost predicate GetsThrough(w: World, a: Action) {
    a.Fail? ==> w.phase.InFlight? && w.phase.reply.Some?
  }

  // A run in which nobody is later than that.
  ghost predicate PromptRun(w: World, actions: seq<Action>, a: int, b: int)
    decreases |actions|
  {
    && Prompt(After(LEASE, w, actions), a, b)
    && (actions != [] ==>
         PromptRun(w, actions[..|actions| - 1], a, b) &&
         GetsThrough(After(LEASE, w, actions[..|actions| - 1]), actions[|actions| - 1]))
  }

  ghost predicate Safe(w: World, a: int) {
    var i := RenewInterval(Ttl(w));
    && Held(w) && !w.entry.err.LeaseExpired? && w.astray == 0
    && (w.entry.status == Running ==>
         match w.phase
         case Starting => w.entry.leaseDeadline.value == w.claimedAt + Ttl(w)
         case Waiting => w.entry.leaseDeadline.value >= w.nextTick - i - a + Ttl(w)
         case InFlight(tick, None) => w.now >= w.nextTick - i && w.entry.leaseDeadline.value >= tick - i - a + Ttl(w)
         case InFlight(_, Some(_)) => w.entry.leaseDeadline.value >= w.nextTick - i - a + Ttl(w)
         case Stopped(_, _) => true)
  }

  // ... because the deadline is always ahead.
  lemma DeadlineIsAhead(w: World, a: int, b: int)
    requires Safe(w, a) && Prompt(w, a, b) && 0 <= a && 0 <= b && a + b < Ttl(w) - RenewInterval(Ttl(w))
    ensures w.entry.status == Running ==> w.now < w.entry.leaseDeadline.value
  {
  }

  lemma SafeKept(w: World, x: Action, a: int, b: int)
    requires Safe(w, a) && Prompt(w, a, b) && Enabled(w, x) && GetsThrough(w, x) && Prompt(Next(w, x), a, b)
    requires 0 <= a && 0 <= b && a + b < Ttl(w) - RenewInterval(Ttl(w))
    ensures Safe(Next(w, x), a) && Ttl(Next(w, x)) == Ttl(w)
  {
    DeadlineIsAhead(w, a, b);
  }

  /** If the delays around a tick sum to less than TTL - TTL/2, the expiry loop never fails the job. */
  lemma {:induction false} PromptWorkerKeepsItsLease(e: Entry, agent: string, start: int, actions: seq<Action>, a: int, b: int)
    requires Claimable(e, agent) && !e.completed && e.err.NoOutcome?
    requires 0 <= a && 0 <= b && a + b < e.request.leaseTTL - RenewInterval(e.request.leaseTTL)
    requires Legal(LEASE, Init(e, agent, start), actions) && PromptRun(Init(e, agent, start), actions, a, b)
    ensures var w := After(LEASE, Init(e, agent, start), actions);
      && Safe(w, a) && Ttl(w) == e.request.leaseTTL
      && !w.entry.err.LeaseExpired?
      && (w.entry.status == Running ==> w.entry.leaseDeadline.Some? && w.now < w.entry.leaseDeadline.value)
  {
    if actions != [] {
      var n := |actions| - 1;
      PromptWorkerKeepsItsLease(e, agent, start, actions[..n], a, b);
      SafeKept(After(LEASE, Init(e, agent, start), actions[..n]), actions[n], a, b);
    }
    DeadlineIsAhead(After(LEASE, Init(e, agent, start), actions), a, b);
  }

  ghost predicate PromptlyReaches(w0: World, w: World, a: int, b: int) {
    exists actions :: Legal(LEASE, w0, actions) && PromptRun(w0, actions, a, b) && After(LEASE, w0, actions) == w
  }

  lemma ThenPromptly(w0: World, w: World, x: Action, a: int, b: int) returns (w': World)
    requires PromptlyReaches(w0, w, a, b) && Enabled(w, x) && GetsThrough(w, x) && Prompt(Next(w, x), a, b)
    ensures w' == Next(w, x) && PromptlyReaches(w0, w', a, b)
  {
    var actions :| Legal(LEASE, w0, actions) && PromptRun(w0, actions, a, b) && After(LEASE, w0, actions) == w;
    var longer := actions + [x];
    assert longer[..|longer| - 1] == actions;
    w' := Next(w, x);
    assert Legal(LEASE, w0, longer) && PromptRun(w0, longer, a, b) && After(LEASE, w0, longer) == w';
  }

  // With longer delays the first renewal may come after the deadline.
  lemma SlowWorkerLosesItsLease(e: Entry, agent: string, start: int, a: int, b: int) returns (w: World)
    requires Claimable(e, agent) && e.request.leaseTTL > 0 && !e.completed && 0 <= a && 0 <= b
    requires a + b >= e.request.leaseTTL - RenewInterval(e.request.leaseTTL)
    ensures PromptlyReaches(Init(e, agent, start), w, a, b) && w.entry.err == LeaseExpired(agent)
  {
    var w0, ttl := Init(e, agent, start), e.request.leaseTTL;
    assert Legal(LEASE, w0, []) && PromptRun(w0, [], a, b) && After(LEASE, w0, []) == w0;
    w := ThenPromptly(w0, w0, Pass(start + a), a, b);
    w := ThenPromptly(w0, w, Begin, a, b);
    w := ThenPromptly(w0, w, Pass(start + if a < ttl then ttl else a), a, b);
    w := ThenPromptly(w0, w, ExpiryTick, a, b);
  }

  /** That bound is exact: with given delays, no run loses the lease if and only if they sum to less. */
  lemma LeaseIsKeptExactlyWhen(e: Entry, agent: string, start: int, a: int, b: int)
    requires Claimable(e, agent) && e.request.leaseTTL > 0 && !e.completed && e.err.NoOutcome? && 0 <= a && 0 <= b
    ensures (forall w :: PromptlyReaches(Init(e, agent, start), w, a, b) ==> !w.entry.err.LeaseExpired?)
      <==> a + b < e.request.leaseTTL - if e.request.leaseTTL >= 2 then e.request.leaseTTL / 2 else 3_000_000_000
  {
    var w0 := Init(e, agent, start);
    if a + b < e.request.leaseTTL - RenewInterval(e.request.leaseTTL) {
      forall w | PromptlyReaches(w0, w, a, b)
        ensures !w.entry.err.LeaseExpired?
      {
        var actions :| Legal(LEASE, w0, actions) && PromptRun(w0, actions, a, b) && After(LEASE, w0, actions) == w;
        PromptWorkerKeepsItsLease(e, agent, start, actions, a, b);
      }
    } else {
      var w := SlowWorkerLosesItsLease(e, agent, start, a, b);
    }
  }
}
