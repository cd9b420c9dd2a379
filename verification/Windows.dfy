/** Rolling windows over time stamps: the rate limiter and the account lockout (auth/ratelimit.go, auth/lockout.go). */
module Windows {
  // The times after a cutoff: the loops that build `fresh`.
  function Fresh(times: seq<int>, cutoff: int): seq<int> {
    if times == [] then [] else
      var init := Fresh(times[..|times| - 1], cutoff);
      if times[|times| - 1] > cutoff then init + [times[|times| - 1]] else init
  }

  lemma FreshAppend(times: seq<int>, t: int, cutoff: int)
    ensures Fresh(times + [t], cutoff) == Fresh(times, cutoff) + (if t > cutoff then [t] else [])
  {
    assert (times + [t])[..|times|] == times;
  }

  /** Pruning at an earlier cutoff does not show at a later one. */
  lemma {:induction false} FreshTwice(times: seq<int>, early: int, late: int)
    requires early <= late
    ensures Fresh(Fresh(times, early), late) == Fresh(times, late)
  {
    if times != [] {
      var init, t := times[..|times| - 1], times[|times| - 1];
      FreshTwice(init, early, late);
      FreshAppend(Fresh(init, early), t, late);
    }
  }

  method KeepFresh(times: seq<int>, cutoff: int) returns (kept: seq<int>)
    ensures kept == Fresh(times, cutoff)
  {
    kept := [];
    for i := 0 to |times|
      invariant kept == Fresh(times[..i], cutoff)
    {
      assert times[..i + 1][..i] == times[..i];
      if times[i] > cutoff {
        kept := kept + [times[i]];
      }
    }
    assert times[..|times|] == times;
  }

  type Log = map<string, seq<int>>

  function Get(m: Log, key: string): seq<int> {
    if key in m then m[key] else []
  }

  // The pruned times and the full ones cannot be told apart by anyone who asks after the given time.
  ghost predicate Alike(pruned: seq<int>, full: seq<int>, window: int, since: int) {
    forall cutoff :: cutoff >= since - window ==> Fresh(pruned, cutoff) == Fresh(full, cutoff)
  }

  ghost predicate Agree(pruned: Log, full: Log, window: int, since: int) {
    forall key :: Alike(Get(pruned, key), Get(full, key), window, since)
  }

  ghost predicate IsSwept(before: Log, after: Log, key: string, cutoff: int) {
    Get(after, key) == Fresh(Get(before, key), cutoff)
  }

  /** sweepLocked */
  method Sweep(events: Log, cutoff: int) returns (r: Log)
    ensures forall key :: IsSwept(events, r, key, cutoff)
  {
    r := events;
    var todo := events.Keys;
    while todo != {}
      invariant todo <= r.Keys
      invariant forall key :: key in todo ==> Get(r, key) == Get(events, key)
      invariant forall key :: key !in todo ==> IsSwept(events, r, key, cutoff)
      decreases |todo|
    {
      var key :| key in todo;
      r := SweepKey(r, key, cutoff);
      todo := todo - {key};
    }
  }

  method SweepKey(events: Log, key: string, cutoff: int) returns (r: Log)
    requires key in events
    ensures events.Keys - {key} <= r.Keys && IsSwept(events, r, key, cutoff)
    ensures forall other :: other != key ==> Get(r, other) == Get(events, other)
  {
    var kept := KeepFresh(events[key], cutoff);
    if |kept| == 0 {
      r := Without(events, key);
    } else {
      r := With(events, key, kept);
    }
  }

  function With(m: Log, key: string, times: seq<int>): (r: Log)
    ensures r.Keys == m.Keys + {key} && Get(r, key) == times
    ensures forall other :: other != key ==> Get(r, other) == Get(m, other)
  {
    m[key := times]
  }

  function Without(m: Log, key: string): (r: Log)
    ensures r.Keys == m.Keys - {key} && Get(r, key) == []
    ensures forall other :: other != key ==> Get(r, other) == Get(m, other)
  {
    m - {key}
  }

  lemma SweepAgrees(pruned: Log, full: Log, swept: Log, window: int, since: int, now: int, cutoff: int)
    requires Agree(pruned, full, window, since) && since <= now
    requires cutoff == now - window && forall key :: IsSwept(pruned, swept, key, cutoff)
    ensures Agree(swept, full, window, now)
  {
    forall key
      ensures Alike(Get(swept, key), Get(full, key), window, now)
    {
      assert Alike(Get(pruned, key), Get(full, key), window, since) && IsSwept(pruned, swept, key, cutoff);
      PrunedAlike(Get(pruned, key), Get(full, key), window, since, now);
    }
  }

  lemma PrunedAlike(pruned: seq<int>, full: seq<int>, window: int, since: int, now: int)
    requires Alike(pruned, full, window, since) && since <= now
    ensures Alike(pruned, full, window, now) && Alike(Fresh(pruned, now - window), full, window, now)
  {
    forall cutoff | cutoff >= now - window
      ensures Fresh(Fresh(pruned, now - window), cutoff) == Fresh(full, cutoff)
    {
      FreshTwice(pruned, now - window, cutoff);
    }
  }

  lemma AppendAlike(pruned: seq<int>, full: seq<int>, window: int, since: int, t: int)
    requires Alike(pruned, full, window, since)
    ensures Alike(pruned + [t], full + [t], window, since)
  {
    forall cutoff | cutoff >= since - window
      ensures Fresh(pruned + [t], cutoff) == Fresh(full + [t], cutoff)
    {
      FreshAppend(pruned, t, cutoff);
      FreshAppend(full, t, cutoff);
    }
  }

  // Time passes, and one key gets new times on both sides.
  lemma UpdateAgrees(pruned: Log, full: Log, window: int, since: int, now: int, key: string, p: seq<int>, f: seq<int>)
    requires Agree(pruned, full, window, since) && since <= now && Alike(p, f, window, now)
    ensures Agree(With(pruned, key, p), With(full, key, f), window, now)
    ensures f == Get(full, key) ==> Agree(With(pruned, key, p), full, window, now)
  {
    forall other
      ensures Alike(Get(pruned, other), Get(full, other), window, now)
    {
      assert Alike(Get(pruned, other), Get(full, other), window, since);
    }
  }

  /***** The rate limiter *****/

  // The limiter without pruning: a request is admitted while fewer than limit admitted ones lie in its window.
  function Admits(limit: int, window: int, history: seq<int>, now: int): bool {
    |Fresh(history, now - window)| < limit
  }

  function Admitted(limit: int, window: int, history: seq<int>, now: int): seq<int> {
    if Admits(limit, window, history, now) then history + [now] else history
  }

  // Both outcomes of a request keep the pruned log in agreement, and the pruned count is the full one.
  lemma AllowAgrees(events: Log, admitted: Log, window: int, since: int, now: int, key: string, kept: seq<int>)
    requires Agree(events, admitted, window, since) && since <= now
    requires kept == Fresh(Get(events, key), now - window)
    ensures kept == Fresh(Get(admitted, key), now - window)
    ensures Agree(With(events, key, kept), admitted, window, now)
    ensures Agree(With(events, key, kept + [now]), With(admitted, key, Get(admitted, key) + [now]), window, now)
  {
    var full := Get(admitted, key);
    assert Alike(Get(events, key), full, window, since);
    PrunedAlike(Get(events, key), full, window, since, now);
    AppendAlike(kept, full, window, now, now);
    UpdateAgrees(events, admitted, window, since, now, key, kept, full);
    UpdateAgrees(events, admitted, window, since, now, key, kept + [now], full + [now]);
  }

  // All times lie in the past, and no window holds more of them than the limit.
  ghost predicate Bounded(times: seq<int>, limit: int, window: int, latest: int) {
    && (forall k :: 0 <= k < |times| ==> times[k] <= latest)
    && (forall end :: InWindow(times, window, end) <= if limit < 0 then 0 else limit)
  }

  ghost predicate AllBounded(admitted: Log, limit: int, window: int, latest: int) {
    forall key :: Bounded(Get(admitted, key), limit, window, latest)
  }

  lemma AdmittedIsBounded(times: seq<int>, limit: int, window: int, latest: int, now: int)
    requires Bounded(times, limit, window, latest) && latest <= now
    ensures Admits(limit, window, times, now) <==> InWindow(times, window, now) < limit
    ensures Admits(limit, window, times, now) ==> Bounded(times + [now], limit, window, now)
  {
    InWindowIsFresh(times, window, now, now);
    if Admits(limit, window, times, now) {
      forall end
        ensures InWindow(times + [now], window, end) <= limit
      {
        InWindowAppend(times, now, window, end);
        if now <= end {
          InWindowIsFresh(times, window, end, now);
        }
      }
    }
  }

  ghost predicate Keeps(events: Log, admitted: Log, limit: int, window: int, latest: int) {
    Agree(events, admitted, window, latest) && AllBounded(admitted, limit, window, latest)
  }

  // Both outcomes of a request.
  lemma AllowStep(events: Log, admitted: Log, limit: int, window: int, since: int, now: int, key: string, kept: seq<int>)
    requires Keeps(events, admitted, limit, window, since) && since <= now
    requires kept == Fresh(Get(events, key), now - window)
    ensures |kept| < limit <==> InWindow(Get(admitted, key), window, now) < limit
    ensures |kept| >= limit ==> Keeps(With(events, key, kept), admitted, limit, window, now)
    ensures |kept| < limit ==>
      Keeps(With(events, key, kept + [now]), With(admitted, key, Get(admitted, key) + [now]), limit, window, now)
  {
    AllowAgrees(events, admitted, window, since, now, key, kept);
    StaysBounded(admitted, limit, window, since, now, key);
  }

  class IpRateLimiter {
    const limit: int
    const window: int
    var events: Log
    var callCount: int
    ghost var admitted: Log  // every request ever admitted
    ghost var latest: int

    ghost predicate Valid()
      reads this
    {
      Keeps(events, admitted, limit, window, latest)
    }

    constructor (limit: int, window: int, now: int)
      ensures Valid() && admitted == map[] && latest == now && this.limit == limit && this.window == window
    {
      this.limit, this.window, events, callCount, admitted, latest := limit, window, map[], 0, map[], now;
    }

    /** allow: every 500th call sweeps first, reading the clock on its own. By Valid, no window of any key's
        admitted requests ever holds more than the limit. */
    method Allow(key: string, sweepTime: int, now: int) returns (ok: bool)
      requires Valid() && latest <= sweepTime <= now
      modifies this
      ensures Valid() && latest == now
      ensures ok <==> InWindow(Get(old(admitted), key), window, now) < limit
      ensures admitted == if ok then old(admitted)[key := Get(old(admitted), key) + [now]] else old(admitted)
    {
      SweepNowAndThen(sweepTime);
      ok := AllowNow(key, now);
    }

    method SweepNowAndThen(sweepTime: int)
      requires Valid() && latest <= sweepTime
      modifies this
      ensures Valid() && admitted == old(admitted) && latest <= sweepTime
    {
      callCount := callCount + 1;
      if callCount >= 500 {
        var swept := Sweep(events, sweepTime - window);
        SweepAgrees(events, admitted, swept, window, latest, sweepTime, sweepTime - window);
        events, latest := swept, sweepTime;
        callCount := 0;
      }
    }

    method AllowNow(key: string, now: int) returns (ok: bool)
      requires Valid() && latest <= now
      modifies this
      ensures Valid() && latest == now
      ensures ok <==> InWindow(Get(old(admitted), key), window, now) < limit
      ensures admitted == if ok then With(old(admitted), key, Get(old(admitted), key) + [now]) else old(admitted)
    {
      var kept := KeepFresh(Get(events, key), now - window);
      AllowStep(events, admitted, limit, window, latest, now, key, kept);
      latest := now;
      if |kept| >= limit {
        events := With(events, key, kept);
        return false;
      }
      events := With(events, key, kept + [now]);
      admitted := With(admitted, key, Get(admitted, key) + [now]);
      return true;
    }
  }

  lemma StaysBounded(admitted: Log, limit: int, window: int, latest: int, now: int, key: string)
    requires AllBounded(admitted, limit, window, latest) && latest <= now
    ensures var times := Get(admitted, key);
      && (Admits(limit, window, times, now) <==> InWindow(times, window, now) < limit)
      && AllBounded(admitted, limit, window, now)
      && (Admits(limit, window, times, now) ==> AllBounded(With(admitted, key, times + [now]), limit, window, now))
  {
    var times := Get(admitted, key);
    assert Bounded(times, limit, window, latest);
    AdmittedIsBounded(times, limit, window, latest, now);
    forall other
      ensures Bounded(Get(admitted, other), limit, window, now)
    {
      assert Bounded(Get(admitted, other), limit, window, latest);
    }
  }

  /***** Whole runs of the rate limiter *****/

  // The requests admitted for one key out of those made at the given times.
  function History(limit: int, window: int, times: seq<int>): seq<int> {
    if times == [] then [] else
      Admitted(limit, window, History(limit, window, times[..|times| - 1]), times[|times| - 1])
  }

  ghost predicate Monotone(times: seq<int>) {
    forall i, j :: 0 <= i < j < |times| ==> times[i] <= times[j]
  }

  lemma MonotoneInit(times: seq<int>, now: int)
    requires Monotone(times + [now])
    ensures Monotone(times)
  {
    assert forall i :: 0 <= i < |times| ==> (times + [now])[i] == times[i];
  }

  // How many of the times lie in the half-open window that ends with end.
  function InWindow(times: seq<int>, window: int, end: int): int {
    if times == [] then 0 else
      InWindow(times[..|times| - 1], window, end) +
      if end - window < times[|times| - 1] <= end then 1 else 0
  }

  lemma {:induction false} HistoryIsOld(limit: int, window: int, times: seq<int>, now: int)
    requires Monotone(times + [now])
    ensures forall k :: 0 <= k < |History(limit, window, times)| ==> History(limit, window, times)[k] <= now
  {
    if times != [] {
      var n := |times| - 1;
      assert (times + [now])[n] == times[n] <= (times + [now])[n + 1];
      assert times[..n] + [times[n]] == times;
      MonotoneInit(times, now);
      HistoryIsOld(limit, window, times[..n], times[n]);
    }
  }

  lemma {:induction false} InWindowIsFresh(times: seq<int>, window: int, end: int, now: int)
    requires now <= end && forall k :: 0 <= k < |times| ==> times[k] <= now
    ensures InWindow(times, window, end) <= |Fresh(times, now - window)|
    ensures now == end ==> InWindow(times, window, end) == |Fresh(times, now - window)|
  {
    if times != [] {
      InWindowIsFresh(times[..|times| - 1], window, end, now);
    }
  }

  /** In any window of the given length, wherever it ends, at most limit requests are admitted. */
  lemma {:induction false} AtMostLimitPerWindow(limit: nat, window: int, times: seq<int>, end: int)
    requires Monotone(times)
    ensures InWindow(History(limit, window, times), window, end) <= limit
  {
    if times != [] {
      var init, now := times[..|times| - 1], times[|times| - 1];
      var h := History(limit, window, init);
      AtMostLimitPerWindow(limit, window, init, end);
      assert init + [now] == times;
      HistoryIsOld(limit, window, init, now);
      InWindowAppend(h, now, window, end);
      if now <= end {
        InWindowIsFresh(h, window, end, now);
      }
    }
  }

  lemma InWindowAppend(times: seq<int>, t: int, window: int, end: int)
    ensures InWindow(times + [t], window, end) == InWindow(times, window, end) + if end - window < t <= end then 1 else 0
  {
    assert (times + [t])[..|times|] == times;
  }

  /** A request is refused exactly when the window that ends with it already holds limit admitted ones. */
  lemma RefusedExactlyWhenFull(limit: nat, window: int, times: seq<int>, now: int)
    requires Monotone(times + [now])
    ensures !Admits(limit, window, History(limit, window, times), now) <==>
      InWindow(History(limit, window, times), window, now) == limit
  {
    MonotoneInit(times, now);
    AtMostLimitPerWindow(limit, window, times, now);
    HistoryIsOld(limit, window, times, now);
    InWindowIsFresh(History(limit, window, times), window, now, now);
  }

  /***** The account lockout *****/

  const MAX_FAILURES := 10
  const LOCKOUT_WINDOW := 600_000_000_000  // ten minutes

  ghost predicate IsPast(times: seq<int>, latest: int) {
    forall k :: 0 <= k < |times| ==> times[k] <= latest
  }

  ghost predicate AllPast(log: Log, latest: int) {
    forall key :: IsPast(Get(log, key), latest)
  }

  lemma StaysPast(log: Log, latest: int, now: int, key: string)
    requires AllPast(log, latest) && latest <= now
    ensures AllPast(With(log, key, Get(log, key) + [now]), now)
  {
    forall other
      ensures IsPast(Get(With(log, key, Get(log, key) + [now]), other), now)
    {
      assert IsPast(Get(log, other), latest) && IsPast(Get(log, key), latest);
    }
  }

  class AccountLockout {
    var failures: Log
    var callCount: int
    ghost var history: Log  // every failure since the account's last reset
    ghost var latest: int

    ghost predicate Valid()
      reads this
    {
      Agree(failures, history, LOCKOUT_WINDOW, latest) && AllPast(history, latest)
    }

    constructor (now: int)
      ensures Valid() && history == map[] && latest == now
    {
      failures, callCount, history, latest := map[], 0, map[], now;
    }

    /** locked: the pruned record gives the answer of the full history. */
    method Locked(key: string, now: int) returns (locked: bool)
      requires Valid() && latest <= now
      ensures locked <==> InWindow(Get(history, key), 600_000_000_000, now) >= 10
    {
      assert IsPast(Get(history, key), latest);
      InWindowIsFresh(Get(history, key), LOCKOUT_WINDOW, now, now);
      var recent := CountRecent(Get(failures, key), now - LOCKOUT_WINDOW);
      assert Alike(Get(failures, key), Get(history, key), LOCKOUT_WINDOW, latest);
      return recent >= MAX_FAILURES;
    }

    static method CountRecent(times: seq<int>, cutoff: int) returns (count: nat)
      ensures count == |Fresh(times, cutoff)|
    {
      count := 0;
      for i := 0 to |times|
        invariant count == |Fresh(times[..i], cutoff)|
      {
        assert times[..i + 1][..i] == times[..i];
        if times[i] > cutoff {
          count := count + 1;
        }
      }
      assert times[..|times|] == times;
    }

    /** record: every 200th call sweeps first. */
    method Record(key: string, sweepTime: int, now: int)
      requires Valid() && latest <= sweepTime <= now
      modifies this
      ensures Valid() && latest == now
      ensures history == old(history)[key := Get(old(history), key) + [now]]
    {
      callCount := callCount + 1;
      if callCount >= 200 {
        var swept := Sweep(failures, sweepTime - LOCKOUT_WINDOW);
        SweepAgrees(failures, history, swept, LOCKOUT_WINDOW, latest, sweepTime, sweepTime - LOCKOUT_WINDOW);
        assert forall other :: IsPast(Get(history, other), latest);
        failures, latest := swept, sweepTime;
        callCount := 0;
      }
      ghost var full := Get(history, key);
      assert Alike(Get(failures, key), full, LOCKOUT_WINDOW, latest);
      PrunedAlike(Get(failures, key), full, LOCKOUT_WINDOW, latest, now);
      AppendAlike(Get(failures, key), full, LOCKOUT_WINDOW, now, now);
      UpdateAgrees(failures, history, LOCKOUT_WINDOW, latest, now, key, Get(failures, key) + [now], full + [now]);
      failures := With(failures, key, Get(failures, key) + [now]);
      StaysPast(history, latest, now, key);
      history := With(history, key, full + [now]);
      latest := now;
    }

    /** reset: forgets the account. */
    method Reset(key: string)
      requires Valid()
      modifies this
      ensures Valid() && latest == old(latest)
      ensures history == old(history) - {key}
    {
      assert forall other :: Alike(Get(failures, other), Get(history, other), LOCKOUT_WINDOW, latest);
      assert forall other :: IsPast(Get(history, other), latest);
      failures := Without(failures, key);
      history := Without(history, key);
    }
  }
}
