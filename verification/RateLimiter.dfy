/**
 The two rate limiters behind `is_rate_limited`: a process-local log of recent hits that is
 pruned on every call, and a Redis counter per fixed window. Rejected calls count as hits.

 Keys do not share state, so the theorems follow one key through all of its calls, given by
 their times in the order they are processed. The server's clock orders the calls of the script.
 The in-memory limiter reads its clock before it takes its lock, so its times may be out of order.
 */
module RateLimiter {
  import opened Common

  type Times = seq<real>

  predicate Monotone(times: Times) {
    forall i, j :: 0 <= i < j < |times| ==> times[i] <= times[j]
  }

  lemma MonotonePrefix(times: Times)
    requires Monotone(times) && times != []
    ensures Monotone(Front(times)) && forall i :: 0 <= i < |times| ==> times[i] <= Last(times)
  {
  }

  function Front(times: Times): Times
    requires times != []
  {
    times[..|times| - 1]
  }

  function Last(times: Times): real
    requires times != []
  {
    times[|times| - 1]
  }

  // ---------- the in-memory log ----------

  /** The entries not older than the cutoff, in order. */
  function Recent(log: Times, cutoff: real): Times {
    if log == [] then []
    else Recent(Front(log), cutoff) + (if Last(log) >= cutoff then [Last(log)] else [])
  }

  lemma {:induction false} RecentAppend(log: Times, x: real, cutoff: real)
    ensures Recent(log + [x], cutoff) == Recent(log, cutoff) + (if x >= cutoff then [x] else [])
  {
    assert Front(log + [x]) == log;
  }

  /** The calls of the log that are at the cutoff or after it. */
  function Since(log: Times, cutoff: real): set<nat> {
    set i: nat | 0 <= i < |log| && log[i] >= cutoff
  }

  lemma {:induction false} RecentCounts(log: Times, cutoff: real)
    ensures |Recent(log, cutoff)| == |Since(log, cutoff)|
    ensures forall x :: x in Recent(log, cutoff) <==> exists i :: i in Since(log, cutoff) && log[i] == x
    decreases |log|
  {
    if log == [] {
      assert Since(log, cutoff) == {};
    } else {
      var n := |log| - 1;
      RecentCounts(Front(log), cutoff);
      var before := Since(Front(log), cutoff);
      assert Since(log, cutoff) == before + (if log[n] >= cutoff then {n} else {});
      assert forall i :: i in before ==> Front(log)[i] == log[i];
      assert log[n] >= cutoff ==> n in Since(log, cutoff);
    }
  }

  function Later(a: real, b: real): real {
    if a >= b then a else b
  }

  /** Pruning twice is pruning once, with the later cutoff. */
  lemma {:induction false} RecentOfRecent(log: Times, a: real, b: real)
    ensures Recent(Recent(log, a), b) == Recent(log, Later(a, b))
    decreases |log|
  {
    if log != [] {
      RecentOfRecent(Front(log), a, b);
      if Last(log) >= a {
        RecentAppend(Recent(Front(log), a), Last(log), b);
      } else {
        assert Recent(log, a) == Recent(Front(log), a);
      }
    }
  }

  predicate Between(log: Times, early: real, late: real) {
    exists x :: x in log && early <= x < late
  }

  /** A later cutoff keeps fewer entries, unless none lies between the two. */
  lemma {:induction false} LaterCutoff(log: Times, early: real, late: real)
    requires early <= late
    ensures |Recent(log, late)| <= |Recent(log, early)|
    ensures |Recent(log, late)| == |Recent(log, early)| <==> !Between(log, early, late)
    ensures Recent(log, late) == Recent(log, early) <==> !Between(log, early, late)
    decreases |log|
  {
    if log != [] {
      var front, last := Front(log), Last(log);
      LaterCutoff(front, early, late);
      assert log == front + [last];
      assert forall x :: x in log <==> x in front || x == last;
      assert early <= last < late ==> last in log;
    }
  }

  function Pruned(log: Times, now: real, window: real): Times {
    Recent(log, now - window) + [now]
  }

  /** The stored log after all calls of the key. */
  function StoredLog(times: Times, window: real): Times {
    if times == [] then [] else Pruned(StoredLog(Front(times), window), Last(times), window)
  }

  predicate MemoryLimited(log: Times, now: real, limit: int, window: real) {
    |Pruned(log, now, window)| > limit
  }

  /** One more call, seen through any cutoff. */
  lemma StoredLogStep(times: Times, window: real, cutoff: real)
    requires times != []
    ensures Recent(StoredLog(times, window), cutoff)
         == Recent(StoredLog(Front(times), window), Later(Last(times) - window, cutoff))
            + (if Last(times) >= cutoff then [Last(times)] else [])
  {
    var log, now := StoredLog(Front(times), window), Last(times);
    RecentAppend(Recent(log, now - window), now, cutoff);
    RecentOfRecent(log, now - window, cutoff);
  }

  /** Some call was pruned by a later one although the cutoff still asks for it. */
  predicate Lost(times: Times, window: real, cutoff: real) {
    exists k, i :: 0 <= k < i < |times| && cutoff <= times[k] < times[i] - window
  }

  lemma LostStep(times: Times, window: real, cutoff: real)
    requires times != []
    ensures var front := Front(times);
      Lost(times, window, cutoff)
      <==> Lost(front, window, Later(Last(times) - window, cutoff))
           || Between(front, cutoff, Later(Last(times) - window, cutoff))
  {
    var front, late := Front(times), Later(Last(times) - window, cutoff);
    if Lost(times, window, cutoff) {
      var k, i :| 0 <= k < i < |times| && cutoff <= times[k] < times[i] - window;
      assert front[k] in front;
      assert times[k] >= late ==> i < |front| && front[i] == times[i];
    }
    if Between(front, cutoff, late) {
      var x :| x in front && cutoff <= x < late;
      var k :| 0 <= k < |front| && front[k] == x;
      assert times[k] == x && times[|front|] == Last(times);
    }
  }

  /** The stored log shows what the complete history shows exactly when nothing asked for was lost. */
  lemma {:induction false} StoredLogIsHistory(times: Times, window: real, cutoff: real)
    ensures |Recent(StoredLog(times, window), cutoff)| <= |Recent(times, cutoff)|
    ensures |Recent(StoredLog(times, window), cutoff)| == |Recent(times, cutoff)| <==> !Lost(times, window, cutoff)
    ensures Recent(StoredLog(times, window), cutoff) == Recent(times, cutoff) <==> !Lost(times, window, cutoff)
    decreases |times|
  {
    if times != [] {
      hide Lost, Between, StoredLog;
      var front, late := Front(times), Later(Last(times) - window, cutoff);
      StoredLogStep(times, window, cutoff);
      StoredLogIsHistory(front, window, late);
      LaterCutoff(front, cutoff, late);
      LostStep(times, window, cutoff);
    }
  }

  /**
   The limiter answers as if it kept every call for ever exactly when nothing inside the window
   was lost; and it never refuses a call that the complete history would let through.
   */
  lemma PrunedLimiterIsExact(times: Times, now: real, window: real)
    ensures (forall limit :: limit > 0 ==>
              (MemoryLimited(StoredLog(times, window), now, limit, window) <==> |Since(times, now - window)| + 1 > limit))
       <==> !Lost(times, window, now - window)
    ensures forall limit :: MemoryLimited(StoredLog(times, window), now, limit, window) ==> |Since(times, now - window)| + 1 > limit
  {
    RecentCounts(times, now - window);
    hide StoredLog, Recent, Lost, Since;
    StoredLogIsHistory(times, window, now - window);
    var log, limit := StoredLog(times, window), |Recent(times, now - window)|;
    assert forall n :: MemoryLimited(log, now, n, window) <==> |Recent(log, now - window)| + 1 > n;
    assert limit > 0 && |Recent(log, now - window)| < limit ==> !MemoryLimited(log, now, limit, window);
  }

  /** Calls the limiter let through in the closed interval from `t` to `t + window`. */
  function MemoryAllowedIn(times: Times, t: real, limit: int, window: real): nat {
    if times == [] then 0
    else
      MemoryAllowedIn(Front(times), t, limit, window)
      + (if t <= Last(times) <= t + window && !MemoryLimited(StoredLog(Front(times), window), Last(times), limit, window)
         then 1 else 0)
  }

  class MemoryLimiter {
    var hits: map<string, Times>

    function Log(key: string): Times
      reads this
    {
      if key in hits then hits[key] else []
    }

    /** The list comprehension that keeps the hits inside the window. */
    method Prune(log: Times, cutoff: real) returns (kept: Times)
      ensures kept == Recent(log, cutoff)
    {
      kept := [];
      for i := 0 to |log|
        invariant kept == Recent(log[..i], cutoff)
      {
        assert log[..i + 1] == log[..i] + [log[i]];
        RecentAppend(log[..i], log[i], cutoff);
        if log[i] >= cutoff {
          kept := kept + [log[i]];
        }
      }
      assert log[..|log|] == log;
    }

    /** A limit of zero or less switches limiting off and records nothing. */
    method IsRateLimited(key: string, now: real, limit: int, window: real) returns (limited: bool)
      modifies this
      ensures limit <= 0 ==> !limited && hits == old(hits)
      ensures limit > 0 ==> limited == MemoryLimited(old(Log(key)), now, limit, window)
      ensures limit > 0 ==> hits == old(hits)[key := Pruned(old(Log(key)), now, window)]
    {
      if limit <= 0 {
        return false;
      }
      var kept := Prune(Log(key), now - window);
      kept := kept + [now];
      hits := hits[key := kept];
      limited := |kept| > limit;
    }
  }

  // ---------- the bound of the log ----------

  function CountIn(log: Times, lo: real, hi: real): nat {
    if log == [] then 0 else CountIn(Front(log), lo, hi) + (if lo <= Last(log) <= hi then 1 else 0)
  }

  lemma {:induction false} CountInRecent(log: Times, cutoff: real, lo: real, hi: real)
    ensures cutoff <= lo ==> CountIn(log, lo, hi) <= |Recent(log, cutoff)|
    ensures (forall x :: x in log && lo <= x <= hi ==> x >= cutoff) ==> CountIn(Recent(log, cutoff), lo, hi) == CountIn(log, lo, hi)
    decreases |log|
  {
    if log != [] {
      CountInRecent(Front(log), cutoff, lo, hi);
      assert Last(log) in log && forall x :: x in Front(log) ==> x in log;
      if Last(log) >= cutoff {
        assert Front(Recent(log, cutoff)) == Recent(Front(log), cutoff) && Last(Recent(log, cutoff)) == Last(log);
      } else {
        assert Recent(log, cutoff) == Recent(Front(log), cutoff);
      }
    }
  }

  lemma {:induction false} RecentIsPart(log: Times, cutoff: real)
    ensures forall x :: x in Recent(log, cutoff) ==> x in log
    decreases |log|
  {
    if log != [] {
      RecentIsPart(Front(log), cutoff);
    }
  }

  lemma {:induction false} StoredLogIsPart(times: Times, window: real)
    ensures forall x :: x in StoredLog(times, window) ==> x in times
    decreases |times|
  {
    if times != [] {
      StoredLogIsPart(Front(times), window);
      RecentIsPart(StoredLog(Front(times), window), Last(times) - window);
    }
  }

  /** Allowed calls of an interval that lost nothing are all still in the log. */
  lemma {:induction false} AllowedAreLogged(times: Times, t: real, limit: int, window: real)
    requires forall k, i :: 0 <= k < i < |times| && t <= times[k] <= t + window ==> times[k] >= times[i] - window
    ensures MemoryAllowedIn(times, t, limit, window) <= CountIn(StoredLog(times, window), t, t + window)
    decreases |times|
  {
    if times != [] {
      var front, now := Front(times), Last(times);
      var log := StoredLog(front, window);
      assert forall k :: 0 <= k < |front| ==> front[k] == times[k];
      AllowedAreLogged(front, t, limit, window);
      StoredLogIsPart(front, window);
      assert times[|front|] == now;
      CountInRecent(log, now - window, t, t + window);
      assert Front(StoredLog(times, window)) == Recent(log, now - window);
    }
  }

  /** Call `j` comes after a call `i` that pruned the call `k`, which lies within a window of `j`. */
  predicate Misses(times: Times, window: real, k: nat, i: nat, j: nat)
    requires k < i < j < |times|
  {
    times[j] - window <= times[k] <= times[j] + window && times[k] < times[i] - window
  }

  predicate NothingMissed(times: Times, window: real) {
    forall k, i, j :: 0 <= k < i < j < |times| ==> !Misses(times, window, k, i, j)
  }

  /** No closed interval of window length holds more than `limit` allowed calls, if no call misses another. */
  lemma {:induction false} MemoryWindowBound(times: Times, t: real, limit: int, window: real)
    requires NothingMissed(times, window) && limit > 0
    ensures MemoryAllowedIn(times, t, limit, window) <= limit
    decreases |times|
  {
    if times != [] {
      var front, now := Front(times), Last(times);
      NothingMissedByFewer(times, window);
      MemoryWindowBound(front, t, limit, window);
      if t <= now <= t + window && !MemoryLimited(StoredLog(front, window), now, limit, window) {
        forall k, i | 0 <= k < i < |front| && t <= front[k] <= t + window ensures front[k] >= front[i] - window {
          assert !Misses(times, window, k, i, |front|);
        }
        AllowedAreLogged(front, t, limit, window);
        CountInRecent(StoredLog(front, window), now - window, t, t + window);
      }
    }
  }

  lemma NothingMissedByFewer(times: Times, window: real)
    requires NothingMissed(times, window) && times != []
    ensures NothingMissed(Front(times), window)
  {
    forall k, i, j | 0 <= k < i < j < |Front(times)| ensures !Misses(Front(times), window, k, i, j) {
      assert !Misses(times, window, k, i, j);
    }
  }

  /** Calls processed in the order of their times lose nothing and miss nothing. */
  lemma OrderedCallsMissNothing(times: Times, now: real, window: real)
    requires Monotone(times) && (times != [] ==> Last(times) <= now)
    ensures NothingMissed(times, window) && !Lost(times, window, now - window)
  {
  }

  /** The run consists of calls at the given times, in that order, each as often as one likes. */
  predicate Follows(run: Times, times: Times, source: seq<nat>) {
    && |source| == |run|
    && (forall m :: 0 <= m < |run| ==> source[m] < |times| && run[m] == times[source[m]])
    && (forall m, n :: 0 <= m < n < |run| ==> source[m] <= source[n])
  }

  lemma NothingMissedByFollowing(run: Times, times: Times, source: seq<nat>, window: real)
    requires Follows(run, times, source) && NothingMissed(times, window)
    ensures NothingMissed(run, window)
  {
    forall k, i, j | 0 <= k < i < j < |run| ensures !Misses(run, window, k, i, j) {
      if source[k] < source[i] < source[j] {
        assert !Misses(times, window, source[k], source[i], source[j]);
      }
    }
  }

  /** Each call with what it was answered, one more call at a time. */
  lemma MemoryStep(times: Times, now: real, t: real, limit: int, window: real)
    ensures var after, log := times + [now], StoredLog(times, window);
      && StoredLog(after, window) == Pruned(log, now, window)
      && MemoryAllowedIn(after, t, limit, window)
           == MemoryAllowedIn(times, t, limit, window)
              + (if t <= now <= t + window && !MemoryLimited(log, now, limit, window) then 1 else 0)
  {
    assert Front(times + [now]) == times;
  }

  /** `n` more calls at the instant `x`. */
  function Burst(times: Times, x: real, n: nat): (longer: Times)
    ensures |longer| == |times| + n
  {
    if n == 0 then times else Burst(times, x, n - 1) + [x]
  }

  lemma {:induction false} RecentBurst(x: real, n: nat, cutoff: real)
    ensures Recent(Burst([], x, n), cutoff) == if x >= cutoff then Burst([], x, n) else []
    decreases n
  {
    if n > 0 {
      RecentBurst(x, n - 1, cutoff);
      RecentAppend(Burst([], x, n - 1), x, cutoff);
    }
  }

  lemma NoCalls(t: real, limit: int, window: real)
    ensures StoredLog([], window) == [] && MemoryAllowedIn([], t, limit, window) == 0
  {
  }

  lemma OneMoreIsAllowed(calls: Times, a: real, t: real, limit: int, window: real)
    requires t <= a <= t + window && |calls| < limit && Recent(calls, a - window) == calls
    requires StoredLog(calls, window) == calls && MemoryAllowedIn(calls, t, limit, window) == |calls|
    ensures StoredLog(calls + [a], window) == calls + [a]
    ensures MemoryAllowedIn(calls + [a], t, limit, window) == |calls| + 1
  {
    hide StoredLog, MemoryAllowedIn, Recent;
    MemoryStep(calls, a, t, limit, window);
  }

  /** Up to `limit` calls at one instant are all let through and stay in the log. */
  lemma {:induction false} BurstIsAllowed(a: real, n: nat, t: real, limit: int, window: real)
    requires t <= a <= t + window && n <= limit
    ensures StoredLog(Burst([], a, n), window) == Burst([], a, n)
    ensures MemoryAllowedIn(Burst([], a, n), t, limit, window) == n
    decreases n
  {
    hide StoredLog, MemoryAllowedIn, Recent;
    NoCalls(t, limit, window);
    if n > 0 {
      var calls := Burst([], a, n - 1);
      BurstIsAllowed(a, n - 1, t, limit, window);
      RecentBurst(a, n - 1, a - window);
      OneMoreIsAllowed(calls, a, t, limit, window);
    }
  }

  /** `limit` calls at `a`, one at `b` that prunes them, one at `c` within a window of them. */
  function MissingRun(a: real, b: real, c: real, limit: nat): Times {
    Burst([], a, limit) + [b] + [c]
  }

  lemma MissedCallsExceedTheLimit(a: real, b: real, c: real, t: real, limit: nat, window: real)
    requires c - window <= a <= c + window && a < b - window
    requires t <= a <= t + window && t <= c <= t + window && limit >= 2
    ensures MemoryAllowedIn(MissingRun(a, b, c, limit), t, limit, window) > limit
  {
    hide StoredLog, MemoryAllowedIn, Recent, Burst;
    var calls := Burst([], a, limit);
    BurstIsAllowed(a, limit, t, limit, window);
    MemoryStep(calls, b, t, limit, window);
    RecentBurst(a, limit, b - window);
    assert Pruned(calls, b, window) == [b];
    MemoryStep(calls + [b], c, t, limit, window);
    RecentOfOne(b, c - window);
  }

  lemma RecentOfOne(x: real, cutoff: real)
    ensures Recent([x], cutoff) == if x >= cutoff then [x] else []
  {
    assert Front([x]) == [];
  }

  /** The time is read before the lock is taken, so a call may be processed after a later one. */
  lemma OvertakenCallsExceedTheLimit(limit: nat)
    requires limit >= 2
    ensures MemoryAllowedIn(MissingRun(-1.0, 10.0, 0.0, limit), -1.0, limit, 10.0) > limit
  {
    MissedCallsExceedTheLimit(-1.0, 10.0, 0.0, -1.0, limit, 10.0);
  }

  /** Whatever was pruned, the log holds a call as late as any. */
  lemma {:induction false} LogHoldsALatest(times: Times, window: real, y: real)
    requires window >= 0.0 && y in times
    ensures exists x :: x in StoredLog(times, window) && x >= y
    decreases |times|
  {
    var front, now := Front(times), Last(times);
    assert times == front + [now];
    assert now in StoredLog(times, window);
    if y in front {
      LogHoldsALatest(front, window, y);
      var x :| x in StoredLog(front, window) && x >= y;
      RecentHolds(StoredLog(front, window), now - window, x);
      assert x >= now - window ==> x in StoredLog(times, window);
    }
  }

  lemma {:induction false} RecentHolds(log: Times, cutoff: real, x: real)
    ensures x in log && x >= cutoff ==> x in Recent(log, cutoff)
    decreases |log|
  {
    if log != [] {
      RecentHolds(Front(log), cutoff, x);
      assert log == Front(log) + [Last(log)];
    }
  }

  lemma {:induction false} AllowedIsAmong(times: Times, t: real, limit: int, window: real)
    requires MemoryAllowedIn(times, t, limit, window) > 0
    ensures exists y :: y in times && t <= y <= t + window
    decreases |times|
  {
    if MemoryAllowedIn(Front(times), t, limit, window) > 0 {
      AllowedIsAmong(Front(times), t, limit, window);
      var y :| y in Front(times) && t <= y <= t + window;
      assert y in times;
    } else {
      assert Last(times) in times;
    }
  }

  /** A limit of one is kept in whatever order calls are processed. */
  lemma {:induction false} LimitOfOneAlwaysHolds(times: Times, t: real, window: real)
    ensures MemoryAllowedIn(times, t, 1, window) <= 1
    decreases |times|
  {
    hide StoredLog, MemoryAllowedIn, Recent;
    NoCalls(t, 1, window);
    if times != [] {
      var front, now := Front(times), Last(times);
      assert times == front + [now];
      LimitOfOneAlwaysHolds(front, t, window);
      MemoryStep(front, now, t, 1, window);
      if t <= now <= t + window && MemoryAllowedIn(front, t, 1, window) > 0 {
        AllowedIsAmong(front, t, 1, window);
        var y :| y in front && t <= y <= t + window;
        LogHoldsALatest(front, window, y);
        var x :| x in StoredLog(front, window) && x >= y;
        RecentHolds(StoredLog(front, window), now - window, x);
      }
    }
  }

  /** Whatever calls come at these times in this order, no closed interval of window length passes the limit. */
  ghost predicate KeepsTheLimit(times: Times, limit: int, window: real) {
    forall run: Times, source: seq<nat>, t: real :: Follows(run, times, source) ==> MemoryAllowedIn(run, t, limit, window) <= limit
  }

  lemma {:induction false} BurstRepeats(x: real, n: nat)
    ensures forall m :: 0 <= m < n ==> Burst([], x, n)[m] == x
    decreases n
  {
    if n > 0 {
      BurstRepeats(x, n - 1);
    }
  }

  /**
   The exact condition. Calls at these times, processed in this order, each as often as one likes,
   keep a limit of one whatever the order, and any higher limit exactly when no call misses another.
   */
  lemma LimitIsKeptIffNothingMissed(times: Times, limit: nat, window: real)
    requires limit > 0
    ensures KeepsTheLimit(times, limit, window) <==> limit == 1 || NothingMissed(times, window)
  {
    hide MemoryAllowedIn;
    if limit == 1 {
      forall run: Times, source: seq<nat>, t: real | Follows(run, times, source)
        ensures MemoryAllowedIn(run, t, limit, window) <= limit
      {
        LimitOfOneAlwaysHolds(run, t, window);
      }
    } else if NothingMissed(times, window) {
      forall run: Times, source: seq<nat>, t: real | Follows(run, times, source)
        ensures MemoryAllowedIn(run, t, limit, window) <= limit
      {
        NothingMissedByFollowing(run, times, source, window);
        MemoryWindowBound(run, t, limit, window);
      }
    } else {
      var k, i, j :| 0 <= k < i < j < |times| && Misses(times, window, k, i, j);
      MissingRunFollows(times, k, i, j, limit);
      var source :| Follows(MissingRun(times[k], times[i], times[j], limit), times, source);
      var t := if times[k] <= times[j] then times[k] else times[j];
      MissedCallsExceedTheLimit(times[k], times[i], times[j], t, limit, window);
    }
  }

  lemma MissingRunFollows(times: Times, k: nat, i: nat, j: nat, n: nat)
    requires k < i < j < |times|
    ensures exists source :: Follows(MissingRun(times[k], times[i], times[j], n), times, source)
  {
    var source := seq(n, m => k) + [i, j];
    BurstRepeats(times[k], n);
    assert Follows(MissingRun(times[k], times[i], times[j], n), times, source);
  }

  // ---------- the Redis fixed window ----------

  datatype Counter = Absent | Present(count: nat, expiresAt: Option<real>)

  /** The time to live has passed; a key that lingers is still there at the very instant of its expiry. */
  predicate Expired(expiry: real, now: real, lingers: bool) {
    if lingers then now > expiry else now >= expiry
  }

  function Visible(c: Counter, now: real, lingers: bool): Counter {
    if c.Present? && c.expiresAt.Some? && Expired(c.expiresAt.value, now, lingers) then Absent else c
  }

  function Incremented(c: Counter, now: real, lingers: bool): (n: nat)
    ensures n > 0
  {
    match Visible(c, now, lingers)
    case Absent => 1
    case Present(count, _) => count + 1
  }

  /** The script: INCR, then EXPIRE when the key is new or has no time to live. */
  function AfterScript(c: Counter, now: real, window: real, lingers: bool): Counter {
    var n, entry := Incremented(c, now, lingers), Visible(c, now, lingers);
    if n == 1 || entry.Absent? || entry.expiresAt.None?
    then if window <= 0.0 then Absent else Present(n, Some(now + window))
    else Present(n, entry.expiresAt)
  }

  predicate ScriptLimited(c: Counter, now: real, limit: int, lingers: bool) {
    Incremented(c, now, lingers) > limit
  }

  function CounterAfter(times: Times, window: real, lingers: bool): Counter {
    if times == [] then Absent else AfterScript(CounterAfter(Front(times), window, lingers), Last(times), window, lingers)
  }

  predicate Counted(x: real, lo: real, strict: bool) {
    if strict then x > lo else x >= lo
  }

  /** Allowed calls from `lo` on; `strict` leaves out the instant `lo` itself. */
  function AllowedSince(times: Times, lo: real, strict: bool, limit: int, window: real, lingers: bool): nat {
    if times == [] then 0
    else
      AllowedSince(Front(times), lo, strict, limit, window, lingers)
      + (if Counted(Last(times), lo, strict) && !ScriptLimited(CounterAfter(Front(times), window, lingers), Last(times), limit, lingers)
         then 1 else 0)
  }

  lemma {:induction false} AllowedSinceShrinks(times: Times, lo: real, hi: real, strict: bool, limit: int, window: real, lingers: bool)
    requires lo <= hi
    ensures AllowedSince(times, hi, strict, limit, window, lingers) <= AllowedSince(times, lo, strict, limit, window, lingers)
    ensures (forall i :: 0 <= i < |times| ==> times[i] < hi) ==> AllowedSince(times, hi, strict, limit, window, lingers) == 0
    decreases |times|
  {
    if times != [] {
      AllowedSinceShrinks(Front(times), lo, hi, strict, limit, window, lingers);
      assert forall i :: 0 <= i < |times| - 1 ==> Front(times)[i] == times[i];
    }
  }

  lemma {:induction false} LaterIsStrictlyLater(
      times: Times, lo: real, hi: real, strict: bool, limit: int, window: real, lingers: bool)
    requires lo < hi
    ensures AllowedSince(times, hi, strict, limit, window, lingers) <= AllowedSince(times, lo, true, limit, window, lingers)
    decreases |times|
  {
    if times != [] {
      LaterIsStrictlyLater(Front(times), lo, hi, strict, limit, window, lingers);
    }
  }

  /**
   The window invariant. With `s` the start of the current window: the calls allowed since `s`
   are paid for by the counter, and those allowed since `s - window` by two windows. When keys
   linger, the window before started more than a window ago, so its first call is not among them.
   */
  predicate WindowInv(times: Times, strict: bool, limit: int, window: real, lingers: bool) {
    match CounterAfter(times, window, lingers)
    case Absent => times == []
    case Present(_, None) => false
    case Present(n, Some(expiry)) =>
      var s, slack, twice := expiry - window, if strict then 1 else 0, if strict || lingers then 1 else 0;
      && n > 0
      && times != [] && s <= Last(times) && !Expired(expiry, Last(times), lingers)
      && AllowedSince(times, s, strict, limit, window, lingers) <= Min(n, limit) - slack
      && AllowedSince(times, s - window, strict, limit, window, lingers) <= limit + Min(n, limit) - twice
  }

  lemma SameWindowStep(times: Times, strict: bool, limit: int, window: real, lingers: bool)
    requires times != [] && limit > 0 && window > 0.0
    requires WindowInv(Front(times), strict, limit, window, lingers) && Front(times) != []
    requires Last(Front(times)) <= Last(times)
    requires !Expired(CounterAfter(Front(times), window, lingers).expiresAt.value, Last(times), lingers)
    ensures WindowInv(times, strict, limit, window, lingers)
  {
    var before := CounterAfter(Front(times), window, lingers);
    assert CounterAfter(times, window, lingers) == Present(before.count + 1, before.expiresAt);
  }

  /** When a window starts at `now`, the one before it is the only other one of the last two. */
  lemma PreviousWindow(front: Times, now: real, strict: bool, limit: int, window: real, lingers: bool)
    requires limit > 0 && window > 0.0 && Monotone(front)
    requires WindowInv(front, strict, limit, window, lingers) && WindowInv(front, true, limit, window, lingers)
    requires Visible(CounterAfter(front, window, lingers), now, lingers).Absent? && (front != [] ==> Last(front) <= now)
    ensures AllowedSince(front, now, strict, limit, window, lingers) == 0
    ensures AllowedSince(front, now - window, strict, limit, window, lingers) <= limit - (if strict || lingers then 1 else 0)
  {
    var before := CounterAfter(front, window, lingers);
    if before.Present? {
      hide CounterAfter, AllowedSince;
      MonotonePrefix(front);
      AllowedSinceShrinks(front, before.expiresAt.value - window, now - window, strict, limit, window, lingers);
      AllowedSinceShrinks(front, now, now, strict, limit, window, lingers);
      if lingers {
        LaterIsStrictlyLater(front, before.expiresAt.value - window, now - window, strict, limit, window, lingers);
      }
    }
  }

  lemma NewWindowStep(times: Times, strict: bool, limit: int, window: real, lingers: bool)
    requires times != [] && limit > 0 && window > 0.0 && Monotone(times)
    requires WindowInv(Front(times), strict, limit, window, lingers) && WindowInv(Front(times), true, limit, window, lingers)
    requires Visible(CounterAfter(Front(times), window, lingers), Last(times), lingers).Absent?
    ensures WindowInv(times, strict, limit, window, lingers)
  {
    var front, now := Front(times), Last(times);
    MonotonePrefix(times);
    assert front != [] ==> Last(front) == times[|times| - 2];
    PreviousWindow(front, now, strict, limit, window, lingers);
    assert CounterAfter(times, window, lingers) == Present(1, Some(now + window));
  }

  lemma {:induction false} WindowInvHolds(times: Times, strict: bool, limit: int, window: real, lingers: bool)
    requires Monotone(times) && limit > 0 && window > 0.0
    ensures WindowInv(times, strict, limit, window, lingers)
    decreases |times|
  {
    if times != [] {
      var front := Front(times);
      MonotonePrefix(times);
      WindowInvHolds(front, strict, limit, window, lingers);
      WindowInvHolds(front, true, limit, window, lingers);
      if Visible(CounterAfter(front, window, lingers), Last(times), lingers).Absent? {
        NewWindowStep(times, strict, limit, window, lingers);
      } else {
        assert Last(front) == times[|times| - 2];
        SameWindowStep(times, strict, limit, window, lingers);
      }
    }
  }

  /** Call `k` starts the window in which the calls from it to the last one are counted. */
  predicate StartsTheWindow(times: Times, k: nat, window: real, lingers: bool) {
    && k < |times| && (forall i :: k <= i < |times| ==> !Expired(times[k] + window, times[i], lingers))
    && (k == 0 || exists j :: 0 <= j < k && StartsTheWindow(times[..k], j, window, lingers) && Expired(times[j] + window, times[k], lingers))
  }

  lemma WindowGoesOn(times: Times, k: nat, window: real, lingers: bool)
    requires times != [] && StartsTheWindow(Front(times), k, window, lingers) && !Expired(times[k] + window, Last(times), lingers)
    ensures StartsTheWindow(times, k, window, lingers)
  {
    hide Expired;
    assert times[..k] == Front(times)[..k];
  }

  lemma WindowStarts(times: Times, j: nat, window: real, lingers: bool)
    requires window > 0.0 && times != [] && j < |times| - 1
    requires StartsTheWindow(Front(times), j, window, lingers) && Expired(times[j] + window, Last(times), lingers)
    ensures StartsTheWindow(times, |times| - 1, window, lingers)
  {
    assert times[..|times| - 1] == Front(times);
  }

  /**
   A window is fixed: it starts with the first call after the one before has expired, lasts for its length from
   that call on, whatever calls follow, and the counter counts all calls since.
   */
  lemma {:induction false} CounterCountsFromTheStart(times: Times, window: real, lingers: bool) returns (k: nat)
    requires Monotone(times) && times != [] && window > 0.0
    ensures StartsTheWindow(times, k, window, lingers)
    ensures CounterAfter(times, window, lingers) == Present(|times| - k, Some(times[k] + window))
    decreases |times|
  {
    hide CounterAfter, StartsTheWindow, Monotone, AfterScript, Expired;
    var front, now := Front(times), Last(times);
    MonotonePrefix(times);
    ScriptCounts(times, window, lingers);
    if front == [] {
      k := 0;
      FirstCallStarts(times, window, lingers);
    } else {
      var j := CounterCountsFromTheStart(front, window, lingers);
      StartIsACall(front, j, window, lingers);
      if Expired(times[j] + window, now, lingers) {
        k := |front|;
        WindowStarts(times, j, window, lingers);
      } else {
        k := j;
        WindowGoesOn(times, j, window, lingers);
      }
    }
  }

  lemma FirstCallStarts(times: Times, window: real, lingers: bool)
    requires |times| == 1 && window > 0.0
    ensures StartsTheWindow(times, 0, window, lingers)
  {
  }

  /** One run of the script on a counter that expires: it counts on, or starts again when the counter has expired. */
  lemma ScriptCounts(times: Times, window: real, lingers: bool)
    requires times != [] && window > 0.0
    ensures var before, now := CounterAfter(Front(times), window, lingers), Last(times);
      && (Front(times) == [] ==> CounterAfter(times, window, lingers) == Present(1, Some(now + window)))
      && (before.Present? && before.expiresAt.Some? && before.count > 0 ==>
            CounterAfter(times, window, lingers)
            == if Expired(before.expiresAt.value, now, lingers) then Present(1, Some(now + window))
               else Present(before.count + 1, before.expiresAt))
  {
    hide Expired;
  }

  lemma StartIsACall(times: Times, k: nat, window: real, lingers: bool)
    requires StartsTheWindow(times, k, window, lingers)
    ensures k < |times|
  {
  }

  /** A call is refused exactly when its window, itself included, then holds more calls than the limit. */
  lemma RefusedIffWindowIsFull(times: Times, now: real, limit: int, window: real, lingers: bool) returns (k: nat)
    requires Monotone(times + [now]) && window > 0.0
    ensures StartsTheWindow(times + [now], k, window, lingers)
    ensures ScriptLimited(CounterAfter(times, window, lingers), now, limit, lingers) <==> |times| + 1 - k > limit
  {
    var all := times + [now];
    assert Front(all) == times && Last(all) == now;
    k := CounterCountsFromTheStart(all, window, lingers);
    assert CounterAfter(all, window, lingers) == AfterScript(CounterAfter(times, window, lingers), now, window, lingers);
    hide CounterAfter, StartsTheWindow;
  }

  /** Calls let through from `t` to `t + window`, the end included or left out. */
  function ScriptAllowedIn(times: Times, t: real, closed: bool, limit: int, window: real, lingers: bool): nat {
    if times == [] then 0
    else
      var now := Last(times);
      ScriptAllowedIn(Front(times), t, closed, limit, window, lingers)
      + (if t <= now && (if closed then now <= t + window else now < t + window)
            && !ScriptLimited(CounterAfter(Front(times), window, lingers), now, limit, lingers) then 1 else 0)
  }

  lemma {:induction false} AllowedInIsAllowedSince(
      times: Times, t: real, lo: real, closed: bool, strict: bool, limit: int, window: real, lingers: bool)
    requires if strict then lo < t else lo <= t
    ensures ScriptAllowedIn(times, t, closed, limit, window, lingers) <= AllowedSince(times, lo, strict, limit, window, lingers)
    decreases |times|
  {
    if times != [] {
      AllowedInIsAllowedSince(Front(times), t, lo, closed, strict, limit, window, lingers);
    }
  }

  /**
   For every call sequence: at most 2 * limit in a closed interval of window length, and one less
   in a half-open one or when keys linger at the instant of their expiry.
   */
  lemma {:induction false} ScriptWindowBound(times: Times, t: real, closed: bool, limit: int, window: real, lingers: bool)
    requires Monotone(times) && limit > 0 && window > 0.0
    ensures ScriptAllowedIn(times, t, closed, limit, window, lingers) <= (if closed && !lingers then 2 * limit else 2 * limit - 1)
    decreases |times|
  {
    if times != [] {
      var front, now := Front(times), Last(times);
      MonotonePrefix(times);
      ScriptWindowBound(front, t, closed, limit, window, lingers);
      if t <= now && (if closed then now <= t + window else now < t + window) {
        WindowInvHolds(times, !closed, limit, window, lingers);
        var s := CounterAfter(times, window, lingers).expiresAt.value - window;
        AllowedInIsAllowedSince(times, t, s - window, closed, !closed, limit, window, lingers);
      }
    }
  }

  lemma {:induction false} BurstIsMonotone(times: Times, x: real, n: nat)
    requires Monotone(times) && forall i :: 0 <= i < |times| ==> times[i] <= x
    ensures Monotone(Burst(times, x, n)) && forall i :: 0 <= i < |Burst(times, x, n)| ==> Burst(times, x, n)[i] <= x
  {
    if n > 0 {
      BurstIsMonotone(times, x, n - 1);
    }
  }

  /** One more call of the script. */
  lemma ScriptStep(times: Times, now: real, t: real, limit: int, window: real, lingers: bool)
    ensures var after, before := times + [now], CounterAfter(times, window, lingers);
      && CounterAfter(after, window, lingers) == AfterScript(before, now, window, lingers)
      && ScriptAllowedIn(after, t, true, limit, window, lingers)
           == ScriptAllowedIn(times, t, true, limit, window, lingers)
              + (if t <= now <= t + window && !ScriptLimited(before, now, limit, lingers) then 1 else 0)
  {
    hide AfterScript, ScriptLimited;
    assert Front(times + [now]) == times;
  }

  /** Calls that fit into the running window are all let through. */
  lemma {:induction false} FillWindow(
      prefix: Times, count: nat, expiry: real, x: real, n: nat, t: real, limit: int, window: real, lingers: bool)
    requires window > 0.0 && 0 < count && count + n <= limit
    requires CounterAfter(prefix, window, lingers) == Present(count, Some(expiry)) && !Expired(expiry, x, lingers)
    requires t <= x <= t + window
    ensures CounterAfter(Burst(prefix, x, n), window, lingers) == Present(count + n, Some(expiry))
    ensures ScriptAllowedIn(Burst(prefix, x, n), t, true, limit, window, lingers)
         == ScriptAllowedIn(prefix, t, true, limit, window, lingers) + n
    decreases n
  {
    hide CounterAfter, ScriptAllowedIn, Expired;
    if n > 0 {
      FillWindow(prefix, count, expiry, x, n - 1, t, limit, window, lingers);
      ScriptStep(Burst(prefix, x, n - 1), x, t, limit, window, lingers);
    }
  }

  lemma FullWindow(prefix: Times, x: real, n: nat, t: real, limit: int, window: real, lingers: bool)
    requires window > 0.0 && 0 < n <= limit && Visible(CounterAfter(prefix, window, lingers), x, lingers) == Absent
    requires t <= x <= t + window
    ensures CounterAfter(Burst(prefix, x, n), window, lingers) == Present(n, Some(x + window))
    ensures ScriptAllowedIn(Burst(prefix, x, n), t, true, limit, window, lingers)
         == ScriptAllowedIn(prefix, t, true, limit, window, lingers) + n
  {
    hide CounterAfter, ScriptAllowedIn, Burst;
    ScriptStep(prefix, x, t, limit, window, lingers);
    FillWindow(prefix + [x], 1, x + window, x, n - 1, t, limit, window, lingers);
    BurstAfterOne(prefix, x, n - 1);
  }

  lemma {:induction false} BurstAfterOne(prefix: Times, x: real, n: nat)
    ensures Burst(prefix + [x], x, n) == Burst(prefix, x, n + 1)
  {
    if n > 0 {
      BurstAfterOne(prefix, x, n - 1);
    } else {
      assert Burst(prefix, x, 0) == prefix;
    }
  }

  /** Without lingering keys the bound is reached: a full window, then another at the instant it expires. */
  lemma TwoWindowsReachTheBound(limit: int, window: real)
    requires limit > 0 && window > 0.0
    ensures var times := Burst(Burst([], 0.0, limit), window, limit);
      Monotone(times) && ScriptAllowedIn(times, 0.0, true, limit, window, false) == 2 * limit
  {
    var first := Burst([], 0.0, limit);
    BurstIsMonotone([], 0.0, limit);
    BurstIsMonotone(first, window, limit);
    FullWindow([], 0.0, limit, 0.0, limit, window, false);
    FullWindow(first, window, limit, 0.0, limit, window, false);
  }

  /** With lingering keys so is the bound below it: one call, the rest of its window at its end, then a full window. */
  lemma LingeringWindowsReachTheBound(limit: int, window: real)
    requires limit > 0 && window > 0.0
    ensures var times := Burst(Burst([0.0], window, limit - 1), window + window, limit);
      Monotone(times) && ScriptAllowedIn(times, window, true, limit, window, true) == 2 * limit - 1
  {
    hide CounterAfter, ScriptAllowedIn, Burst, Monotone;
    LateBurstsAreMonotone(limit, window);
    FirstLateBurst(limit, window);
    FullWindow(Burst([0.0], window, limit - 1), window + window, limit, window, limit, window, true);
  }

  lemma FirstLateBurst(limit: nat, window: real)
    requires limit > 0 && window > 0.0
    ensures var filled := Burst([0.0], window, limit - 1);
      && ScriptAllowedIn(filled, window, true, limit, window, true) == limit - 1
      && Visible(CounterAfter(filled, window, true), window + window, true) == Absent
  {
    hide CounterAfter, ScriptAllowedIn, Burst;
    LingeringStart(limit, window);
    FillWindow([0.0], 1, window, window, limit - 1, window, limit, window, true);
  }

  lemma LingeringStart(limit: int, window: real)
    requires limit > 0 && window > 0.0
    ensures CounterAfter([0.0], window, true) == Present(1, Some(window))
    ensures ScriptAllowedIn([0.0], window, true, limit, window, true) == 0
  {
    assert CounterAfter([], window, true) == Absent && ScriptAllowedIn([], window, true, limit, window, true) == 0;
    hide CounterAfter, ScriptAllowedIn;
    ScriptStep([], 0.0, window, limit, window, true);
    assert [] + [0.0] == [0.0];
  }

  lemma LateBurstsAreMonotone(limit: nat, window: real)
    requires limit > 0 && window > 0.0
    ensures Monotone(Burst(Burst([0.0], window, limit - 1), window + window, limit))
  {
    hide Burst;
    var filled := Burst([0.0], window, limit - 1);
    BurstIsMonotone([0.0], window, limit - 1);
    assert forall i :: 0 <= i < |filled| ==> filled[i] <= window + window;
    BurstIsMonotone(filled, window + window, limit);
  }

  /** A window of zero or less deletes the counter at once, so nothing is ever limited. */
  lemma {:induction false} EmptyWindowNeverLimits(times: Times, now: real, limit: int, window: real, lingers: bool)
    requires limit > 0 && window <= 0.0
    ensures !ScriptLimited(CounterAfter(times, window, lingers), now, limit, lingers)
    ensures CounterAfter(times, window, lingers) == Absent
    decreases |times|
  {
    if times != [] {
      EmptyWindowNeverLimits(Front(times), Last(times), limit, window, lingers);
    }
  }

  class RedisLimiter {
    var counters: map<string, Counter>
    const lingers: bool

    constructor (lingers: bool)
      ensures this.lingers == lingers && counters == map[]
    {
      this.lingers := lingers;
      counters := map[];
    }

    function Stored(key: string): Counter
      reads this
    {
      if key in counters then counters[key] else Absent
    }

    method IsRateLimited(key: string, now: real, limit: int, window: int) returns (limited: bool)
      modifies this
      ensures limit <= 0 ==> !limited && counters == old(counters)
      ensures limit > 0 ==> limited == ScriptLimited(old(Stored(key)), now, limit, lingers)
      ensures limit > 0 ==> counters == old(counters)[key := AfterScript(old(Stored(key)), now, window as real, lingers)]
    {
      if limit <= 0 {
        return false;
      }
      // INCR
      var entry := Visible(Stored(key), now, lingers);
      var n := if entry.Present? then entry.count + 1 else 1;
      var expiry := if entry.Present? then entry.expiresAt else None;
      // EXPIRE
      if n == 1 || expiry.None? {
        if window <= 0 {
          counters := counters[key := Absent];
        } else {
          counters := counters[key := Present(n, Some(now + window as real))];
        }
      } else {
        counters := counters[key := Present(n, expiry)];
      }
      limited := n > limit;
    }
  }
}
