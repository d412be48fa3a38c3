/** Sliding window log limiter: each key owns a log of the instants at which
    requests were admitted. Every call first drops the entries that fell out of
    the trailing window, then admits only while fewer than `limit` remain. */
module SlidingWindow {
  import opened Store

  const DEFAULT_LIMIT: int := 10
  const DEFAULT_WINDOW_SECONDS: int := 60
  const KEY_PREFIX: string := "sliding_window:"

  /** The sorted set under `sliding_window:{key}`, as the scores of its members.
      The model assumes the store keeps one member per admission: a member is
      the score plus a random suffix, and two suffixes drawn in the same second
      are taken to differ. */
  type Log = seq<nat>

  /** `ZREMRANGEBYSCORE key 0 windowStart` removes the scores in [0, windowStart]. */
  predicate Stale(t: int, windowStart: int)
  {
    0 <= t <= windowStart
  }

  /** The log with its stale entries removed, order kept. */
  function Purge(log: Log, windowStart: int): (kept: Log)
    ensures forall i :: 0 <= i < |kept| ==> !Stale(kept[i], windowStart)
    ensures |kept| <= |log|
    decreases |log|
  {
    if log == [] then []
    else if Stale(log[0], windowStart) then Purge(log[1..], windowStart)
    else [log[0]] + Purge(log[1..], windowStart)
  }

  /** The purge removes exactly the stale entries: every instant outside
      [0, windowStart] keeps all its occurrences, every stale one loses them all. */
  lemma {:induction false} PurgeCounts(log: Log, windowStart: int)
    ensures forall t :: multiset(Purge(log, windowStart))[t] == if Stale(t, windowStart) then 0 else multiset(log)[t]
    decreases |log|
  {
    if log != [] {
      PurgeCounts(log[1..], windowStart);
      assert log == [log[0]] + log[1..];
      assert multiset(log) == multiset([log[0]]) + multiset(log[1..]);
    }
  }

  lemma {:induction false} PurgeAppend(a: Log, b: Log, windowStart: int)
    ensures Purge(a + b, windowStart) == Purge(a, windowStart) + Purge(b, windowStart)
    decreases |a|
  {
    if a != [] {
      assert (a + b)[0] == a[0];
      assert (a + b)[1..] == a[1..] + b;
      PurgeAppend(a[1..], b, windowStart);
      var rest := Purge(a[1..], windowStart) + Purge(b, windowStart);
      if Stale(a[0], windowStart) {
        assert Purge(a + b, windowStart) == rest;
      } else {
        assert Purge(a + b, windowStart) == [a[0]] + rest;
        assert Purge(a, windowStart) == [a[0]] + Purge(a[1..], windowStart);
        assert [a[0]] + rest == ([a[0]] + Purge(a[1..], windowStart)) + Purge(b, windowStart);
      }
    } else {
      assert a + b == b;
    }
  }

  /** Purging at an earlier cut-off and then at a later one is purging at the later one. */
  lemma {:induction false} PurgeTwice(log: Log, earlier: int, later: int)
    requires earlier <= later
    ensures Purge(Purge(log, earlier), later) == Purge(log, later)
    decreases |log|
  {
    if log != [] {
      PurgeTwice(log[1..], earlier, later);
      if !Stale(log[0], earlier) {
        assert ([log[0]] + Purge(log[1..], earlier))[1..] == Purge(log[1..], earlier);
      }
    }
  }

  /** A later cut-off leaves no more entries than an earlier one. */
  lemma PurgeShrinks(log: Log, earlier: int, later: int)
    requires earlier <= later
    ensures |Purge(log, later)| <= |Purge(log, earlier)|
  {
    PurgeTwice(log, earlier, later);
  }

  lemma {:induction false} PurgeAllStale(log: Log, windowStart: int)
    requires forall i :: 0 <= i < |log| ==> log[i] <= windowStart
    ensures Purge(log, windowStart) == []
    decreases |log|
  {
    if log != [] {
      PurgeAllStale(log[1..], windowStart);
    }
  }

  /** The log a read at `now` sees: a missing or expired key reads as empty. */
  function LogAt(logs: map<string, Entry<Log>>, logKey: string, now: int): Log
  {
    match Read(logs, logKey, now)
    case Some(log) => log
    case None => []
  }

  /** The entries left after the purge at `windowStart`; their number is what ZCARD returns. */
  function Remaining(logs: map<string, Entry<Log>>, logKey: string, now: int, windowStart: int): (kept: Log)
    ensures forall i :: 0 <= i < |kept| ==> kept[i] > windowStart
    ensures forall t :: t > windowStart ==> multiset(kept)[t] == multiset(LogAt(logs, logKey, now))[t]
    ensures !Live(logs, logKey, now) ==> kept == []
  {
    PurgeCounts(LogAt(logs, logKey, now), windowStart);
    Purge(LogAt(logs, logKey, now), windowStart)
  }

  /** The entries a call at `now` counts: the log as read at `now`, purged
      at `now - windowSeconds`. */
  function Window(logs: map<string, Entry<Log>>, logKey: string, windowSeconds: int, now: int): Log
  {
    Remaining(logs, logKey, now, now - windowSeconds)
  }

  /** The script's decision: admit while fewer than `limit` entries remain. */
  function Admits(logs: map<string, Entry<Log>>, logKey: string, limit: int, now: int, windowStart: int): (admit: bool)
    ensures admit ==> |Remaining(logs, logKey, now, windowStart)| + 1 <= limit
    ensures !Live(logs, logKey, now) ==> (admit <==> limit >= 1)
    ensures limit <= 0 ==> !admit
  {
    |Remaining(logs, logKey, now, windowStart)| < limit
  }

  /** The store after ZREMRANGEBYSCORE alone: the stale entries are gone, the
      expiry is untouched, and a set left empty is deleted. */
  function Purged(logs: map<string, Entry<Log>>, logKey: string, now: int, windowStart: int)
    : (after: map<string, Entry<Log>>)
    ensures LogAt(after, logKey, now) == Remaining(logs, logKey, now, windowStart)
    ensures logKey in after ==> logKey in logs && after[logKey].expireAt == logs[logKey].expireAt
    ensures forall k :: k != logKey ==> (k in after <==> k in logs)
    ensures forall k :: k != logKey && k in logs ==> after[k] == logs[k]
  {
    var kept := Remaining(logs, logKey, now, windowStart);
    if !Live(logs, logKey, now) then logs
    else if kept == [] then logs - {logKey}
    else logs[logKey := Entry(kept, logs[logKey].expireAt)]
  }

  /** The store after the whole script: purge; then, on allow, append `now`
      and set the lifetime to twice the window. */
  function Next(logs: map<string, Entry<Log>>, logKey: string, limit: int, windowSeconds: int,
                now: nat, windowStart: int): (after: map<string, Entry<Log>>)
    ensures Admits(logs, logKey, limit, now, windowStart) ==>
            logKey in after
            && after[logKey] == Entry(Remaining(logs, logKey, now, windowStart) + [now], now + 2 * windowSeconds)
    ensures !Admits(logs, logKey, limit, now, windowStart) && logKey in after ==>
            logKey in logs && after[logKey].expireAt == logs[logKey].expireAt
    ensures forall k :: k != logKey ==> (k in after <==> k in logs)
    ensures forall k :: k != logKey && k in logs ==> after[k] == logs[k]
  {
    var kept := Remaining(logs, logKey, now, windowStart);
    var purged := Purged(logs, logKey, now, windowStart);
    if |kept| < limit then purged[logKey := Entry(kept + [now], now + windowSeconds * 2)]
    else purged
  }

  /** A denied call changes the store only by the purge. */
  lemma DenyOnlyPurges(logs: map<string, Entry<Log>>, logKey: string, limit: int, windowSeconds: int,
                       now: nat, windowStart: int)
    ensures !Admits(logs, logKey, limit, now, windowStart) ==>
            Next(logs, logKey, limit, windowSeconds, now, windowStart) == Purged(logs, logKey, now, windowStart)
  {
  }

  /** What the key's log reads as at any instant from `now` on, after the
      call at `now`: on allow the purged log plus `now` until the new expiry;
      on deny only the purged log, for as long as the old expiry allows. */
  lemma NextLog(logs: map<string, Entry<Log>>, logKey: string, limit: int, windowSeconds: int,
                now: nat, windowStart: int, later: int)
    requires now <= later
    ensures LogAt(Next(logs, logKey, limit, windowSeconds, now, windowStart), logKey, later) ==
            if Admits(logs, logKey, limit, now, windowStart) then
              (if later < now + 2 * windowSeconds then Remaining(logs, logKey, now, windowStart) + [now] else [])
            else if Live(logs, logKey, later) then Remaining(logs, logKey, now, windowStart)
            else []
  {
  }

  /** After any call, nothing the key's log shows at `now` is older than the window. */
  lemma NothingStaleAfterCall(logs: map<string, Entry<Log>>, logKey: string, limit: int, windowSeconds: int, now: nat)
    requires windowSeconds > 0
    ensures var log := LogAt(Next(logs, logKey, limit, windowSeconds, now, now - windowSeconds), logKey, now);
            forall i :: 0 <= i < |log| ==> log[i] > now - windowSeconds
  {
    NextLog(logs, logKey, limit, windowSeconds, now, now - windowSeconds, now);
  }

  /** If the in-window count is at most the limit before a call, it is at most
      the limit after it, at that instant and at every later one. */
  lemma CountStaysWithinLimit(logs: map<string, Entry<Log>>, logKey: string, limit: int, windowSeconds: int,
                              now: nat, later: nat)
    requires windowSeconds > 0
    requires now <= later
    requires |Remaining(logs, logKey, now, now - windowSeconds)| <= limit
    ensures |Remaining(Next(logs, logKey, limit, windowSeconds, now, now - windowSeconds), logKey, later, later - windowSeconds)|
            <= limit
  {
    var ws := now - windowSeconds;
    var after := Next(logs, logKey, limit, windowSeconds, now, ws);
    var kept := Remaining(logs, logKey, now, ws);
    PurgeTwice(LogAt(logs, logKey, now), ws, ws);
    if Live(after, logKey, later) {
      assert LogAt(after, logKey, later) == LogAt(after, logKey, now);
      PurgeShrinks(LogAt(after, logKey, now), ws, later - windowSeconds);
      if Admits(logs, logKey, limit, now, ws) {
        PurgeAppend(kept, [now], ws);
        assert Purge([now], ws) == [now];
      }
    }
  }

  /** A denial leaves the decision unchanged: re-running the same check at the
      same instant denies again, because the purge it did is already done. */
  lemma DenialIsIdempotent(logs: map<string, Entry<Log>>, logKey: string, limit: int, windowSeconds: int,
                           now: nat, windowStart: int)
    requires !Admits(logs, logKey, limit, now, windowStart)
    ensures !Admits(Next(logs, logKey, limit, windowSeconds, now, windowStart), logKey, limit, now, windowStart)
  {
    PurgeTwice(LogAt(logs, logKey, now), windowStart, windowStart);
  }

  /** The stored log agrees with the history `admitted` of all admission
      instants: from `prev` on, at every instant the entries inside the
      trailing window are exactly the admitted ones inside it. */
  ghost predicate Tracks(logs: map<string, Entry<Log>>, logKey: string, admitted: Log,
                         windowSeconds: int, prev: int)
  {
    && (forall i :: 0 <= i < |admitted| ==> admitted[i] <= prev)
    && (forall now: int :: now >= prev ==>
          Window(logs, logKey, windowSeconds, now) == Purge(admitted, now - windowSeconds))
  }

  /** One admitting call, seen at an instant `later` before the new lifetime
      ends: the window holds the admissions inside it, the new one included. */
  lemma AdmitTracksWhileLive(logs: map<string, Entry<Log>>, logKey: string, admitted: Log, limit: int,
                             windowSeconds: int, now: nat, later: int)
    requires now <= later < now + 2 * windowSeconds
    requires Remaining(logs, logKey, now, now - windowSeconds) == Purge(admitted, now - windowSeconds)
    requires Admits(logs, logKey, limit, now, now - windowSeconds)
    ensures Window(Next(logs, logKey, limit, windowSeconds, now, now - windowSeconds), logKey, windowSeconds, later)
            == Purge(admitted + [now], later - windowSeconds)
  {
    var ws, ws' := now - windowSeconds, later - windowSeconds;
    var kept := Remaining(logs, logKey, now, ws);
    NextLog(logs, logKey, limit, windowSeconds, now, ws, later);
    PurgeAppend(admitted, [now], ws');
    PurgeAppend(kept, [now], ws');
    PurgeTwice(admitted, ws, ws');
  }

  /** One admitting call, seen once its new lifetime has ended: the key reads
      as empty, and every admission is outside the window by then. */
  lemma AdmitTracksAfterExpiry(logs: map<string, Entry<Log>>, logKey: string, admitted: Log, limit: int,
                               windowSeconds: int, now: nat, later: int)
    requires windowSeconds > 0
    requires now + 2 * windowSeconds <= later
    requires forall i :: 0 <= i < |admitted| ==> admitted[i] <= now
    requires Admits(logs, logKey, limit, now, now - windowSeconds)
    ensures Window(Next(logs, logKey, limit, windowSeconds, now, now - windowSeconds), logKey, windowSeconds, later)
            == Purge(admitted + [now], later - windowSeconds)
  {
    var ws' := later - windowSeconds;
    NextLog(logs, logKey, limit, windowSeconds, now, now - windowSeconds, later);
    var admitted' := admitted + [now];
    assert forall i :: 0 <= i < |admitted'| ==> admitted'[i] <= ws';
    PurgeAllStale(admitted', ws');
  }

  /** StepTracksAt when the call denies: the new log is the purged log while
      the old lifetime lasts, and nothing after it. */
  lemma DenyTracksAt(logs: map<string, Entry<Log>>, logKey: string, admitted: Log, limit: int,
                     windowSeconds: int, now: nat, later: int)
    requires windowSeconds > 0
    requires now <= later
    requires Remaining(logs, logKey, now, now - windowSeconds) == Purge(admitted, now - windowSeconds)
    requires Window(logs, logKey, windowSeconds, later) == Purge(admitted, later - windowSeconds)
    requires !Admits(logs, logKey, limit, now, now - windowSeconds)
    ensures Window(Next(logs, logKey, limit, windowSeconds, now, now - windowSeconds), logKey, windowSeconds, later)
            == Purge(admitted, later - windowSeconds)
  {
    var ws, ws' := now - windowSeconds, later - windowSeconds;
    NextLog(logs, logKey, limit, windowSeconds, now, ws, later);
    if Live(logs, logKey, later) {
      PurgeTwice(admitted, ws, ws');
    }
  }

  /** A store that tracks the history decides as the history says: admit iff
      fewer than `limit` earlier admissions lie in (now - windowSeconds, now]. */
  lemma DecisionFollowsHistory(logs: map<string, Entry<Log>>, logKey: string, admitted: Log, limit: int,
                               windowSeconds: int, prev: int, now: nat)
    requires prev <= now
    requires Tracks(logs, logKey, admitted, windowSeconds, prev)
    ensures Admits(logs, logKey, limit, now, now - windowSeconds)
            <==> |Purge(admitted, now - windowSeconds)| < limit
  {
    assert Window(logs, logKey, windowSeconds, now) == Purge(admitted, now - windowSeconds);
  }

  /** One call keeps the stored log in step with the admission history
      extended by its decision. Expiry of the key never loses an entry that is
      still inside the window. */
  lemma StepTracks(logs: map<string, Entry<Log>>, logKey: string, admitted: Log, limit: int,
                   windowSeconds: int, prev: int, now: nat)
    requires windowSeconds > 0
    requires prev <= now
    requires Tracks(logs, logKey, admitted, windowSeconds, prev)
    ensures Tracks(Next(logs, logKey, limit, windowSeconds, now, now - windowSeconds), logKey,
                   if Admits(logs, logKey, limit, now, now - windowSeconds) then admitted + [now] else admitted,
                   windowSeconds, now)
  {
    var ws := now - windowSeconds;
    var after := Next(logs, logKey, limit, windowSeconds, now, ws);
    var admitted' := if Admits(logs, logKey, limit, now, ws) then admitted + [now] else admitted;
    assert Window(logs, logKey, windowSeconds, now) == Purge(admitted, ws);
    forall later: int | later >= now
      ensures Window(after, logKey, windowSeconds, later) == Purge(admitted', later - windowSeconds)
    {
      if !Admits(logs, logKey, limit, now, ws) {
        DenyTracksAt(logs, logKey, admitted, limit, windowSeconds, now, later);
      } else if later < now + 2 * windowSeconds {
        AdmitTracksWhileLive(logs, logKey, admitted, limit, windowSeconds, now, later);
      } else {
        AdmitTracksAfterExpiry(logs, logKey, admitted, limit, windowSeconds, now, later);
      }
    }
  }

  /** The admission history and the store after one request at each instant of `times`. */
  datatype Trace = Trace(logs: map<string, Entry<Log>>, admitted: Log)

  /** One more request at `now`: the store after the call, and the history
      extended by `now` when it was admitted. */
  function Step(t: Trace, logKey: string, limit: int, windowSeconds: int, now: nat): Trace
  {
    var admits := Admits(t.logs, logKey, limit, now, now - windowSeconds);
    Trace(Next(t.logs, logKey, limit, windowSeconds, now, now - windowSeconds),
          if admits then t.admitted + [now] else t.admitted)
  }

  function Replay(logs: map<string, Entry<Log>>, logKey: string, limit: int, windowSeconds: int,
                  times: seq<nat>): Trace
    decreases |times|
  {
    if times == [] then Trace(logs, [])
    else Step(Replay(logs, logKey, limit, windowSeconds, times[..|times| - 1]), logKey, limit, windowSeconds,
              times[|times| - 1])
  }

  /** The run invariant at the request at `at`: the store tracks the history,
      and at most `limit` admissions lie in the window ending at `at`. */
  ghost predicate Sound(t: Trace, logKey: string, limit: int, windowSeconds: int, at: int)
  {
    && Tracks(t.logs, logKey, t.admitted, windowSeconds, at)
    && |Purge(t.admitted, at - windowSeconds)| <= Max(limit, 0)
  }

  /** A key with no live log agrees with the empty history from then on. */
  lemma FreshTracks(logs: map<string, Entry<Log>>, logKey: string, windowSeconds: int, t0: int)
    requires !Live(logs, logKey, t0)
    ensures Tracks(logs, logKey, [], windowSeconds, t0)
  {
    forall later: int | later >= t0
      ensures Window(logs, logKey, windowSeconds, later) == Purge([], later - windowSeconds)
    {
      assert !Live(logs, logKey, later);
    }
  }

  /** StepTracks together with the window bound: if at most `limit`
      admissions lay in the window at the previous request, at most `limit`
      lie in the window of this one after it is decided. */
  lemma BoundedStep(t: Trace, logKey: string, limit: int, windowSeconds: int, prev: int, now: nat)
    requires windowSeconds > 0
    requires prev <= now
    requires Sound(t, logKey, limit, windowSeconds, prev)
    ensures Sound(Step(t, logKey, limit, windowSeconds, now), logKey, limit, windowSeconds, now)
  {
    StepTracks(t.logs, logKey, t.admitted, limit, windowSeconds, prev, now);
    DecisionFollowsHistory(t.logs, logKey, t.admitted, limit, windowSeconds, prev, now);
    PurgeShrinks(t.admitted, prev - windowSeconds, now - windowSeconds);
    if Admits(t.logs, logKey, limit, now, now - windowSeconds) {
      PurgeAppend(t.admitted, [now], now - windowSeconds);
      assert Purge([now], now - windowSeconds) == [now];
    }
  }

  /** After the first `n` requests of a run from a key with no live log, the
      store tracks the admission history, and at most `limit` admissions lie in
      the window ending at the latest request. */
  lemma {:induction false} ReplayTracks(logs: map<string, Entry<Log>>, logKey: string, limit: int,
                                        windowSeconds: int, times: seq<nat>, n: nat)
    requires windowSeconds > 0
    requires NonDecreasing(times)
    requires 0 < n <= |times|
    requires !Live(logs, logKey, times[0])
    ensures Sound(Replay(logs, logKey, limit, windowSeconds, times[..n]), logKey, limit, windowSeconds, times[n - 1])
    decreases n
  {
    assert times[..n][..n - 1] == times[..n - 1];
    var before := Replay(logs, logKey, limit, windowSeconds, times[..n - 1]);
    assert Replay(logs, logKey, limit, windowSeconds, times[..n]) == Step(before, logKey, limit, windowSeconds, times[n - 1]);
    if n == 1 {
      assert before == Trace(logs, []);
      FreshTracks(logs, logKey, windowSeconds, times[0]);
      BoundedStep(before, logKey, limit, windowSeconds, times[0], times[0]);
    } else {
      ReplayTracks(logs, logKey, limit, windowSeconds, times, n - 1);
      BoundedStep(before, logKey, limit, windowSeconds, times[n - 2], times[n - 1]);
    }
  }

  /** Sliding-window exactness over a whole run of requests at non-decreasing
      instants, starting from a key with no live log: request `i` is admitted
      iff fewer than `limit` earlier admissions lie in its trailing window. */
  lemma AdmitsIffRoomInWindow(logs: map<string, Entry<Log>>, logKey: string, limit: int,
                              windowSeconds: int, times: seq<nat>, i: nat)
    requires windowSeconds > 0
    requires NonDecreasing(times)
    requires i < |times|
    requires !Live(logs, logKey, times[0])
    ensures var before := Replay(logs, logKey, limit, windowSeconds, times[..i]);
            Admits(before.logs, logKey, limit, times[i], times[i] - windowSeconds)
            <==> |Purge(before.admitted, times[i] - windowSeconds)| < limit
  {
    var before := Replay(logs, logKey, limit, windowSeconds, times[..i]);
    if i == 0 {
      assert before == Trace(logs, []);
      FreshTracks(logs, logKey, windowSeconds, times[0]);
      DecisionFollowsHistory(logs, logKey, [], limit, windowSeconds, times[0], times[0]);
    } else {
      ReplayTracks(logs, logKey, limit, windowSeconds, times, i);
      DecisionFollowsHistory(before.logs, logKey, before.admitted, limit, windowSeconds, times[i - 1], times[i]);
    }
  }

  /** In any run of requests at non-decreasing instants from a key with no
      live log, at most `limit` admissions lie in the window ending at any
      request. */
  lemma WindowNeverExceedsLimit(logs: map<string, Entry<Log>>, logKey: string, limit: int,
                                windowSeconds: int, times: seq<nat>, i: nat)
    requires windowSeconds > 0
    requires NonDecreasing(times)
    requires i < |times|
    requires !Live(logs, logKey, times[0])
    ensures |Purge(Replay(logs, logKey, limit, windowSeconds, times[..i + 1]).admitted, times[i] - windowSeconds)|
            <= Max(limit, 0)
  {
    ReplayTracks(logs, logKey, limit, windowSeconds, times, i + 1);
  }

  /** The limiter object: the store's sorted sets, keyed by
      `sliding_window:{key}`, each with its expiry. */
  class SlidingWindowRateLimiter {
    var logs: map<string, Entry<Log>>

    constructor()
      ensures logs == map[]
    {
      logs := map[];
    }

    /** The ZREMRANGEBYSCORE/ZCARD/ZADD script, run atomically. */
    method RunScript(logKey: string, now: nat, windowStart: int, limit: int, windowSeconds: int)
      returns (reply: int)
      modifies this
      ensures reply == (if Admits(old(logs), logKey, limit, now, windowStart) then 1 else 0)
      ensures logs == Next(old(logs), logKey, limit, windowSeconds, now, windowStart)
    {
      // Remove old entries outside the window; an emptied set disappears.
      var log := LogAt(logs, logKey, now);
      var kept := Purge(log, windowStart);
      if Live(logs, logKey, now) {
        if kept == [] {
          logs := logs - {logKey};
        } else {
          logs := logs[logKey := Entry(kept, logs[logKey].expireAt)];
        }
      }
      // Count the entries left in the window.
      var currentCount := |kept|;
      if currentCount < limit {
        logs := logs[logKey := Entry(kept + [now], now + windowSeconds * 2)];
        reply := 1;
      } else {
        reply := 0;
      }
    }

    /** `isAllowed(key, limit, windowSeconds)`: the cut-off is `now - windowSeconds`. */
    method IsAllowed(key: string, limit: int, windowSeconds: int, now: nat) returns (allowed: bool)
      modifies this
      ensures allowed == Admits(old(logs), KEY_PREFIX + key, limit, now, now - windowSeconds)
      ensures logs == Next(old(logs), KEY_PREFIX + key, limit, windowSeconds, now, now - windowSeconds)
    {
      var logKey := KEY_PREFIX + key;
      var windowStart := now - windowSeconds;
      var reply := RunScript(logKey, now, windowStart, limit, windowSeconds);
      allowed := ReplyAllowed(Some(reply));
    }

    /** `isAllowed(key)`: limit 10, window 60. */
    method IsAllowedDefault(key: string, now: nat) returns (allowed: bool)
      modifies this
      ensures allowed == Admits(old(logs), KEY_PREFIX + key, DEFAULT_LIMIT, now, now - DEFAULT_WINDOW_SECONDS)
      ensures logs == Next(old(logs), KEY_PREFIX + key, DEFAULT_LIMIT, DEFAULT_WINDOW_SECONDS, now,
                           now - DEFAULT_WINDOW_SECONDS)
    {
      allowed := IsAllowed(key, DEFAULT_LIMIT, DEFAULT_WINDOW_SECONDS, now);
    }
  }
}
