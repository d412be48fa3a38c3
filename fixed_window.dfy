/** Fixed window counter limiter: each key owns an integer counter, created on
    the first admission and dropped by the store `windowSeconds` after the
    latest admission. The counter is not keyed by the window start. */
module FixedWindow {
  import opened Store

  const DEFAULT_LIMIT: int := 10
  const DEFAULT_WINDOW_SECONDS: int := 60
  const KEY_PREFIX: string := "fixed_window:"

  /** Kotlin's `Long` division: the quotient is truncated toward zero. */
  function KotlinDiv(a: int, b: int): (q: int)
    requires b != 0
    ensures Abs(q) == Abs(a) / Abs(b)
    ensures q > 0 ==> (a > 0) == (b > 0)
    ensures q < 0 ==> (a > 0) != (b > 0)
    ensures a >= 0 && b > 0 ==> q == a / b
  {
    var d := Abs(a) / Abs(b);
    QuotientOfNaturals(Abs(a), Abs(b));
    if (a >= 0) == (b > 0) then d else -d
  }

  /** The quotient of naturals is a natural, and zero when the dividend is. */
  lemma QuotientOfNaturals(x: nat, y: nat)
    requires y > 0
    ensures x / y >= 0
    ensures x == 0 ==> x / y == 0
  {
  }

  /** `(now / windowSeconds) * windowSeconds`: the start of the aligned window
      holding `now`, whatever the sign of the window length. */
  function WindowStart(now: nat, windowSeconds: int): (start: int)
    requires windowSeconds != 0
    ensures start <= now < start + Abs(windowSeconds)
    ensures start % Abs(windowSeconds) == 0
  {
    var w := Abs(windowSeconds);
    var q := KotlinDiv(now, windowSeconds);
    assert q * windowSeconds == (now / w) * w by {
      if windowSeconds < 0 {
        assert q == -(now / w) && windowSeconds == -(w as int);
      }
    }
    AlignedBelow(now, w);
    q * windowSeconds
  }

  /** `(n / w) * w` is the multiple of `w` at or just below `n`. */
  lemma AlignedBelow(n: nat, w: nat)
    requires w > 0
    ensures (n / w) * w <= n < (n / w) * w + w
    ensures ((n / w) * w) % w == 0
  {
    var q := n / w;
    assert n == q * w + n % w;
    var x := q * w;
    var d := q - x / w;
    assert d * w == x % w by {
      assert x == (x / w) * w + x % w;
      assert d * w == q * w - (x / w) * w;
    }
    assert d >= 1 ==> d * w >= w;
    assert d <= -1 ==> d * w <= -(w as int);
  }

  /** The count a read at `now` sees: a missing or expired counter reads 0. */
  function CountAt(counters: map<string, Entry<int>>, windowKey: string, now: int): (count: int)
    ensures !Live(counters, windowKey, now) ==> count == 0
    ensures Live(counters, windowKey, now) ==> count == counters[windowKey].value
  {
    match Read(counters, windowKey, now)
    case Some(c) => c
    case None => 0
  }

  /** The script's decision: admit while the count is below the limit. */
  function Admits(counters: map<string, Entry<int>>, windowKey: string, limit: int, now: int): (admit: bool)
    ensures admit ==> CountAt(counters, windowKey, now) + 1 <= limit
    ensures !Live(counters, windowKey, now) ==> (admit <==> limit >= 1)
  {
    CountAt(counters, windowKey, now) < limit
  }

  /** The store after the script: on allow INCR raises the count by one and
      EXPIRE restarts its lifetime at `windowSeconds`; on deny nothing changes. */
  function Next(counters: map<string, Entry<int>>, windowKey: string, limit: int, windowSeconds: int, now: int)
    : (after: map<string, Entry<int>>)
    ensures !Admits(counters, windowKey, limit, now) ==> after == counters
    ensures Admits(counters, windowKey, limit, now) ==>
      && windowKey in after
      && after[windowKey].value == CountAt(counters, windowKey, now) + 1
      && after[windowKey].value <= limit
      && after[windowKey].expireAt == now + windowSeconds
    ensures forall k :: k != windowKey ==> (k in after <==> k in counters)
    ensures forall k :: k != windowKey && k in counters ==> after[k] == counters[k]
  {
    if Admits(counters, windowKey, limit, now)
    then counters[windowKey := Entry(CountAt(counters, windowKey, now) + 1, now + windowSeconds)]
    else counters
  }

  /** No stored counter exceeds the limit. */
  ghost predicate AtMost(counters: map<string, Entry<int>>, limit: int)
  {
    forall k :: k in counters ==> counters[k].value <= limit
  }

  /** A counter that is at most the limit before a call is at most the limit after it. */
  lemma NextKeepsAtMost(counters: map<string, Entry<int>>, windowKey: string, limit: int, windowSeconds: int, now: int)
    requires AtMost(counters, limit)
    ensures AtMost(Next(counters, windowKey, limit, windowSeconds, now), limit)
  {
  }

  /** Once the counter has expired, a request is admitted again (for any
      positive limit) and the count restarts at one. */
  lemma ExpiredCounterAdmits(counters: map<string, Entry<int>>, windowKey: string, limit: int, windowSeconds: int, now: int)
    requires !Live(counters, windowKey, now)
    requires limit >= 1
    ensures Admits(counters, windowKey, limit, now)
    ensures Next(counters, windowKey, limit, windowSeconds, now)[windowKey] == Entry(1, now + windowSeconds)
  {
  }

  /** A denial writes nothing, so repeating the same check gives the same answer. */
  lemma DenialIsIdempotent(counters: map<string, Entry<int>>, windowKey: string, limit: int, windowSeconds: int, now: int)
    requires !Admits(counters, windowKey, limit, now)
    ensures Next(counters, windowKey, limit, windowSeconds, now) == counters
    ensures !Admits(Next(counters, windowKey, limit, windowSeconds, now), windowKey, limit, now)
  {
  }

  /** The counter is shared by consecutive aligned windows: with limit 1 and a
      60-second window, an admission at second 59 makes a request at second
      60, which lies in the next window, be denied. */
  lemma CounterOutlivesWindow(counters: map<string, Entry<int>>, windowKey: string)
    requires !Live(counters, windowKey, 59)
    ensures Admits(counters, windowKey, 1, 59)
    ensures WindowStart(59, 60) == 0 && WindowStart(60, 60) == 60
    ensures !Admits(Next(counters, windowKey, 1, 60, 59), windowKey, 1, 60)
  {
  }

  /** Number of requests admitted when one request is issued at each instant
      of `times`, in order. */
  function Run(counters: map<string, Entry<int>>, windowKey: string, limit: int, windowSeconds: int, times: seq<int>): nat
    decreases |times|
  {
    if times == [] then 0
    else
      (if Admits(counters, windowKey, limit, times[0]) then 1 else 0)
      + Run(Next(counters, windowKey, limit, windowSeconds, times[0]), windowKey, limit, windowSeconds, times[1..])
  }

  /** Invariant of a run inside [t0, t0 + windowSeconds) after `used`
      admissions, the latest request being at `prev`: either nothing was
      admitted and no counter is live, or the counter holds exactly `used`
      and stays live until the span ends. */
  ghost predicate Counted(counters: map<string, Entry<int>>, windowKey: string, windowSeconds: int,
                          t0: int, used: int, prev: int)
  {
    && t0 <= prev
    && ((used == 0 && !Live(counters, windowKey, prev))
        || (windowKey in counters
            && counters[windowKey].value == used
            && counters[windowKey].expireAt >= t0 + windowSeconds))
  }

  lemma {:induction false} RunCounted(counters: map<string, Entry<int>>, windowKey: string, limit: int, windowSeconds: int,
                                      t0: int, used: int, prev: int, times: seq<int>)
    requires Counted(counters, windowKey, windowSeconds, t0, used, prev)
    requires 0 <= used <= Max(limit, 0)
    requires NonDecreasing(times)
    requires forall i :: 0 <= i < |times| ==> prev <= times[i] < t0 + windowSeconds
    ensures used + Run(counters, windowKey, limit, windowSeconds, times) == Min(used + |times|, Max(limit, 0))
    decreases |times|
  {
    if times != [] {
      var now := times[0];
      var admitted := Admits(counters, windowKey, limit, now);
      var after := Next(counters, windowKey, limit, windowSeconds, now);
      var used' := used + (if admitted then 1 else 0);
      assert Counted(after, windowKey, windowSeconds, t0, used', now);
      RunCounted(after, windowKey, limit, windowSeconds, t0, used', now, times[1..]);
    }
  }

  /** Of the requests issued within one window length of the first, against
      a key whose counter is missing or live at 0, exactly min(n, limit) are
      admitted; requests at a single instant are the special case. */
  lemma AdmitsExactlyLimit(counters: map<string, Entry<int>>, windowKey: string, limit: int, windowSeconds: int, times: seq<int>)
    requires times != []
    requires NonDecreasing(times)
    requires times[|times| - 1] < times[0] + windowSeconds
    requires !Live(counters, windowKey, times[0])
             || (windowKey in counters && counters[windowKey].value == 0
                 && counters[windowKey].expireAt >= times[0] + windowSeconds)
    ensures Run(counters, windowKey, limit, windowSeconds, times) == Min(|times|, Max(limit, 0))
  {
    RunCounted(counters, windowKey, limit, windowSeconds, times[0], 0, times[0], times);
  }

  /** The limiter object: the store's counters, keyed by `fixed_window:{key}`,
      each with its expiry. */
  class FixedWindowRateLimiter {
    var counters: map<string, Entry<int>>

    constructor()
      ensures counters == map[]
    {
      counters := map[];
    }

    /** The GET/INCR/EXPIRE script, run atomically. `windowStart` is handed to
        the script but never read by it. */
    method RunScript(windowKey: string, windowStart: int, limit: int, windowSeconds: int, now: int)
      returns (reply: int)
      modifies this
      ensures reply == (if Admits(old(counters), windowKey, limit, now) then 1 else 0)
      ensures counters == Next(old(counters), windowKey, limit, windowSeconds, now)
    {
      var currentCount := CountAt(counters, windowKey, now);
      if currentCount < limit {
        // INCR counts a missing key from 0; EXPIRE then restarts its lifetime.
        counters := counters[windowKey := Entry(currentCount + 1, now + windowSeconds)];
        reply := 1;
      } else {
        reply := 0;
      }
    }

    /** `isAllowed(key, limit, windowSeconds)`. Computing the window start
        divides by `windowSeconds`, which throws when it is 0. */
    method IsAllowed(key: string, limit: int, windowSeconds: int, now: nat) returns (r: Result<bool>)
      modifies this
      ensures windowSeconds == 0 ==> r == Err(ArithmeticException("/ by zero")) && counters == old(counters)
      ensures windowSeconds != 0 ==>
        && r == Ok(Admits(old(counters), KEY_PREFIX + key, limit, now))
        && counters == Next(old(counters), KEY_PREFIX + key, limit, windowSeconds, now)
      ensures old(AtMost(counters, limit)) ==> AtMost(counters, limit)
    {
      var windowKey := KEY_PREFIX + key;
      if windowSeconds == 0 {
        return Err(ArithmeticException("/ by zero"));
      }
      var windowStart := WindowStart(now, windowSeconds);
      if AtMost(counters, limit) {
        NextKeepsAtMost(counters, windowKey, limit, windowSeconds, now);
      }
      var reply := RunScript(windowKey, windowStart, limit, windowSeconds, now);
      r := Ok(ReplyAllowed(Some(reply)));
    }

    /** `isAllowed(key)`: limit 10, window 60. */
    method IsAllowedDefault(key: string, now: nat) returns (allowed: bool)
      modifies this
      ensures allowed == Admits(old(counters), KEY_PREFIX + key, DEFAULT_LIMIT, now)
      ensures counters == Next(old(counters), KEY_PREFIX + key, DEFAULT_LIMIT, DEFAULT_WINDOW_SECONDS, now)
    {
      var r := IsAllowed(key, DEFAULT_LIMIT, DEFAULT_WINDOW_SECONDS, now);
      allowed := r.value;
    }
  }
}
