/** Token bucket limiter: each key owns a reservoir of `capacity` tokens that
    refills at one token per second and is spent one token per allowed request.
    The store holds, per key, the pair (tokens, last_refill); the refill and the
    spend run as one atomic script against it. */
module TokenBucket {
  import opened Store

  const DEFAULT_CAPACITY: int := 10
  /** Tokens added per elapsed second (the source's constant 1.0). */
  const REFILL_RATE: int := 1
  const DEFAULT_WINDOW_SECONDS: int := 60
  /** Idle horizon after which the store drops a bucket, in seconds. */
  const BUCKET_TTL: int := 3600
  const KEY_PREFIX: string := "token_bucket:"

  /** The hash stored under `token_bucket:{key}`: fields `tokens` and `last_refill`.
      Token counts stay integral because `now` is whole seconds and the rate is 1. */
  datatype Bucket = Bucket(tokens: int, lastRefill: int)

  datatype Decision = Decision(allowed: bool, bucket: Option<Bucket>)

  /** Tokens available at `now`: a missing bucket starts full with its last
      refill at `now`; otherwise elapsed seconds are added, capped at capacity. */
  function Refilled(stored: Option<Bucket>, capacity: int, now: int): (tokens: int)
    ensures tokens <= capacity
    ensures stored.None? ==> tokens == capacity
    ensures stored.Some? ==>
      var grown := stored.value.tokens + (now - stored.value.lastRefill) * REFILL_RATE;
      tokens <= grown && (tokens == capacity || tokens == grown)
  {
    var current := if stored.Some? then stored.value.tokens else capacity;
    var last := if stored.Some? then stored.value.lastRefill else now;
    Min(capacity, current + (now - last) * REFILL_RATE)
  }

  /** One run of the script on the bucket it read: spend a token when at least
      one is available, otherwise deny and leave the bucket as it was. */
  function Consume(stored: Option<Bucket>, capacity: int, now: int): (d: Decision)
    ensures d.allowed <==> Refilled(stored, capacity, now) >= 1
    ensures d.allowed ==> d.bucket == Some(Bucket(Refilled(stored, capacity, now) - 1, now))
    ensures d.allowed ==> 0 <= d.bucket.value.tokens <= capacity - 1
    ensures !d.allowed ==> d.bucket == stored
  {
    var tokens := Refilled(stored, capacity, now);
    if tokens >= 1 then Decision(true, Some(Bucket(tokens - 1, now)))
    else Decision(false, stored)
  }

  /** The decision the script takes on the store as it stands at `now`. */
  function Allows(buckets: map<string, Entry<Bucket>>, bucketKey: string, capacity: int, now: int): (allowed: bool)
    ensures allowed <==> Refilled(Read(buckets, bucketKey, now), capacity, now) >= 1
    ensures !Live(buckets, bucketKey, now) ==> (allowed <==> capacity >= 1)
  {
    Consume(Read(buckets, bucketKey, now), capacity, now).allowed
  }

  /** The store after the script: on allow the bucket is rewritten with a fresh
      one-hour expiry; on deny nothing is written. */
  function Next(buckets: map<string, Entry<Bucket>>, bucketKey: string, capacity: int, now: int)
    : (after: map<string, Entry<Bucket>>)
    ensures !Allows(buckets, bucketKey, capacity, now) ==> after == buckets
    ensures Allows(buckets, bucketKey, capacity, now) ==>
      && bucketKey in after
      && after[bucketKey].expireAt == now + BUCKET_TTL
      && after[bucketKey].value == Bucket(Refilled(Read(buckets, bucketKey, now), capacity, now) - 1, now)
    ensures forall k :: k != bucketKey ==> (k in after <==> k in buckets)
    ensures forall k :: k != bucketKey && k in buckets ==> after[k] == buckets[k]
  {
    var d := Consume(Read(buckets, bucketKey, now), capacity, now);
    if d.allowed then buckets[bucketKey := Entry(d.bucket.value, now + BUCKET_TTL)] else buckets
  }

  /** Every stored bucket holds between 0 and capacity - 1 tokens. */
  ghost predicate Within(buckets: map<string, Entry<Bucket>>, capacity: int)
  {
    forall k :: k in buckets ==> 0 <= buckets[k].value.tokens <= capacity - 1
  }

  /** The stored token count stays within [0, capacity - 1] across any call. */
  lemma NextKeepsWithin(buckets: map<string, Entry<Bucket>>, bucketKey: string, capacity: int, now: int)
    requires Within(buckets, capacity)
    ensures Within(Next(buckets, bucketKey, capacity, now), capacity)
  {
  }

  /** The first request on a key with no live bucket is allowed whenever the
      capacity is at least one, and leaves capacity - 1 tokens behind. */
  lemma FirstRequestAllowed(buckets: map<string, Entry<Bucket>>, bucketKey: string, capacity: int, now: int)
    requires !Live(buckets, bucketKey, now)
    requires capacity >= 1
    ensures Allows(buckets, bucketKey, capacity, now)
    ensures Read(Next(buckets, bucketKey, capacity, now), bucketKey, now) == Some(Bucket(capacity - 1, now))
  {
  }

  /** A bucket that still holds no negative count and was last refilled at
      least one second ago always admits the next request. */
  lemma RefillAdmits(buckets: map<string, Entry<Bucket>>, bucketKey: string, capacity: int, now: int)
    requires bucketKey in buckets
    requires buckets[bucketKey].value.tokens >= 0
    requires now - buckets[bucketKey].value.lastRefill >= 1
    requires capacity >= 1
    ensures Allows(buckets, bucketKey, capacity, now)
  {
  }

  /** A denial writes nothing, so repeating the same check gives the same answer. */
  lemma DenialIsIdempotent(buckets: map<string, Entry<Bucket>>, bucketKey: string, capacity: int, now: int)
    requires !Allows(buckets, bucketKey, capacity, now)
    ensures Next(buckets, bucketKey, capacity, now) == buckets
    ensures !Allows(Next(buckets, bucketKey, capacity, now), bucketKey, capacity, now)
  {
  }

  /** Number of requests allowed among `n` issued one after another at `now`. */
  function Burst(buckets: map<string, Entry<Bucket>>, bucketKey: string, capacity: int, now: int, n: nat): nat
    decreases n
  {
    if n == 0 then 0
    else
      (if Allows(buckets, bucketKey, capacity, now) then 1 else 0)
      + Burst(Next(buckets, bucketKey, capacity, now), bucketKey, capacity, now, n - 1)
  }

  /** From a live bucket refilled at `now` holding `t` tokens, a burst at `now`
      admits exactly min(n, t) requests. */
  lemma {:induction false} BurstFromBucket(buckets: map<string, Entry<Bucket>>, bucketKey: string, capacity: int, now: int, n: nat, t: int)
    requires Live(buckets, bucketKey, now)
    requires buckets[bucketKey].value == Bucket(t, now)
    requires t <= capacity
    ensures Burst(buckets, bucketKey, capacity, now, n) == Max(Min(n, t), 0)
    decreases n
  {
    if n > 0 {
      var after := Next(buckets, bucketKey, capacity, now);
      if t >= 1 {
        BurstFromBucket(after, bucketKey, capacity, now, n - 1, t - 1);
      } else {
        BurstFromBucket(after, bucketKey, capacity, now, n - 1, t);
      }
    }
  }

  /** Of n requests issued at the same instant against a key with no live
      bucket, exactly min(n, capacity) are allowed (none if capacity < 1). */
  lemma {:induction false} BurstOnFreshKey(buckets: map<string, Entry<Bucket>>, bucketKey: string, capacity: int, now: int, n: nat)
    requires !Live(buckets, bucketKey, now)
    ensures Burst(buckets, bucketKey, capacity, now, n) == Min(n, Max(capacity, 0))
    decreases n
  {
    if n > 0 {
      var after := Next(buckets, bucketKey, capacity, now);
      if capacity >= 1 {
        BurstFromBucket(after, bucketKey, capacity, now, n - 1, capacity - 1);
      } else {
        BurstOnFreshKey(after, bucketKey, capacity, now, n - 1);
      }
    }
  }

  /** Number of requests allowed when one request is issued at each instant
      of `times`, in order. */
  function Run(buckets: map<string, Entry<Bucket>>, bucketKey: string, capacity: int, times: seq<int>): nat
    decreases |times|
  {
    if times == [] then 0
    else
      (if Allows(buckets, bucketKey, capacity, times[0]) then 1 else 0)
      + Run(Next(buckets, bucketKey, capacity, times[0]), bucketKey, capacity, times[1..])
  }

  /** Accounting invariant of a run that started at `t0`, after `used`
      admissions and with the latest request at `prev`: either nothing was
      admitted and the key has no live bucket, or the bucket written by the
      run holds `tokens` with used + tokens <= capacity + (lastRefill - t0). */
  ghost predicate Accounted(buckets: map<string, Entry<Bucket>>, bucketKey: string, capacity: int,
                            t0: int, used: int, prev: int)
  {
    && t0 <= prev
    && ((used == 0 && !Live(buckets, bucketKey, prev))
        || (&& bucketKey in buckets
            && var b := buckets[bucketKey].value;
            && buckets[bucketKey].expireAt == b.lastRefill + BUCKET_TTL
            && 0 <= b.tokens
            && t0 <= b.lastRefill <= prev
            && used + b.tokens <= Max(capacity, 0) + (b.lastRefill - t0)))
  }

  lemma StepKeepsAccounted(buckets: map<string, Entry<Bucket>>, bucketKey: string, capacity: int,
                           t0: int, used: int, prev: int, now: int)
    requires capacity <= BUCKET_TTL
    requires Accounted(buckets, bucketKey, capacity, t0, used, prev)
    requires prev <= now
    ensures Accounted(Next(buckets, bucketKey, capacity, now), bucketKey, capacity, t0,
                      used + (if Allows(buckets, bucketKey, capacity, now) then 1 else 0), now)
  {
  }

  lemma {:induction false} RunAccounted(buckets: map<string, Entry<Bucket>>, bucketKey: string, capacity: int,
                                        t0: int, used: int, prev: int, times: seq<int>)
    requires capacity <= BUCKET_TTL
    requires Accounted(buckets, bucketKey, capacity, t0, used, prev)
    requires NonDecreasing(times)
    requires times != [] ==> prev <= times[0]
    ensures used + Run(buckets, bucketKey, capacity, times)
            <= Max(capacity, 0) + ((if times == [] then prev else times[|times| - 1]) - t0)
    decreases |times|
  {
    if times != [] {
      var now := times[0];
      StepKeepsAccounted(buckets, bucketKey, capacity, t0, used, prev, now);
      var used' := used + (if Allows(buckets, bucketKey, capacity, now) then 1 else 0);
      RunAccounted(Next(buckets, bucketKey, capacity, now), bucketKey, capacity, t0, used', now, times[1..]);
    }
  }

  /** Over any run of requests at non-decreasing instants against a key with no
      live bucket, at most capacity + (elapsed seconds * refill rate) requests
      are allowed. This needs capacity <= 3600: a bucket idle for the one-hour
      expiry is dropped by the store and restarts full, which exceeds what the
      refill would have given only when capacity > 3600. */
  lemma RunBound(buckets: map<string, Entry<Bucket>>, bucketKey: string, capacity: int, times: seq<int>)
    requires capacity <= BUCKET_TTL
    requires times != []
    requires NonDecreasing(times)
    requires !Live(buckets, bucketKey, times[0])
    ensures Run(buckets, bucketKey, capacity, times)
            <= Max(capacity, 0) + (times[|times| - 1] - times[0]) * REFILL_RATE
  {
    RunAccounted(buckets, bucketKey, capacity, times[0], 0, times[0], times);
  }

  /** The limiter object: the store's token-bucket hashes, keyed by
      `token_bucket:{key}`, each with its expiry. */
  class TokenBucketRateLimiter {
    var buckets: map<string, Entry<Bucket>>

    constructor()
      ensures buckets == map[]
    {
      buckets := map[];
    }

    /** The refill/consume script, run atomically: read the hash fields (or
        their defaults), refill, then spend one token and write back, or deny. */
    method RunScript(bucketKey: string, now: int, capacity: int) returns (reply: int)
      modifies this
      ensures reply == (if Allows(old(buckets), bucketKey, capacity, now) then 1 else 0)
      ensures buckets == Next(old(buckets), bucketKey, capacity, now)
    {
      var bucketData := Read(buckets, bucketKey, now);
      var currentTokens := if bucketData.Some? then bucketData.value.tokens else capacity;
      var lastRefill := if bucketData.Some? then bucketData.value.lastRefill else now;

      var timePassed := now - lastRefill;
      var tokensToAdd := timePassed * REFILL_RATE;
      currentTokens := Min(capacity, currentTokens + tokensToAdd);

      if currentTokens >= 1 {
        currentTokens := currentTokens - 1;
        buckets := buckets[bucketKey := Entry(Bucket(currentTokens, now), now + BUCKET_TTL)];
        reply := 1;
      } else {
        reply := 0;
      }
    }

    /** `isAllowed(key, limit, windowSeconds)`: `limit` is the capacity and
        `windowSeconds` is never passed to the script. */
    method IsAllowed(key: string, limit: int, windowSeconds: int, now: nat) returns (allowed: bool)
      modifies this
      ensures allowed == Allows(old(buckets), KEY_PREFIX + key, limit, now)
      ensures buckets == Next(old(buckets), KEY_PREFIX + key, limit, now)
      ensures old(Within(buckets, limit)) ==> Within(buckets, limit)
    {
      var bucketKey := KEY_PREFIX + key;
      if Within(buckets, limit) {
        NextKeepsWithin(buckets, bucketKey, limit, now);
      }
      var reply := RunScript(bucketKey, now, limit);
      allowed := ReplyAllowed(Some(reply));
    }

    /** `isAllowed(key)`: capacity 10, window 60. */
    method IsAllowedDefault(key: string, now: nat) returns (allowed: bool)
      modifies this
      ensures allowed == Allows(old(buckets), KEY_PREFIX + key, DEFAULT_CAPACITY, now)
      ensures buckets == Next(old(buckets), KEY_PREFIX + key, DEFAULT_CAPACITY, now)
    {
      allowed := IsAllowed(key, DEFAULT_CAPACITY, DEFAULT_WINDOW_SECONDS, now);
    }
  }
}
