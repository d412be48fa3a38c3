# Redis-backed rate limiters, modelled in Dafny

This project models the core of a Spring Boot rate limiter. It has three algorithms. Each one is a Lua script that Redis runs atomically against a per-key state:

- a **token bucket** with capacity `limit`, refilled at one token per second;
- a **fixed window counter** using GET/INCR/EXPIRE;
- a **sliding window log** using ZREMRANGEBYSCORE/ZCARD/ZADD.

Around them sit the **factory**, which maps the configured algorithm to a limiter instance, and the **aspect**. The aspect derives a rate-limit key for each annotated call: an explicit key, else `clientIp:method:path`, else `Class:method`. It then asks the limiter and either runs the call or throws `RateLimitExceededException`.

Modules:

- `Store` (`store.dfy`): the key/value store as the scripts see it. Every value carries an absolute expiry instant. A key is visible while `now < expireAt`, so `EXPIRE key ttl` at `now` sets `expireAt := now + ttl`. This module also holds the reply decoding that all three limiters share: a null reply counts as 0, and only 1 means allowed.
- `TokenBucket`, `FixedWindow` and `SlidingWindow` hold one file each. Each has pure specification functions: the decision (`Allows` or `Admits`) and the new store (`Next`). Each has a class whose `buckets`, `counters` or `logs` map is the store. The class's `RunScript` performs the script step by step. Its `IsAllowed` and `IsAllowedDefault` are the two Kotlin overloads, and both are proved equal to the specification functions. Properties over single calls and over whole request sequences are lemmas about those functions.
- `Factory` (`factory.dfy`): `getRateLimiter` as a total function over the enum, plus the fact that the three store namespaces never overlap.
- `Aspect` (`aspect.dfy`): X-Forwarded-For parsing with Kotlin's `split`/`trim` semantics, and key derivation. The class `RateLimitAspect` holds the three limiter objects. Its method `RateLimit` derives the key, dispatches, and then proceeds, rejects, or propagates the limiter's exception.

Time is whole epoch seconds, passed in as `now`. With the refill rate fixed at 1.0 and an integral `now`, token counts stay integral, so the model uses `int`.

Some behaviours of the code are kept as written:

- The fixed-window counter is not scoped by the window start. The script receives `windowStart` but never reads it. The counter therefore lives until `windowSeconds` after the latest admission, and it can span consecutive aligned windows (`FixedWindow.CounterOutlivesWindow`).
- Computing the window start divides by `windowSeconds`. It throws `ArithmeticException` when that is 0, before the store is touched.
- `generateKey` looks up the current request attributes before it considers the explicit key. So a call with no request bound to the thread throws even when the annotation names a key.

## Model

| member | source | states |
|---|---|---|
| Store.ReplyAllowed | src/main/kotlin/study/ratelimiter/ratelimiter/TokenBucketRateLimiter.kt:52-66 | The Kotlin result is true exactly when the script replied 1. A missing (null) reply means denied. |
| TokenBucket.Refilled | src/main/kotlin/study/ratelimiter/ratelimiter/TokenBucketRateLimiter.kt:32-39 | The refilled count never exceeds capacity. A missing bucket starts at capacity. Otherwise the count is min(capacity, tokens + elapsed seconds × 1). |
| TokenBucket.Consume | src/main/kotlin/study/ratelimiter/ratelimiter/TokenBucketRateLimiter.kt:41-49 | Allowed iff the refilled count is at least 1. On allow, the bucket becomes (refilled − 1, now) with tokens in [0, capacity − 1]. On deny, the stored bucket is unchanged. |
| TokenBucket.Allows | src/main/kotlin/study/ratelimiter/ratelimiter/TokenBucketRateLimiter.kt:41-42 | The script admits iff the bucket as read at `now`, after refill, holds at least one token. On a key with no live bucket it admits iff capacity ≥ 1. |
| TokenBucket.Next | src/main/kotlin/study/ratelimiter/ratelimiter/TokenBucketRateLimiter.kt:41-49 | A denial writes nothing. An allow writes the consumed bucket with a 3600-second lifetime. Every other key is untouched. |
| TokenBucket.NextKeepsWithin | src/main/kotlin/study/ratelimiter/ratelimiter/TokenBucketRateLimiter.kt:43-44 | If every stored count is in [0, capacity − 1] before a call, that still holds after it. |
| TokenBucket.FirstRequestAllowed | src/main/kotlin/study/ratelimiter/ratelimiter/TokenBucketRateLimiter.kt:33-34 | On a key with no live bucket, the first request is allowed (capacity ≥ 1) and leaves capacity − 1 tokens refilled at now. |
| TokenBucket.RefillAdmits | src/main/kotlin/study/ratelimiter/ratelimiter/TokenBucketRateLimiter.kt:37-42 | A bucket refilled at least one second ago has regained a token and admits. |
| TokenBucket.DenialIsIdempotent | src/main/kotlin/study/ratelimiter/ratelimiter/TokenBucketRateLimiter.kt:47-48 | A denied call leaves the store unchanged, so the same check at the same instant is denied again. |
| TokenBucket.BurstFromBucket | src/main/kotlin/study/ratelimiter/ratelimiter/TokenBucketRateLimiter.kt:37-48 | Of n requests at the instant of the last refill, exactly max(min(n, tokens), 0) are allowed. |
| TokenBucket.BurstOnFreshKey | src/main/kotlin/study/ratelimiter/ratelimiter/TokenBucketRateLimiter.kt:33-48 | Of n requests at one instant against a fresh key, exactly min(n, max(capacity, 0)) are allowed. |
| TokenBucket.StepKeepsAccounted | src/main/kotlin/study/ratelimiter/ratelimiter/TokenBucketRateLimiter.kt:36-48 | One call keeps this accounting invariant: admissions plus stored tokens ≤ capacity + seconds since the run began, for capacity ≤ 3600. |
| TokenBucket.RunAccounted | src/main/kotlin/study/ratelimiter/ratelimiter/TokenBucketRateLimiter.kt:36-48 | Over any non-decreasing run, admissions ≤ capacity + (last instant − start), for capacity ≤ 3600. |
| TokenBucket.RunBound | src/main/kotlin/study/ratelimiter/ratelimiter/TokenBucketRateLimiter.kt:14 | From a fresh key, a run of requests is granted at most capacity + elapsed seconds × refill rate. |
| TokenBucket.TokenBucketRateLimiter.constructor | src/main/kotlin/study/ratelimiter/ratelimiter/TokenBucketRateLimiter.kt:8-10 | The limiter starts with an empty store. |
| TokenBucket.TokenBucketRateLimiter.RunScript | src/main/kotlin/study/ratelimiter/ratelimiter/TokenBucketRateLimiter.kt:26-50 | The step-by-step script replies 1 iff `Allows`, and leaves the store equal to `Next`. |
| TokenBucket.TokenBucketRateLimiter.IsAllowed | src/main/kotlin/study/ratelimiter/ratelimiter/TokenBucketRateLimiter.kt:22-67 | Decides on `token_bucket:key` with capacity `limit`, ignoring `windowSeconds`. The result is `Allows`, the store becomes `Next`, and the [0, capacity − 1] bound is preserved. |
| TokenBucket.TokenBucketRateLimiter.IsAllowedDefault | src/main/kotlin/study/ratelimiter/ratelimiter/TokenBucketRateLimiter.kt:18-20 | The one-argument overload uses capacity 10. |
| FixedWindow.WindowStart | src/main/kotlin/study/ratelimiter/ratelimiter/FixedWindowRateLimiter.kt:24 | The window start is a multiple of the window length with start ≤ now < start + abs(windowSeconds). Kotlin's truncating division is modelled for either sign. |
| FixedWindow.AlignedBelow | src/main/kotlin/study/ratelimiter/ratelimiter/FixedWindowRateLimiter.kt:24 | (n / w) × w is the multiple of w at or just below n. |
| FixedWindow.KotlinDiv | src/main/kotlin/study/ratelimiter/ratelimiter/FixedWindowRateLimiter.kt:24 | Kotlin's `Long` division truncates toward zero: abs(q) = abs(a) / abs(b), q is positive only when a and b have the same sign and negative only when they differ, and it agrees with Dafny's division when a ≥ 0 and b > 0. |
| FixedWindow.CountAt | src/main/kotlin/study/ratelimiter/ratelimiter/FixedWindowRateLimiter.kt:33 | A missing or expired counter reads 0, and a live one reads its stored value. |
| FixedWindow.Admits | src/main/kotlin/study/ratelimiter/ratelimiter/FixedWindowRateLimiter.kt:33-36 | An admission leaves room: count + 1 ≤ limit. On a key with no live counter it admits iff limit ≥ 1. |
| FixedWindow.Next | src/main/kotlin/study/ratelimiter/ratelimiter/FixedWindowRateLimiter.kt:33-42 | A denial writes nothing. An allow sets the counter to its old value (0 if missing) + 1, which stays ≤ limit, and restarts its lifetime at windowSeconds. Other keys are untouched. |
| FixedWindow.NextKeepsAtMost | src/main/kotlin/study/ratelimiter/ratelimiter/FixedWindowRateLimiter.kt:36-37 | If every stored counter is at most the limit before a call, the same holds after it. |
| FixedWindow.ExpiredCounterAdmits | src/main/kotlin/study/ratelimiter/ratelimiter/FixedWindowRateLimiter.kt:33-38 | A missing or expired counter reads 0: the request is admitted (limit ≥ 1) and the counter restarts at 1. |
| FixedWindow.DenialIsIdempotent | src/main/kotlin/study/ratelimiter/ratelimiter/FixedWindowRateLimiter.kt:39-41 | A denial leaves counter and expiry unchanged, and the same check is denied again. |
| FixedWindow.CounterOutlivesWindow | src/main/kotlin/study/ratelimiter/ratelimiter/FixedWindowRateLimiter.kt:22-42 | The counter ignores the window start. With limit 1 and window 60, an admission at second 59 denies a request at second 60, although it lies in the next aligned window. |
| FixedWindow.RunCounted | src/main/kotlin/study/ratelimiter/ratelimiter/FixedWindowRateLimiter.kt:33-42 | Within one window length, after `used` admissions, the next n requests admit exactly min(used + n, max(limit, 0)) − used. |
| FixedWindow.AdmitsExactlyLimit | src/main/kotlin/study/ratelimiter/ratelimiter/FixedWindowRateLimiter.kt:33-42 | Take n requests within one window length of the first, against a counter that is missing or live at 0. Exactly min(n, max(limit, 0)) of them are admitted. |
| FixedWindow.FixedWindowRateLimiter.constructor | src/main/kotlin/study/ratelimiter/ratelimiter/FixedWindowRateLimiter.kt:8-10 | The limiter starts with an empty store. |
| FixedWindow.FixedWindowRateLimiter.RunScript | src/main/kotlin/study/ratelimiter/ratelimiter/FixedWindowRateLimiter.kt:26-43 | The script replies 1 iff `Admits`, and leaves the store equal to `Next`. `windowStart` is not read. |
| FixedWindow.FixedWindowRateLimiter.IsAllowed | src/main/kotlin/study/ratelimiter/ratelimiter/FixedWindowRateLimiter.kt:21-59 | With windowSeconds = 0 it throws `ArithmeticException("/ by zero")` and leaves the store untouched. Otherwise it decides on `fixed_window:key`: the result is `Admits`, the store becomes `Next`, and the counter ≤ limit bound is preserved. |
| FixedWindow.FixedWindowRateLimiter.IsAllowedDefault | src/main/kotlin/study/ratelimiter/ratelimiter/FixedWindowRateLimiter.kt:17-19 | The one-argument overload uses limit 10 and window 60. |
| SlidingWindow.Purge | src/main/kotlin/study/ratelimiter/ratelimiter/SlidingWindowRateLimiter.kt:34 | After removing scores in [0, windowStart], no stale entry remains and the log never grows. |
| SlidingWindow.PurgeCounts | src/main/kotlin/study/ratelimiter/ratelimiter/SlidingWindowRateLimiter.kt:34 | The purge drops exactly the stale scores and keeps every other score with its multiplicity. |
| SlidingWindow.PurgeAppend | src/main/kotlin/study/ratelimiter/ratelimiter/SlidingWindowRateLimiter.kt:34 | Purging a concatenation purges each part. |
| SlidingWindow.PurgeTwice | src/main/kotlin/study/ratelimiter/ratelimiter/SlidingWindowRateLimiter.kt:34 | An earlier purge followed by a later one equals the later one alone, so in particular purging is idempotent. |
| SlidingWindow.PurgeShrinks | src/main/kotlin/study/ratelimiter/ratelimiter/SlidingWindowRateLimiter.kt:34 | A later cutoff leaves no more entries than an earlier one. |
| SlidingWindow.PurgeAllStale | src/main/kotlin/study/ratelimiter/ratelimiter/SlidingWindowRateLimiter.kt:34 | A log whose scores are all ≤ the cutoff is emptied. |
| SlidingWindow.Remaining | src/main/kotlin/study/ratelimiter/ratelimiter/SlidingWindowRateLimiter.kt:34-37 | The entries ZCARD counts after the purge: all of them are later than the window start, each later score keeps its multiplicity from the log as read, and a key with no live log counts none. |
| SlidingWindow.Admits | src/main/kotlin/study/ratelimiter/ratelimiter/SlidingWindowRateLimiter.kt:37-40 | An admission leaves room: remaining + 1 ≤ limit. On a key with no live log it admits iff limit ≥ 1, and a non-positive limit never admits. |
| SlidingWindow.Purged | src/main/kotlin/study/ratelimiter/ratelimiter/SlidingWindowRateLimiter.kt:34 | After ZREMRANGEBYSCORE the key reads as the remaining entries, its expiry is unchanged, and every other key is untouched. |
| SlidingWindow.Next | src/main/kotlin/study/ratelimiter/ratelimiter/SlidingWindowRateLimiter.kt:34-46 | On allow, the key holds the purged log plus `now`, with lifetime 2 × windowSeconds. On deny, the key keeps its old expiry, and `SlidingWindow.DenyOnlyPurges` gives its contents. Other keys are untouched. |
| SlidingWindow.DenyOnlyPurges | src/main/kotlin/study/ratelimiter/ratelimiter/SlidingWindowRateLimiter.kt:34-45 | A denied call leaves the store exactly as the purge left it: stale entries dropped, an emptied set deleted, nothing added, and no expiry changed. |
| SlidingWindow.NextLog | src/main/kotlin/study/ratelimiter/ratelimiter/SlidingWindowRateLimiter.kt:34-46 | What the key's log reads at any later instant after one call, on each branch. |
| SlidingWindow.NothingStaleAfterCall | src/main/kotlin/study/ratelimiter/ratelimiter/SlidingWindowRateLimiter.kt:24-34 | After a call, every entry visible at `now` has a score > now − windowSeconds. |
| SlidingWindow.CountStaysWithinLimit | src/main/kotlin/study/ratelimiter/ratelimiter/SlidingWindowRateLimiter.kt:34-46 | If the in-window count is ≤ limit before a call, it is ≤ limit after it, at that instant and every later one. |
| SlidingWindow.DenialIsIdempotent | src/main/kotlin/study/ratelimiter/ratelimiter/SlidingWindowRateLimiter.kt:34-45 | Re-running a denied check at the same instant denies again. |
| SlidingWindow.DecisionFollowsHistory | src/main/kotlin/study/ratelimiter/ratelimiter/SlidingWindowRateLimiter.kt:37-40 | If the store tracks the admission history, a call admits iff fewer than `limit` admissions lie in (now − windowSeconds, now]. |
| SlidingWindow.DenyTracksAt | src/main/kotlin/study/ratelimiter/ratelimiter/SlidingWindowRateLimiter.kt:34-37 | After a denying call, the window at any later instant still holds exactly the admissions inside it. |
| SlidingWindow.AdmitTracksWhileLive | src/main/kotlin/study/ratelimiter/ratelimiter/SlidingWindowRateLimiter.kt:34-42 | After an admitting call, until the new 2 × windowSeconds lifetime ends, the window at any instant holds exactly the admissions inside it, the new one included. |
| SlidingWindow.AdmitTracksAfterExpiry | src/main/kotlin/study/ratelimiter/ratelimiter/SlidingWindowRateLimiter.kt:42 | Once that lifetime has ended, the key reads as empty, and no admission lies in the window any more. |
| SlidingWindow.StepTracks | src/main/kotlin/study/ratelimiter/ratelimiter/SlidingWindowRateLimiter.kt:34-46 | One call keeps the stored log in step with the history extended by its decision. Expiry of the key never loses an entry that is still inside the window. |
| SlidingWindow.FreshTracks | src/main/kotlin/study/ratelimiter/ratelimiter/SlidingWindowRateLimiter.kt:34-37 | A key with no live log agrees with the empty admission history. |
| SlidingWindow.BoundedStep | src/main/kotlin/study/ratelimiter/ratelimiter/SlidingWindowRateLimiter.kt:37-46 | One call preserves the run invariant: the store tracks the history, and at most `limit` admissions lie in the window. |
| SlidingWindow.ReplayTracks | src/main/kotlin/study/ratelimiter/ratelimiter/SlidingWindowRateLimiter.kt:24-46 | After any prefix of a non-decreasing run from a fresh key, the run invariant holds at the latest request. |
| SlidingWindow.AdmitsIffRoomInWindow | src/main/kotlin/study/ratelimiter/ratelimiter/SlidingWindowRateLimiter.kt:24-46 | In any run from a fresh key, request i is admitted exactly when fewer than `limit` earlier admissions lie in (times[i] − windowSeconds, times[i]]. |
| SlidingWindow.WindowNeverExceedsLimit | src/main/kotlin/study/ratelimiter/ratelimiter/SlidingWindowRateLimiter.kt:24-46 | In any run from a fresh key, no window ending at a request holds more than `limit` admissions. |
| SlidingWindow.SlidingWindowRateLimiter.constructor | src/main/kotlin/study/ratelimiter/ratelimiter/SlidingWindowRateLimiter.kt:8-10 | The limiter starts with an empty store. |
| SlidingWindow.SlidingWindowRateLimiter.RunScript | src/main/kotlin/study/ratelimiter/ratelimiter/SlidingWindowRateLimiter.kt:26-47 | The script (purge, drop an emptied set, count, append) replies 1 iff `Admits`, and leaves the store equal to `Next`. |
| SlidingWindow.SlidingWindowRateLimiter.IsAllowed | src/main/kotlin/study/ratelimiter/ratelimiter/SlidingWindowRateLimiter.kt:21-64 | Decides on `sliding_window:key` with cutoff now − windowSeconds. The result is `Admits` and the store becomes `Next`. |
| SlidingWindow.SlidingWindowRateLimiter.IsAllowedDefault | src/main/kotlin/study/ratelimiter/ratelimiter/SlidingWindowRateLimiter.kt:17-19 | The one-argument overload uses limit 10 and window 60. |
| Factory.GetRateLimiter | src/main/kotlin/study/ratelimiter/ratelimiter/RateLimiterFactory.kt:12-18 | Each of the three types selects its own algorithm's limiter, in both directions: a limiter is chosen only by the type of its algorithm. |
| Factory.LookupIsFaithful | src/main/kotlin/study/ratelimiter/ratelimiter/RateLimiterFactory.kt:12-18 | Each type maps to its own algorithm's limiter, and distinct types map to distinct limiters. |
| Factory.StoreKeysDisjoint | src/main/kotlin/study/ratelimiter/ratelimiter/RateLimiterFactory.kt:13-17 | The limiters for distinct types never address the same store key, whatever keys the callers pass. |
| Aspect.IsWhitespace | src/main/kotlin/study/ratelimiter/aspect/RateLimitAspect.kt:59 | Space and tab are whitespace. The comma, '.', ':', digits and ASCII letters are not, so `trim()` never cuts into an IPv4 or IPv6 address. |
| Aspect.FirstSegment | src/main/kotlin/study/ratelimiter/aspect/RateLimitAspect.kt:59 | `split(",")[0]` is the longest comma-free prefix, and a comma follows it unless it is the whole string. |
| Aspect.TrimLeading | src/main/kotlin/study/ratelimiter/aspect/RateLimitAspect.kt:59 | Removes only leading whitespace, and leaves a result that does not start with whitespace. |
| Aspect.TrimTrailing | src/main/kotlin/study/ratelimiter/aspect/RateLimitAspect.kt:59 | Removes only trailing whitespace, and leaves a result that does not end with whitespace. |
| Aspect.Trim | src/main/kotlin/study/ratelimiter/aspect/RateLimitAspect.kt:59 | The trimmed string neither starts nor ends with whitespace. |
| Aspect.TrimPadded | src/main/kotlin/study/ratelimiter/aspect/RateLimitAspect.kt:59 | Trimming whitespace padding around a word gives back exactly the word. |
| Aspect.FirstSegmentBeforeComma | src/main/kotlin/study/ratelimiter/aspect/RateLimitAspect.kt:59 | The first segment of `entry,rest` is `entry` whenever `entry` has no comma. |
| Aspect.ClientIp | src/main/kotlin/study/ratelimiter/aspect/RateLimitAspect.kt:56-62 | A missing or empty X-Forwarded-For gives the peer address. Otherwise the result has no comma and no surrounding whitespace. |
| Aspect.ClientIpReadsFirstEntry | src/main/kotlin/study/ratelimiter/aspect/RateLimitAspect.kt:56-62 | For a header made of a padded first entry and optionally more entries, the client IP is exactly that entry. |
| Aspect.RequestOf | src/main/kotlin/study/ratelimiter/aspect/RateLimitAspect.kt:38 | A request is seen exactly when the bound attributes are servlet request attributes. |
| Aspect.KeyFor | src/main/kotlin/study/ratelimiter/aspect/RateLimitAspect.kt:40-53 | The explicit key wins. Otherwise, with a request, the key is `clientIp:method:path`. Otherwise it is `Class:method`. |
| Aspect.GenerateKey | src/main/kotlin/study/ratelimiter/aspect/RateLimitAspect.kt:37-54 | It fails exactly when no request is bound to the thread, even if the annotation names a key. Otherwise it gives the `KeyFor` key. |
| Aspect.DistinctClientsDistinctKeys | src/main/kotlin/study/ratelimiter/aspect/RateLimitAspect.kt:42-47 | Two clients with different addresses on the same route get different keys. |
| Aspect.DistinctRoutesDistinctKeys | src/main/kotlin/study/ratelimiter/aspect/RateLimitAspect.kt:42-47 | One client on two different routes (method or path) gets different keys. |
| Aspect.ExplicitKeyIgnoresContext | src/main/kotlin/study/ratelimiter/aspect/RateLimitAspect.kt:41 | With an explicit key, the key does not depend on the request or the signature. |
| Aspect.DefaultAnnotation | src/main/kotlin/study/ratelimiter/annotation/RateLimit.kt:7-12 | A call site with the annotation's defaults uses the token bucket with capacity 10 and window 60, so the limiter never throws. Inside an HTTP request it is keyed by `clientIp:method:path`. |
| Aspect.Apply | src/main/kotlin/study/ratelimiter/aspect/RateLimitAspect.kt:22-28 | A call changes only the chosen limiter's store. A call that does not allow leaves the token-bucket and fixed-window stores unchanged. |
| Aspect.Decide | src/main/kotlin/study/ratelimiter/aspect/RateLimitAspect.kt:24-28 | The limiter call throws exactly when the fixed-window limiter is asked with windowSeconds = 0, with `ArithmeticException("/ by zero")`. With limit ≤ 0 the token bucket and the sliding window always deny. |
| Aspect.DenialIsIdempotent | src/main/kotlin/study/ratelimiter/aspect/RateLimitAspect.kt:24-32 | Whichever limiter is chosen, a rejected key is rejected again at the same instant. |
| Aspect.ExceededMessage | src/main/kotlin/study/ratelimiter/aspect/RateLimitAspect.kt:31 | The message is the fixed prefix "Rate limit exceeded for key: " followed by the key, so the key can be read back from it. |
| Aspect.RateLimitAspect.constructor | src/main/kotlin/study/ratelimiter/aspect/RateLimitAspect.kt:15-17 | The aspect holds the three limiter instances and has run no guarded call. |
| Aspect.RateLimitAspect.IsAllowed | src/main/kotlin/study/ratelimiter/aspect/RateLimitAspect.kt:24-28 | The call reaches the chosen limiter: its result and new store are `Decide` and `Apply`. |
| Aspect.RateLimitAspect.RateLimit | src/main/kotlin/study/ratelimiter/aspect/RateLimitAspect.kt:19-35 | With no bound request it throws before any limiter is asked. Otherwise the limiter sees the generated key. On allow, the guarded call runs once and its result is returned unchanged. On deny, it throws "Rate limit exceeded for key: " + key and the call does not run. A limiter exception propagates. |

## Left out

- The Redis connection, script upload and byte-array argument encoding are replaced by direct state updates. A script is one atomic transition, and concurrent callers are not modelled beyond that atomicity.
- The wall clock `Instant.now()` is a parameter `now`. The TTL machinery of the store is an expiry instant checked on read, not background reclamation.
- The sliding-window member `now:random` is modelled by its score `now` alone, and the log is kept as a sequence of scores. The model assumes every admission adds its own member, i.e. that two random suffixes drawn in the same second differ. The store does not guarantee this: a scripting engine that reseeds its generator identically for every script run (Redis before 7.0) can repeat a suffix, and the repeated ZADD then adds no member. That case is not modelled.
- The store expires keys at millisecond resolution on its own clock, counted from the instant EXPIRE actually ran. The model counts in whole seconds from `now` and treats the whole second `now + ttl` as expired, although the real key may still be visible during part of it.
- The guarded call is represented by its return value. Its side effects and exceptions are not modelled, and neither are the `@Around` pointcut or the annotation lookup.
- Spring's `IllegalStateException` message is shortened to its opening clause, the text before the first colon.
- The HTTP status mapping of the exception handler is not part of this model. Neither are the controller and the load-test client and its tests.
- The annotation's `limit` is a 32-bit `Int` and `windowSeconds` a 64-bit `Long`. Both are unbounded integers here, so overflow in `now - windowSeconds`, in `(now / windowSeconds) * windowSeconds` or in the script's `window_seconds * 2` is not modelled.
- Token arithmetic in the script is Lua floating point. With the refill rate fixed at 1.0 and integral seconds it only ever holds integers, so the model uses `int`. Stored values the scripts did not write themselves (a malformed hash or counter) are not modelled.
- `Aspect.IsWhitespace` lists Kotlin's whitespace code points explicitly. The header is taken by value; how the header name is matched and a null peer address are not modelled.
- RateLimiterType.kt is not part of this model. The three-valued enum is taken from the factory's `when`.
- TokenBucket.StepKeepsAccounted: requires capacity ≤ 3600, for the reason given for `TokenBucket.RunBound` below; above that the invariant does not hold for the source.
- TokenBucket.RunAccounted: requires capacity ≤ 3600, for the same reason; above that a run can be granted more than capacity + elapsed seconds.
- TokenBucket.RunBound: proved only for capacity ≤ 3600. When a bucket sits idle for the one-hour expiry, the store drops it and the next request starts full. With capacity > 3600 that exceeds the refill the bound counts.
