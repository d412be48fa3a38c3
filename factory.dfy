/** The algorithm lookup: a total map from the configured algorithm to the
    limiter instance that implements it. */
module Factory {
  import TokenBucket
  import FixedWindow
  import SlidingWindow

  /** The three algorithms a call site can ask for. */
  datatype RateLimiterType = TokenBucketType | FixedWindowType | SlidingWindowType

  /** The three limiter instances the factory is built from. */
  datatype RateLimiter = TokenBucketLimiter | FixedWindowLimiter | SlidingWindowLimiter

  /** `getRateLimiter(type)`: one exhaustive case analysis, no failure case. */
  function GetRateLimiter(kind: RateLimiterType): (limiter: RateLimiter)
    ensures kind == TokenBucketType <==> limiter == TokenBucketLimiter
    ensures kind == FixedWindowType <==> limiter == FixedWindowLimiter
    ensures kind == SlidingWindowType <==> limiter == SlidingWindowLimiter
  {
    match kind
    case TokenBucketType => TokenBucketLimiter
    case FixedWindowType => FixedWindowLimiter
    case SlidingWindowType => SlidingWindowLimiter
  }

  /** The namespace each limiter puts in front of the caller's key in the store. */
  function KeyPrefix(limiter: RateLimiter): (prefix: string)
    ensures prefix != []
  {
    match limiter
    case TokenBucketLimiter => TokenBucket.KEY_PREFIX
    case FixedWindowLimiter => FixedWindow.KEY_PREFIX
    case SlidingWindowLimiter => SlidingWindow.KEY_PREFIX
  }

  /** Distinct types map to distinct limiters, and every limiter is chosen by
      the type of its own algorithm. */
  lemma LookupIsFaithful(kind: RateLimiterType, other: RateLimiterType)
    ensures GetRateLimiter(TokenBucketType) == TokenBucketLimiter
    ensures GetRateLimiter(FixedWindowType) == FixedWindowLimiter
    ensures GetRateLimiter(SlidingWindowType) == SlidingWindowLimiter
    ensures kind != other ==> GetRateLimiter(kind) != GetRateLimiter(other)
  {
  }

  /** The limiters chosen for distinct types never touch each other's store
      entries: their store keys differ whatever keys the callers pass. */
  lemma StoreKeysDisjoint(kind: RateLimiterType, other: RateLimiterType, key: string, otherKey: string)
    requires kind != other
    ensures KeyPrefix(GetRateLimiter(kind)) + key != KeyPrefix(GetRateLimiter(other)) + otherKey
  {
    var p, q := KeyPrefix(GetRateLimiter(kind)), KeyPrefix(GetRateLimiter(other));
    assert (p + key)[0] == p[0] && (q + otherKey)[0] == q[0];
    assert p[0] != q[0];
  }
}
