/** The admission layer around every rate-limited call: it derives the key,
    asks the configured limiter, and then either runs the guarded call or
    rejects it with a "limit exceeded" signal. */
module Aspect {
  import opened Store
  import TokenBucket
  import FixedWindow
  import SlidingWindow
  import opened Factory

  /** The attributes of the `@RateLimit` annotation on a call site. */
  datatype RateLimitConfig = RateLimitConfig(kind: RateLimiterType, limit: int, windowSeconds: int, key: string)

  /** The annotation's defaults: token bucket, limit 10, window 60, no explicit key. */
  const DEFAULT_CONFIG: RateLimitConfig := RateLimitConfig(TokenBucketType, 10, 60, "")

  /** The parts of the current HTTP request the key is built from; the
      `X-Forwarded-For` header is `None` when the request does not carry it. */
  datatype Request = Request(forwardedFor: Option<string>, remoteAddr: string, httpMethod: string, requestUri: string)

  /** What the request-context holder has bound to the current thread: no
      request at all, attributes of a kind other than a servlet request, or a
      servlet request. */
  datatype RequestContext = Unbound | OtherAttributes | ServletRequest(request: Request)

  /** The exception the request-context holder throws when nothing is bound. */
  const NO_REQUEST_BOUND: Fault := IllegalStateException("No thread-bound request found")

  /** The guarded method: simple name of its declaring class, and its name. */
  datatype Signature = Signature(className: string, methodName: string)

  /** What the caller of a guarded call observes. */
  datatype Outcome<T> =
    | Proceeded(value: T)                  // the guarded call ran and returned `value`
    | LimitExceeded(message: string)       // RateLimitExceededException; the call did not run
    | Raised(fault: Fault)                 // an exception from the limiter itself

  /** Kotlin's `Char.isWhitespace()` on the JVM: Java whitespace or a space
      separator. The comma and the characters of an IPv4 or IPv6 address are
      never whitespace, so trimming never cuts into an address. */
  function IsWhitespace(c: char): (w: bool)
    ensures c == ' ' || c == '\t' ==> w
    ensures w ==> c != ',' && c != '.' && c != ':'
    ensures w ==> !('0' <= c <= '9') && !('a' <= c <= 'z') && !('A' <= c <= 'Z')
  {
    || c == ' ' || c == '\t' || c == '\n' || c == '\r' || c == '\U{000B}' || c == '\U{000C}'
    || ('\U{001C}' <= c <= '\U{001F}')
    || c == '\U{00A0}' || c == '\U{1680}' || ('\U{2000}' <= c <= '\U{200A}')
    || c == '\U{2028}' || c == '\U{2029}' || c == '\U{202F}' || c == '\U{205F}' || c == '\U{3000}'
  }

  /** `s.split(",")[0]`: everything before the first comma. */
  function FirstSegment(s: string): (segment: string)
    ensures segment <= s
    ensures ',' !in segment
    ensures |segment| < |s| ==> s[|segment|] == ','
  {
    if s == [] || s[0] == ',' then [] else [s[0]] + FirstSegment(s[1..])
  }

  /** `s` without its leading whitespace. */
  function TrimLeading(s: string): (t: string)
    ensures |t| <= |s| && t == s[|s| - |t|..]
    ensures forall i :: 0 <= i < |s| - |t| ==> IsWhitespace(s[i])
    ensures t != [] ==> !IsWhitespace(t[0])
  {
    if s != [] && IsWhitespace(s[0]) then TrimLeading(s[1..]) else s
  }

  /** `s` without its trailing whitespace. */
  function TrimTrailing(s: string): (t: string)
    ensures t <= s
    ensures forall i :: |t| <= i < |s| ==> IsWhitespace(s[i])
    ensures t != [] ==> !IsWhitespace(t[|t| - 1])
  {
    if s != [] && IsWhitespace(s[|s| - 1]) then TrimTrailing(s[..|s| - 1]) else s
  }

  /** Kotlin's `trim()`: a middle part of `s` that neither starts nor ends
      with whitespace. */
  function Trim(s: string): (t: string)
    ensures |t| <= |s|
    ensures t != [] ==> !IsWhitespace(t[0]) && !IsWhitespace(t[|t| - 1])
  {
    TrimTrailing(TrimLeading(s))
  }

  /** Trimming removes exactly the whitespace padding around a word. */
  lemma TrimPadded(before: string, word: string, after: string)
    requires forall i :: 0 <= i < |before| ==> IsWhitespace(before[i])
    requires forall i :: 0 <= i < |after| ==> IsWhitespace(after[i])
    requires word != [] ==> !IsWhitespace(word[0]) && !IsWhitespace(word[|word| - 1])
    ensures Trim(before + word + after) == word
  {
    if word == [] {
      assert before + word + after == (before + after) + [];
      TrimLeadingPadded(before + after, []);
    } else {
      assert before + word + after == before + (word + after);
      TrimLeadingPadded(before, word + after);
      TrimTrailingPadded(word, after);
    }
  }

  /** `getClientIp`: the first `X-Forwarded-For` entry, trimmed, when the
      header is present and not empty; otherwise the peer address. */
  function ClientIp(request: Request): (ip: string)
    ensures request.forwardedFor.None? || request.forwardedFor.value == [] ==> ip == request.remoteAddr
    ensures request.forwardedFor.Some? && request.forwardedFor.value != [] ==>
      && ',' !in ip
      && (ip != [] ==> !IsWhitespace(ip[0]) && !IsWhitespace(ip[|ip| - 1]))
  {
    match request.forwardedFor
    case Some(header) =>
      if header != [] then Trim(FirstSegment(header)) else request.remoteAddr
    case None => request.remoteAddr
  }

  lemma {:induction false} TrimLeadingPadded(pad: string, s: string)
    requires forall i :: 0 <= i < |pad| ==> IsWhitespace(pad[i])
    requires s != [] ==> !IsWhitespace(s[0])
    ensures TrimLeading(pad + s) == s
    decreases |pad|
  {
    if pad == [] {
      assert pad + s == s;
    } else {
      assert (pad + s)[1..] == pad[1..] + s;
      TrimLeadingPadded(pad[1..], s);
    }
  }

  lemma {:induction false} TrimTrailingPadded(s: string, pad: string)
    requires forall i :: 0 <= i < |pad| ==> IsWhitespace(pad[i])
    requires s != [] ==> !IsWhitespace(s[|s| - 1])
    ensures TrimTrailing(s + pad) == s
    decreases |pad|
  {
    if pad == [] {
      assert s + pad == s;
    } else {
      assert (s + pad)[..|s + pad| - 1] == s + pad[..|pad| - 1];
      TrimTrailingPadded(s, pad[..|pad| - 1]);
    }
  }

  lemma {:induction false} FirstSegmentBeforeComma(entry: string, rest: string)
    requires ',' !in entry
    ensures FirstSegment(entry + "," + rest) == entry
    decreases |entry|
  {
    if entry == [] {
      assert (entry + "," + rest)[0] == ',';
    } else {
      assert (entry + "," + rest)[1..] == entry[1..] + "," + rest;
      FirstSegmentBeforeComma(entry[1..], rest);
    }
  }

  lemma {:induction false} FirstSegmentNoComma(entry: string)
    requires ',' !in entry
    ensures FirstSegment(entry) == entry
    decreases |entry|
  {
    if entry != [] {
      FirstSegmentNoComma(entry[1..]);
    }
  }

  /** A comma never occurs in whitespace padding around a comma-free word. */
  lemma NoCommaInPadded(before: string, word: string, after: string)
    requires ',' !in word
    requires forall i :: 0 <= i < |before| ==> IsWhitespace(before[i])
    requires forall i :: 0 <= i < |after| ==> IsWhitespace(after[i])
    ensures ',' !in before + word + after
  {
    assert !IsWhitespace(',');
    var entry := before + word + after;
    forall i | 0 <= i < |entry| ensures entry[i] != ',' {
      if i < |before| {
        assert entry[i] == before[i];
      } else if i < |before| + |word| {
        assert entry[i] == word[i - |before|];
      } else {
        assert entry[i] == after[i - |before| - |word|];
      }
    }
  }

  /** Reading back a forwarded-for header: whatever whitespace surrounds the
      first entry and whatever entries follow it, the client address is that
      first entry. */
  lemma ClientIpReadsFirstEntry(ip: string, before: string, after: string, rest: Option<string>,
                                remoteAddr: string, httpMethod: string, requestUri: string)
    requires ',' !in ip
    requires ip != [] ==> !IsWhitespace(ip[0]) && !IsWhitespace(ip[|ip| - 1])
    requires forall i :: 0 <= i < |before| ==> IsWhitespace(before[i])
    requires forall i :: 0 <= i < |after| ==> IsWhitespace(after[i])
    requires rest.None? ==> before + ip + after != []
    ensures var entry := before + ip + after;
            var header := match rest case Some(r) => entry + "," + r case None => entry;
            ClientIp(Request(Some(header), remoteAddr, httpMethod, requestUri)) == ip
  {
    var entry := before + ip + after;
    NoCommaInPadded(before, ip, after);
    TrimPadded(before, ip, after);
    match rest {
      case Some(r) =>
        FirstSegmentBeforeComma(entry, r);
        assert |entry + "," + r| > 0;
      case None =>
        FirstSegmentNoComma(entry);
    }
  }

  /** The request seen by the key derivation: present only for a servlet request. */
  function RequestOf(context: RequestContext): (request: Option<Request>)
    ensures request.Some? <==> context.ServletRequest?
    ensures request.Some? ==> request.value == context.request
  {
    match context
    case ServletRequest(r) => Some(r)
    case _ => None
  }

  /** The key choice of `generateKey`: an explicit annotation key first;
      otherwise, inside an HTTP request, `clientIp:method:path`; otherwise
      `Class:method`. */
  function KeyFor(config: RateLimitConfig, request: Option<Request>, signature: Signature): (key: string)
    ensures config.key != [] ==> key == config.key
    ensures config.key == [] && request.Some? ==>
            key == ClientIp(request.value) + ":" + request.value.httpMethod + ":" + request.value.requestUri
    ensures config.key == [] && request.None? ==> key == signature.className + ":" + signature.methodName
  {
    if config.key != [] then config.key
    else match request
      case Some(r) => ClientIp(r) + ":" + r.httpMethod + ":" + r.requestUri
      case None => signature.className + ":" + signature.methodName
  }

  /** `generateKey`: the request context is looked up first, which throws when
      no request is bound to the thread, even when the annotation names a key. */
  function GenerateKey(config: RateLimitConfig, context: RequestContext, signature: Signature)
    : (key: Result<string>)
    ensures context.Unbound? <==> key.Err?
    ensures context.Unbound? ==> key == Err(NO_REQUEST_BOUND)
    ensures key.Ok? ==> key.value == KeyFor(config, RequestOf(context), signature)
  {
    if context.Unbound? then Err(NO_REQUEST_BOUND)
    else Ok(KeyFor(config, RequestOf(context), signature))
  }

  /** A call site that keeps the annotation's defaults is metered by the token
      bucket at its default capacity and window, never makes the limiter
      throw, and inside an HTTP request is keyed by client and route. */
  lemma DefaultAnnotation(context: RequestContext, signature: Signature, stores: Stores, key: string, now: nat)
    ensures GetRateLimiter(DEFAULT_CONFIG.kind) == TokenBucketLimiter
    ensures DEFAULT_CONFIG.limit == TokenBucket.DEFAULT_CAPACITY
    ensures DEFAULT_CONFIG.windowSeconds == TokenBucket.DEFAULT_WINDOW_SECONDS
    ensures Decide(GetRateLimiter(DEFAULT_CONFIG.kind), stores, key, DEFAULT_CONFIG.limit, DEFAULT_CONFIG.windowSeconds, now).Ok?
    ensures context.ServletRequest? ==>
            var r := context.request;
            GenerateKey(DEFAULT_CONFIG, context, signature) == Ok(ClientIp(r) + ":" + r.httpMethod + ":" + r.requestUri)
  {
  }

  /** A common suffix cancels. */
  lemma AppendCancels(a: string, b: string, c: string)
    ensures a + c == b + c ==> a == b
  {
    if a + c == b + c {
      assert |a| == |b|;
      assert a == (a + c)[..|a|] && b == (b + c)[..|b|];
    }
  }

  /** `method:path` splits back into its parts when the method has no ':'. */
  lemma RouteSplits(m1: string, u1: string, m2: string, u2: string)
    requires ':' !in m1 && ':' !in m2
    ensures m1 + ":" + u1 == m2 + ":" + u2 ==> m1 == m2 && u1 == u2
  {
    var s1, s2 := m1 + ":" + u1, m2 + ":" + u2;
    if s1 == s2 {
      assert |m1| == |m2| by {
        assert s1[|m1|] == ':' && s2[|m2|] == ':';
        assert forall j :: 0 <= j < |m1| ==> s1[j] == m1[j];
        assert forall j :: 0 <= j < |m2| ==> s2[j] == m2[j];
      }
      assert m1 == s1[..|m1|] && m2 == s2[..|m2|];
      assert u1 == s1[|m1| + 1..] && u2 == s2[|m2| + 1..];
    }
  }

  /** Distinct client addresses on the same route get distinct keys. */
  lemma DistinctClientsDistinctKeys(config: RateLimitConfig, r1: Request, r2: Request, signature: Signature)
    requires config.key == []
    requires r1.httpMethod == r2.httpMethod && r1.requestUri == r2.requestUri
    requires ClientIp(r1) != ClientIp(r2)
    ensures KeyFor(config, Some(r1), signature) != KeyFor(config, Some(r2), signature)
  {
    var route := ":" + r1.httpMethod + ":" + r1.requestUri;
    assert KeyFor(config, Some(r1), signature) == ClientIp(r1) + route;
    assert KeyFor(config, Some(r2), signature) == ClientIp(r2) + route;
    AppendCancels(ClientIp(r1), ClientIp(r2), route);
  }

  /** A common prefix cancels. */
  lemma PrependCancels(a: string, b: string, c: string)
    ensures a + b == a + c ==> b == c
  {
    if a + b == a + c {
      assert b == (a + b)[|a|..] && c == (a + c)[|a|..];
    }
  }

  /** `ip:method:path` determines method and path when the method has no ':'. */
  lemma RouteKeySplits(ip: string, m1: string, u1: string, m2: string, u2: string)
    requires ':' !in m1 && ':' !in m2
    ensures ip + ":" + m1 + ":" + u1 == ip + ":" + m2 + ":" + u2 ==> m1 == m2 && u1 == u2
  {
    var prefix := ip + ":";
    assert ip + ":" + m1 + ":" + u1 == prefix + (m1 + ":" + u1);
    assert ip + ":" + m2 + ":" + u2 == prefix + (m2 + ":" + u2);
    PrependCancels(prefix, m1 + ":" + u1, m2 + ":" + u2);
    RouteSplits(m1, u1, m2, u2);
  }

  /** For one client, requests on different routes get distinct keys, since
      an HTTP method never contains ':'. */
  lemma DistinctRoutesDistinctKeys(config: RateLimitConfig, r1: Request, r2: Request, signature: Signature)
    requires config.key == []
    requires ClientIp(r1) == ClientIp(r2)
    requires ':' !in r1.httpMethod && ':' !in r2.httpMethod
    requires r1.httpMethod != r2.httpMethod || r1.requestUri != r2.requestUri
    ensures KeyFor(config, Some(r1), signature) != KeyFor(config, Some(r2), signature)
  {
    RouteKeySplits(ClientIp(r1), r1.httpMethod, r1.requestUri, r2.httpMethod, r2.requestUri);
  }

  /** With an explicit key, neither the request nor the signature is consulted. */
  lemma ExplicitKeyIgnoresContext(config: RateLimitConfig, r1: Option<Request>, r2: Option<Request>,
                                  s1: Signature, s2: Signature)
    requires config.key != []
    ensures KeyFor(config, r1, s1) == KeyFor(config, r2, s2) == config.key
  {
  }

  /** All store entries of the three limiters. */
  datatype Stores = Stores(
    buckets: map<string, Entry<TokenBucket.Bucket>>,
    counters: map<string, Entry<int>>,
    logs: map<string, Entry<SlidingWindow.Log>>)

  /** `rateLimiter.isAllowed(key, limit, windowSeconds)` for the chosen limiter. */
  function Decide(limiter: RateLimiter, stores: Stores, key: string, limit: int, windowSeconds: int, now: nat)
    : (r: Result<bool>)
    ensures r.Err? <==> limiter == FixedWindowLimiter && windowSeconds == 0
    ensures r.Err? ==> r.fault == ArithmeticException("/ by zero")
    ensures limit <= 0 && limiter != FixedWindowLimiter ==> r == Ok(false)
  {
    match limiter
    case TokenBucketLimiter =>
      Ok(TokenBucket.Allows(stores.buckets, TokenBucket.KEY_PREFIX + key, limit, now))
    case FixedWindowLimiter =>
      if windowSeconds == 0 then Err(ArithmeticException("/ by zero"))
      else Ok(FixedWindow.Admits(stores.counters, FixedWindow.KEY_PREFIX + key, limit, now))
    case SlidingWindowLimiter =>
      Ok(SlidingWindow.Admits(stores.logs, SlidingWindow.KEY_PREFIX + key, limit, now, now - windowSeconds))
  }

  /** The stores after that call: only the chosen limiter's entries can change. */
  function Apply(limiter: RateLimiter, stores: Stores, key: string, limit: int, windowSeconds: int, now: nat)
    : (after: Stores)
    ensures limiter != TokenBucketLimiter ==> after.buckets == stores.buckets
    ensures limiter != FixedWindowLimiter ==> after.counters == stores.counters
    ensures limiter != SlidingWindowLimiter ==> after.logs == stores.logs
    ensures Decide(limiter, stores, key, limit, windowSeconds, now) != Ok(true) ==>
            after.buckets == stores.buckets && after.counters == stores.counters
  {
    match limiter
    case TokenBucketLimiter =>
      stores.(buckets := TokenBucket.Next(stores.buckets, TokenBucket.KEY_PREFIX + key, limit, now))
    case FixedWindowLimiter =>
      if windowSeconds == 0 then stores
      else stores.(counters := FixedWindow.Next(stores.counters, FixedWindow.KEY_PREFIX + key, limit, windowSeconds, now))
    case SlidingWindowLimiter =>
      stores.(logs := SlidingWindow.Next(stores.logs, SlidingWindow.KEY_PREFIX + key, limit, windowSeconds, now,
                                         now - windowSeconds))
  }

  /** A rejected call leaves the chosen limiter rejecting the same key at the
      same instant. */
  lemma DenialIsIdempotent(limiter: RateLimiter, stores: Stores, key: string, limit: int, windowSeconds: int,
                           now: nat)
    requires Decide(limiter, stores, key, limit, windowSeconds, now) == Ok(false)
    ensures Decide(limiter, Apply(limiter, stores, key, limit, windowSeconds, now), key, limit, windowSeconds, now)
            == Ok(false)
  {
    match limiter {
      case TokenBucketLimiter =>
        TokenBucket.DenialIsIdempotent(stores.buckets, TokenBucket.KEY_PREFIX + key, limit, now);
      case FixedWindowLimiter =>
        FixedWindow.DenialIsIdempotent(stores.counters, FixedWindow.KEY_PREFIX + key, limit, windowSeconds, now);
      case SlidingWindowLimiter =>
        SlidingWindow.DenialIsIdempotent(stores.logs, SlidingWindow.KEY_PREFIX + key, limit, windowSeconds, now,
                                         now - windowSeconds);
    }
  }

  const EXCEEDED_PREFIX: string := "Rate limit exceeded for key: "

  /** The exception message of a rejected call; the key can be read back from it. */
  function ExceededMessage(key: string): (message: string)
    ensures |message| == |EXCEEDED_PREFIX| + |key|
    ensures message[..|EXCEEDED_PREFIX|] == EXCEEDED_PREFIX
    ensures message[|EXCEEDED_PREFIX|..] == key
  {
    EXCEEDED_PREFIX + key
  }

  /** The aspect, with the limiter instances the factory hands out and a count
      of how many times a guarded call has been run. */
  class RateLimitAspect {
    const tokenBucket: TokenBucket.TokenBucketRateLimiter
    const fixedWindow: FixedWindow.FixedWindowRateLimiter
    const slidingWindow: SlidingWindow.SlidingWindowRateLimiter
    var guardedRuns: nat

    constructor(tokenBucket: TokenBucket.TokenBucketRateLimiter, fixedWindow: FixedWindow.FixedWindowRateLimiter,
                slidingWindow: SlidingWindow.SlidingWindowRateLimiter)
      ensures this.tokenBucket == tokenBucket && this.fixedWindow == fixedWindow
      ensures this.slidingWindow == slidingWindow && guardedRuns == 0
    {
      this.tokenBucket := tokenBucket;
      this.fixedWindow := fixedWindow;
      this.slidingWindow := slidingWindow;
      guardedRuns := 0;
    }

    ghost function State(): Stores
      reads tokenBucket, fixedWindow, slidingWindow
    {
      Stores(tokenBucket.buckets, fixedWindow.counters, slidingWindow.logs)
    }

    /** The virtual call `rateLimiter.isAllowed(key, limit, windowSeconds)`. */
    method IsAllowed(limiter: RateLimiter, key: string, limit: int, windowSeconds: int, now: nat)
      returns (r: Result<bool>)
      modifies tokenBucket, fixedWindow, slidingWindow
      ensures r == Decide(limiter, old(State()), key, limit, windowSeconds, now)
      ensures State() == Apply(limiter, old(State()), key, limit, windowSeconds, now)
    {
      match limiter {
        case TokenBucketLimiter =>
          var allowed := tokenBucket.IsAllowed(key, limit, windowSeconds, now);
          r := Ok(allowed);
        case FixedWindowLimiter =>
          r := fixedWindow.IsAllowed(key, limit, windowSeconds, now);
        case SlidingWindowLimiter =>
          var allowed := slidingWindow.IsAllowed(key, limit, windowSeconds, now);
          r := Ok(allowed);
      }
    }

    /** `rateLimit`: derive the key, look up the limiter, ask it, and then run
        the guarded call (whose result is `guardedResult`) or reject. */
    method RateLimit<T>(config: RateLimitConfig, context: RequestContext, signature: Signature,
                        now: nat, guardedResult: T) returns (outcome: Outcome<T>)
      modifies this, tokenBucket, fixedWindow, slidingWindow
      ensures context.Unbound? ==> outcome == Raised(NO_REQUEST_BOUND) && State() == old(State())
      ensures !context.Unbound? ==>
              var key := KeyFor(config, RequestOf(context), signature);
              var limiter := GetRateLimiter(config.kind);
              var decision := Decide(limiter, old(State()), key, config.limit, config.windowSeconds, now);
              && State() == Apply(limiter, old(State()), key, config.limit, config.windowSeconds, now)
              && (decision == Ok(true) ==> outcome == Proceeded(guardedResult))
              && (decision == Ok(false) ==> outcome == LimitExceeded(ExceededMessage(key)))
              && (decision.Err? ==> outcome == Raised(decision.fault))
      ensures guardedRuns == old(guardedRuns) + (if outcome.Proceeded? then 1 else 0)
    {
      var generated := GenerateKey(config, context, signature);
      if generated.Err? {
        return Raised(generated.fault);
      }
      var key := generated.value;
      var rateLimiter := GetRateLimiter(config.kind);

      var verdict: Result<bool>;
      if config.key != [] {
        verdict := IsAllowed(rateLimiter, config.key, config.limit, config.windowSeconds, now);
      } else {
        verdict := IsAllowed(rateLimiter, key, config.limit, config.windowSeconds, now);
      }

      match verdict {
        case Err(fault) =>
          outcome := Raised(fault);
        case Ok(isAllowed) =>
          if !isAllowed {
            outcome := LimitExceeded(ExceededMessage(key));
          } else {
            guardedRuns := guardedRuns + 1;
            outcome := Proceeded(guardedResult);
          }
      }
    }
  }
}
