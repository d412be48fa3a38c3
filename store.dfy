/** The shared counter store as the three limiters see it: string keys whose
    values carry an absolute expiry time (the store's TTL), and the integer
    reply a script sends back. */
module Store {

  datatype Option<T> = None | Some(value: T)

  /** A JVM exception escaping a limiter call or the key derivation, with its message. */
  datatype Fault = ArithmeticException(message: string) | IllegalStateException(message: string)

  /** The result of a limiter call that can throw before reaching the store. */
  datatype Result<T> = Ok(value: T) | Err(fault: Fault)

  /** A stored value together with the instant (epoch seconds) at which the
      store reclaims it. `EXPIRE key ttl` issued at `now` sets
      `expireAt := now + ttl`; a non-positive ttl therefore reads as deleted. */
  datatype Entry<V> = Entry(value: V, expireAt: int)

  /** A key is visible to a read at `now` while its expiry lies in the future. */
  predicate Live<V>(m: map<string, Entry<V>>, k: string, now: int)
  {
    k in m && now < m[k].expireAt
  }

  /** What a read at `now` returns: expired keys read as missing. */
  function Read<V>(m: map<string, Entry<V>>, k: string, now: int): Option<V>
  {
    if Live(m, k, now) then Some(m[k].value) else None
  }

  /** The Kotlin side of every limiter: a missing (null) reply counts as 0,
      and only the reply 1 means the request is allowed. */
  function ReplyAllowed(reply: Option<int>): (allowed: bool)
    ensures allowed ==> reply.Some? && reply.value == 1
    ensures reply.Some? && reply.value == 1 ==> allowed
    ensures reply.None? ==> !allowed
  {
    var result := match reply
      case Some(r) => r
      case None => 0;
    result == 1
  }

  function Abs(x: int): nat { if x < 0 then -x else x }

  function Min(a: int, b: int): int { if a <= b then a else b }

  function Max(a: int, b: int): int { if a >= b then a else b }

  /** A sequence of request instants in arrival order. */
  ghost predicate NonDecreasing(times: seq<int>)
  {
    forall i, j :: 0 <= i <= j < |times| ==> times[i] <= times[j]
  }
}
