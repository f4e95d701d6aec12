/**
 * The fixed-window rate limiter (`middleware/rate-limit.ts`): per client key, the number of
 * requests let through since the window opened and the instant the window closes.
 */
module RateLimit {
  import opened Wrappers
  import opened Text

  /** A key's window: requests let through so far, and when the window ends (milliseconds). */
  datatype Entry = Entry(count: int, resetAt: int)

  /** What the hook does: let the request through, or answer 429 with `Retry-After` seconds. */
  datatype Decision = Allowed | Limited(retryAfterSeconds: int)

  /**
   * `getClientKey`: the first `x-forwarded-for` item, trimmed, when that header is non-empty,
   * else `x-real-ip`; `"unknown"` when the chosen value is empty.
   */
  function ClientKey(forwarded: Option<string>, realIp: Option<string>): (r: string)
    ensures r != ""
    ensures forwarded.Some? && forwarded.value != "" ==>
      var f := forwarded.value;
      var first := Trim(f[..FirstIndex(f, ',')]);
      r == if first == "" then "unknown" else first
    ensures (forwarded == None || forwarded == Some("")) ==>
      r == if realIp.Some? && realIp.value != "" then realIp.value else "unknown"
  {
    if forwarded.Some? && forwarded.value != "" then
      SplitFirst(forwarded.value, ',');
      var first := Trim(Split(forwarded.value, ',')[0]);
      if first != "" then first else "unknown"
    else if realIp.Some? && realIp.value != "" then realIp.value
    else "unknown"
  }

  /** `Math.ceil(ms / 1000)` for a whole number of milliseconds. */
  function CeilSeconds(ms: int): (r: int)
    ensures (r - 1) * 1000 < ms <= r * 1000
  {
    -((-ms) / 1000)
  }

  /** `Math.max(Math.ceil((resetAt - now) / 1000), 1)`. */
  function RetryAfterSeconds(resetAt: int, nowMs: int): (r: int)
    ensures r >= 1
    ensures resetAt > nowMs ==> (r - 1) * 1000 < resetAt - nowMs <= r * 1000
    ensures resetAt <= nowMs ==> r == 1
  {
    var s := CeilSeconds(resetAt - nowMs);
    if s > 1 then s else 1
  }

  /** One limiter created by `createRateLimiter`, with its own store. */
  class RateLimiter {
    const windowMs: int
    const maxRequests: int
    var store: map<string, Entry>

    /** The most requests a window can let through: `maxRequests`, and at least the first one. */
    function Cap(): int {
      if maxRequests >= 1 then maxRequests else 1
    }

    /** Every stored window has let through at least one and at most `Cap()` requests. */
    ghost predicate Valid()
      reads this
    {
      forall k :: k in store ==> 1 <= store[k].count <= Cap()
    }

    constructor (windowMs: int, maxRequests: int)
      ensures this.windowMs == windowMs && this.maxRequests == maxRequests
      ensures store == map[]
      ensures Valid()
    {
      this.windowMs := windowMs;
      this.maxRequests := maxRequests;
      store := map[];
    }

    /**
     * The before-handle hook at `nowMs` for a request with client key `key`; `matched` is the
     * limiter's `match` predicate on the request (true when it has none).
     */
    method Handle(matched: bool, key: string, nowMs: int) returns (d: Decision)
      requires Valid()
      modifies this
      ensures Valid()
      ensures !matched ==> d == Allowed && store == old(store)
      ensures matched && (key !in old(store) || old(store)[key].resetAt <= nowMs) ==>
        d == Allowed && store == old(store)[key := Entry(1, nowMs + windowMs)]
      ensures matched && key in old(store) && old(store)[key].resetAt > nowMs && old(store)[key].count >= maxRequests ==>
        d == Limited(RetryAfterSeconds(old(store)[key].resetAt, nowMs)) && store == old(store)
      ensures matched && key in old(store) && old(store)[key].resetAt > nowMs && old(store)[key].count < maxRequests ==>
        d == Allowed && store == old(store)[key := Entry(old(store)[key].count + 1, old(store)[key].resetAt)]
      ensures forall k :: k != key ==> (k in store <==> k in old(store)) && (k in store ==> store[k] == old(store)[k])
    {
      if !matched {
        return Allowed;
      }
      if key !in store || store[key].resetAt <= nowMs {
        store := store[key := Entry(1, nowMs + windowMs)];
        return Allowed;
      }
      var existing := store[key];
      if existing.count >= maxRequests {
        return Limited(RetryAfterSeconds(existing.resetAt, nowMs));
      }
      store := store[key := existing.(count := existing.count + 1)];
      d := Allowed;
    }

    /**
     * `n` matched requests from one key at the same instant: however many there are, a window
     * that lasts lets through at most `Cap()` of them, counting the ones already let through.
     */
    method Burst(key: string, nowMs: int, n: nat) returns (allowed: nat)
      requires Valid() && windowMs > 0
      modifies this
      ensures Valid()
      ensures n > 0 ==> key in store && store[key].resetAt > nowMs
      ensures key in old(store) && old(store)[key].resetAt > nowMs ==>
        old(store)[key].count + allowed <= Cap()
      ensures allowed <= Cap()
    {
      allowed := 0;
      var i := 0;
      var before := if key in store && store[key].resetAt > nowMs then store[key].count else 0;
      while i < n
        invariant Valid()
        invariant 0 <= i <= n
        invariant 0 <= before
        invariant key in old(store) && old(store)[key].resetAt > nowMs ==> before == old(store)[key].count
        invariant i > 0 || before > 0 ==> key in store && store[key].resetAt > nowMs
        invariant key in store && store[key].resetAt > nowMs ==> before + allowed == store[key].count
        invariant key !in store || store[key].resetAt <= nowMs ==> allowed == 0 && before == 0
      {
        var d := Handle(true, key, nowMs);
        if d == Allowed {
          allowed := allowed + 1;
        }
        i := i + 1;
      }
    }
  }
}
