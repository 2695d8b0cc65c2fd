/** The in-memory rate limiter in front of POST /blessings: a fixed window
    of five minutes per client address, with at most three requests per
    window. Only the enforcing (production) branch is modelled. */
module RateLimit {
  import opened Common

  const MaxRequests: nat := 3
  const WindowMs: nat := 5 * 60 * 1000

  /** `{ count, resetTime }`, the value stored per client. */
  datatype Entry = Entry(count: int, resetTime: int)

  datatype Decision = Allowed | Rejected(retryAfter: int)

  /** `Math.ceil(ms / 1000)` for a positive number of milliseconds. */
  function CeilSeconds(ms: int): (s: int)
    requires ms > 0
    ensures s >= 1
    ensures (s - 1) * 1000 < ms <= s * 1000
  {
    (ms + 999) / 1000
  }

  /** The entry stored for a key, if any. */
  function Lookup(store: map<string, Entry>, key: string): (e: Option<Entry>)
    ensures e.Some? <==> key in store
    ensures e.Some? ==> e.value == store[key]
  {
    if key in store then Some(store[key]) else None
  }

  /** Whether a request at time `now` is let through, given the key's entry. */
  function Decide(e: Option<Entry>, now: int): (d: Decision)
    ensures d.Rejected? <==> e.Some? && now < e.value.resetTime && e.value.count >= MaxRequests
    ensures d.Rejected? ==> d.retryAfter >= 1
    ensures d.Rejected? ==> (d.retryAfter - 1) * 1000 < e.value.resetTime - now <= d.retryAfter * 1000
  {
    if e.Some? && now < e.value.resetTime && e.value.count >= MaxRequests
    then Rejected(CeilSeconds(e.value.resetTime - now))
    else Allowed
  }

  /** The key's entry after a request at time `now`. */
  function Next(e: Option<Entry>, now: int): (r: Entry)
    ensures Decide(e, now).Rejected? ==> r == e.value
    ensures Decide(e, now).Allowed? && e.Some? && now < e.value.resetTime ==>
              r == Entry(e.value.count + 1, e.value.resetTime)
    ensures e.None? || now >= e.value.resetTime ==> r == Entry(1, now + WindowMs)
    ensures (e.None? || 1 <= e.value.count <= MaxRequests) ==> 1 <= r.count <= MaxRequests
  {
    if e.Some? && now < e.value.resetTime then
      if e.value.count >= MaxRequests then e.value
      else e.value.(count := e.value.count + 1)
    else Entry(1, now + WindowMs)
  }

  /** The number of requests let through when one key sends requests at the
      given times, starting from entry e. */
  function Accepted(e: Option<Entry>, times: seq<int>): nat
    decreases |times|
  {
    if times == [] then 0
    else
      (if Decide(e, times[0]).Allowed? then 1 else 0) + Accepted(Some(Next(e, times[0])), times[1..])
  }

  function Min(a: int, b: int): int {
    if a <= b then a else b
  }

  /** Inside a window (every request before its reset time) a key that has
      used `count` requests gets exactly min(n, 3 - count) of n more
      requests through, and the window is not moved. */
  lemma {:induction false} AcceptedInsideWindow(count: int, resetTime: int, times: seq<int>)
    requires 1 <= count <= MaxRequests
    requires forall k :: 0 <= k < |times| ==> times[k] < resetTime
    ensures Accepted(Some(Entry(count, resetTime)), times) == Min(|times|, MaxRequests - count)
    decreases |times|
  {
    if times != [] {
      var e := Entry(count, resetTime);
      var next := Next(Some(e), times[0]);
      assert next.resetTime == resetTime;
      AcceptedInsideWindow(next.count, resetTime, times[1..]);
    }
  }

  /** A window is opened by the first request at or after the previous
      reset time (or the first request ever); that request and all requests
      in the five minutes after it together get at most three through. */
  lemma AtMostThreePerWindow(e: Option<Entry>, start: int, times: seq<int>)
    requires e.None? || start >= e.value.resetTime
    requires forall k :: 0 <= k < |times| ==> times[k] < start + WindowMs
    ensures Decide(e, start) == Allowed
    ensures Accepted(e, [start] + times) <= MaxRequests
  {
    assert ([start] + times)[1..] == times;
    AcceptedInsideWindow(1, start + WindowMs, times);
  }

  /** What the limiter's invariant buys: a key whose window is still open
      gets exactly as many further requests through as its count leaves
      below three, and never more than that. */
  lemma StoredKeyAcceptsRemaining(limiter: RateLimiter, key: string, times: seq<int>)
    requires limiter.Valid() && key in limiter.store
    requires forall k :: 0 <= k < |times| ==> times[k] < limiter.store[key].resetTime
    ensures Accepted(Lookup(limiter.store, key), times)
              == Min(|times|, MaxRequests - limiter.store[key].count)
    ensures Accepted(Lookup(limiter.store, key), times) <= MaxRequests - 1
  {
    var e := limiter.store[key];
    AcceptedInsideWindow(e.count, e.resetTime, times);
  }

  /** The `Map` of entries, keyed by client address. */
  class RateLimiter {
    var store: map<string, Entry>

    /** Every stored count is between 1 and 3. */
    ghost predicate Valid()
      reads this
    {
      forall key | key in store :: 1 <= store[key].count <= MaxRequests
    }

    constructor()
      ensures store == map[]
      ensures Valid()
    {
      store := map[];
    }

    /** `rateLimitMiddleware` for a request from `ip` (`req.ip`, None when
        absent) at time `now` (`Date.now()`). */
    method Check(ip: Option<string>, now: int) returns (d: Decision)
      requires Valid()
      modifies this
      ensures Valid()
      ensures var key := OrElse(ip, "unknown");
              && d == Decide(Lookup(old(store), key), now)
              && store == old(store)[key := Next(Lookup(old(store), key), now)]
      ensures d.Rejected? ==> store == old(store)
    {
      var key := OrElse(ip, "unknown");
      if key in store && now < store[key].resetTime {
        var limit := store[key];
        if limit.count >= MaxRequests {
          return Rejected(CeilSeconds(limit.resetTime - now));
        }
        store := store[key := limit.(count := limit.count + 1)];
      } else {
        store := store[key := Entry(1, now + 5 * 60 * 1000)];
      }
      d := Allowed;
    }
  }
}
