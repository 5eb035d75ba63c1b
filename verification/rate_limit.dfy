/** The in-memory fixed-window rate limiter in front of the admin routes. One map, shared by the
    general limiter (keyed by the client address) and the login limiter (keyed by `"login:"` and
    the address), holds a request count and a window end per key. Time is integer milliseconds. */
module RateLimit {
  import opened Wrappers

  datatype Entry = Entry(count: nat, resetTime: int)

  type Limits = map<string, Entry>

  /** Fifteen minutes. */
  const WindowMs: int := 15 * 60 * 1000

  const GeneralMax: nat := 100
  const LoginMax: nat := 5

  const GeneralMsg := "Too many requests from this IP, please try again later."
  const LoginMsg := "Too many login attempts, please try again after 15 minutes."

  /** Whether the request goes on to the route, or is answered 429 with a wait in seconds. */
  datatype Decision = Allow | Reject(retryAfter: int, message: string)

  datatype Outcome = Outcome(limits: Limits, decision: Decision)

  /** `Math.ceil(ms / 1000)` for a non-negative number of milliseconds: whole seconds, rounded up. */
  function SecondsUp(ms: nat): (s: nat)
    ensures (s - 1) * 1000 < ms <= s * 1000
  {
    (ms + 999) / 1000
  }

  /** One request for `key` at time `now` against a limit of `max` per window. An unknown key, or
      a window that has ended (`now` strictly after its end), starts a new window with this request
      counted. Inside the window a full count rejects without counting; otherwise the request is
      counted and allowed. */
  function Hit(limits: Limits, key: string, now: int, max: nat, message: string): (o: Outcome)
    ensures o.limits.Keys == limits.Keys + {key}
    ensures forall k :: k in limits && k != key ==> o.limits[k] == limits[k]
    ensures key !in limits || now > limits[key].resetTime ==>
              o.decision == Allow && o.limits[key] == Entry(1, now + WindowMs)
    ensures key in limits && now <= limits[key].resetTime ==>
              if limits[key].count >= max then
                o.limits == limits && o.decision.Reject? && o.decision.message == message
                && (o.decision.retryAfter - 1) * 1000 < limits[key].resetTime - now <= o.decision.retryAfter * 1000
              else
                o.decision == Allow && o.limits[key] == limits[key].(count := limits[key].count + 1)
    ensures o.decision.Reject? ==> o.decision.retryAfter >= 0
  {
    if key !in limits || now > limits[key].resetTime then
      Outcome(limits[key := Entry(1, now + WindowMs)], Allow)
    else if limits[key].count >= max then
      Outcome(limits, Reject(SecondsUp(limits[key].resetTime - now), message))
    else
      Outcome(limits[key := limits[key].(count := limits[key].count + 1)], Allow)
  }

  /** adminRateLimiter: 100 requests per window per address. */
  function AdminHit(limits: Limits, ip: string, now: int): Outcome
  {
    Hit(limits, ip, now, GeneralMax, GeneralMsg)
  }

  /** The login limiter's key. */
  function LoginKey(ip: string): (k: string)
    ensures |k| == |ip| + 6 && k[6..] == ip && k[..6] == "login:"
  {
    "login:" + ip
  }

  /** adminLoginRateLimiter: 5 attempts per window per address. */
  function LoginHit(limits: Limits, ip: string, now: int): Outcome
  {
    Hit(limits, LoginKey(ip), now, LoginMax, LoginMsg)
  }

  predicate LoginPrefixed(k: string)
  {
    |k| >= 6 && k[..6] == "login:"
  }

  /** The two limiters share the map without interfering: a login attempt leaves every address's
      general entry alone, a general request leaves every login entry alone, and addresses never
      share a login entry. */
  lemma LimitersIndependent(limits: Limits, ip: string, other: string, now: int)
    requires !LoginPrefixed(other)
    ensures other in limits ==> LoginHit(limits, ip, now).limits[other] == limits[other]
    ensures LoginKey(ip) in limits && !LoginPrefixed(other) ==>
              AdminHit(limits, other, now).limits[LoginKey(ip)] == limits[LoginKey(ip)]
    ensures LoginKey(ip) == LoginKey(other) ==> ip == other
  {
    assert LoginKey(ip) != other;
    if LoginKey(ip) == LoginKey(other) {
      assert ip == LoginKey(ip)[6..] == LoginKey(other)[6..] == other;
    }
  }

  /** No entry ever counts past its limit. */
  predicate WithinLimit(limits: Limits, key: string, max: nat)
  {
    key in limits ==> 1 <= limits[key].count <= max
  }

  lemma HitKeepsWithinLimit(limits: Limits, key: string, now: int, max: nat, message: string)
    requires max >= 1 && WithinLimit(limits, key, max)
    ensures WithinLimit(Hit(limits, key, now, max, message).limits, key, max)
  {
  }

  /** A run of requests for one key: the final map and how many requests were allowed. */
  function Replay(limits: Limits, key: string, times: seq<int>, max: nat, message: string): (r: (Limits, nat))
    ensures r.1 <= |times|
    decreases |times|
  {
    if times == [] then (limits, 0)
    else
      var o := Hit(limits, key, times[0], max, message);
      var rest := Replay(o.limits, key, times[1..], max, message);
      (rest.0, rest.1 + (if o.decision == Allow then 1 else 0))
  }

  /** Inside a window nothing resets it: the requests that pass add up to at most what the entry
      had left, and the window end stays where it was. */
  lemma {:induction false} ReplayWithinWindow(limits: Limits, key: string, times: seq<int>, max: nat, message: string)
    requires key in limits && limits[key].count <= max
    requires forall i :: 0 <= i < |times| ==> times[i] <= limits[key].resetTime
    ensures var r := Replay(limits, key, times, max, message);
            && r.1 <= max - limits[key].count
            && key in r.0 && r.0[key].resetTime == limits[key].resetTime
            && r.0[key].count == limits[key].count + r.1
    decreases |times|
  {
    if times != [] {
      var o := Hit(limits, key, times[0], max, message);
      assert o.limits[key].resetTime == limits[key].resetTime;
      ReplayWithinWindow(o.limits, key, times[1..], max, message);
    }
  }

  /** The limiter's promise: once a request opens a window (the key was unknown or its window had
      ended), at most `max` of the requests that arrive before that window ends are let through. */
  lemma AtMostMaxPerWindow(limits: Limits, key: string, times: seq<int>, max: nat, message: string)
    requires max >= 1 && |times| >= 1
    requires key !in limits || times[0] > limits[key].resetTime
    requires forall i :: 0 <= i < |times| ==> times[i] <= times[0] + WindowMs
    ensures Replay(limits, key, times, max, message).1 <= max
  {
    var o := Hit(limits, key, times[0], max, message);
    assert o.limits[key] == Entry(1, times[0] + WindowMs);
    var rest := times[1..];
    assert forall i :: 0 <= i < |rest| ==> rest[i] <= o.limits[key].resetTime by {
      forall i | 0 <= i < |rest| ensures rest[i] <= o.limits[key].resetTime {
        assert rest[i] == times[i + 1];
      }
    }
    ReplayWithinWindow(o.limits, key, rest, max, message);
  }

  /** The hourly clean-up: the entries whose window has ended (`now` strictly after its end) go;
      all others stay as they are. */
  function Sweep(limits: Limits, now: int): (r: Limits)
    ensures forall k :: k in r <==> k in limits && now <= limits[k].resetTime
    ensures forall k :: k in r ==> r[k] == limits[k]
  {
    map k | k in limits && now <= limits[k].resetTime :: limits[k]
  }

  /** The sweep is invisible to callers: any later request for any key gets the same decision and
      leaves the same entry for that key as it would have without the sweep. */
  lemma SweepIsInvisible(limits: Limits, sweptAt: int, key: string, now: int, max: nat, message: string)
    requires sweptAt <= now
    ensures var before := Hit(limits, key, now, max, message);
            var after := Hit(Sweep(limits, sweptAt), key, now, max, message);
            after.decision == before.decision && after.limits[key] == before.limits[key]
  {
  }
}
