/**
 * The in-memory sliding-window rate limiter of the request middleware: per
 * client key, the times (in milliseconds) of the requests it let through.
 * A request at `now` is admitted when fewer than `maxRequests` of the kept
 * times are later than `now - windowMs`; the admitted history is then the
 * recent times followed by `now`.  A refused request leaves the history as
 * it was.  `Date.now()` is the parameter `now`.
 */
module RateLimiter {
  import opened Wrappers

  const DefaultMaxRequests: int := 100
  const DefaultWindowMs: int := 60000
  const TooManyRequestsStatus: int := 429
  const TooManyRequestsMessage: string := "Too many requests. Please try again later."
  const RateLimitCode: string := "RATE_LIMIT_EXCEEDED"

  /** `times.filter(time => time > windowStart)`. */
  function Recent(times: seq<int>, windowStart: int): (r: seq<int>)
    ensures |r| <= |times|
  {
    if times == [] then []
    else
      (if times[0] > windowStart then [times[0]] else []) + Recent(times[1..], windowStart)
  }

  /** The filter keeps exactly the times after the window start. */
  lemma {:induction false} RecentMembers(times: seq<int>, windowStart: int, t: int)
    ensures t in Recent(times, windowStart) <==> t in times && t > windowStart
  {
    if times != [] {
      RecentMembers(times[1..], windowStart, t);
      assert times == [times[0]] + times[1..];
    }
  }

  /** Filtering twice keeps what the later window start keeps. */
  lemma {:induction false} RecentOfRecent(times: seq<int>, a: int, b: int)
    requires a <= b
    ensures Recent(Recent(times, a), b) == Recent(times, b)
  {
    if times != [] {
      RecentOfRecent(times[1..], a, b);
      var head := if times[0] > a then [times[0]] else [];
      RecentAppendFront(head, Recent(times[1..], a), b);
    }
  }

  lemma {:induction false} RecentAppendFront(xs: seq<int>, ys: seq<int>, w: int)
    ensures Recent(xs + ys, w) == Recent(xs, w) + Recent(ys, w)
  {
    if xs == [] {
      assert xs + ys == ys;
    } else {
      var head := if xs[0] > w then [xs[0]] else [];
      assert (xs + ys)[0] == xs[0];
      assert (xs + ys)[1..] == xs[1..] + ys;
      RecentAppendFront(xs[1..], ys, w);
      assert Recent(xs + ys, w) == head + (Recent(xs[1..], w) + Recent(ys, w));
      assert Recent(xs, w) == head + Recent(xs[1..], w);
      assert head + (Recent(xs[1..], w) + Recent(ys, w)) == (head + Recent(xs[1..], w)) + Recent(ys, w);
    }
  }

  /** The outcome of one request: admitted or not, and the client's history afterwards. */
  datatype Step = Step(allowed: bool, history: seq<int>)

  /** The decision `isAllowed` takes for a client whose kept history is `h`. */
  function Admit(h: seq<int>, maxRequests: int, windowMs: int, now: int): (s: Step)
    ensures s.allowed <==> |Recent(h, now - windowMs)| < maxRequests
    ensures s.allowed ==> s.history == Recent(h, now - windowMs) + [now]
    ensures !s.allowed ==> s.history == h
  {
    var recent := Recent(h, now - windowMs);
    if |recent| >= maxRequests then Step(false, h) else Step(true, recent + [now])
  }

  /** `this.requests.get(ip) || []`. */
  function History(m: map<string, seq<int>>, ip: string): seq<int>
  {
    if ip in m then m[ip] else []
  }

  class RateLimiter {
    var requests: map<string, seq<int>>

    constructor ()
      ensures requests == map[]
    {
      requests := map[];
    }

    /** `isAllowed(ip, maxRequests, windowMs)` at `now`. */
    method IsAllowed(ip: string, maxRequests: int, windowMs: int, now: int) returns (allowed: bool)
      modifies this
      ensures allowed == Admit(History(old(requests), ip), maxRequests, windowMs, now).allowed
      ensures allowed ==> requests == old(requests)[ip := Admit(History(old(requests), ip), maxRequests, windowMs, now).history]
      ensures !allowed ==> requests == old(requests)
    {
      var windowStart := now - windowMs;
      var userRequests := if ip in requests then requests[ip] else [];
      var recentRequests := Recent(userRequests, windowStart);
      if |recentRequests| >= maxRequests {
        return false;
      }
      recentRequests := recentRequests + [now];
      requests := requests[ip := recentRequests];
      allowed := true;
    }

    /** `reset(ip)`: forgets the client. */
    method Reset(ip: string)
      modifies this
      ensures requests == old(requests) - {ip}
    {
      requests := requests - {ip};
    }
  }

  /** The HTTP outcome of the `rateLimit` middleware. */
  datatype Reply = PassOn | Refused(status: int, success: bool, message: string, code: string)

  /** `req.ip || req.socket.remoteAddress || 'unknown'`: absent and empty strings are skipped. */
  function ClientKey(ip: Option<string>, remoteAddress: Option<string>): (k: string)
    ensures k != ""
    ensures ip.Some? && ip.value != "" ==> k == ip.value
    ensures (ip.None? || ip.value == "") && remoteAddress.Some? && remoteAddress.value != "" ==> k == remoteAddress.value
    ensures (ip.None? || ip.value == "") && (remoteAddress.None? || remoteAddress.value == "") ==> k == "unknown"
  {
    if ip.Some? && ip.value != "" then ip.value
    else if remoteAddress.Some? && remoteAddress.value != "" then remoteAddress.value
    else "unknown"
  }

  /** `rateLimit(maxRequests, windowMs)` applied to one request. */
  method RateLimit(limiter: RateLimiter, ip: Option<string>, remoteAddress: Option<string>,
                   maxRequests: int, windowMs: int, now: int) returns (reply: Reply)
    modifies limiter
    ensures var s := Admit(History(old(limiter.requests), ClientKey(ip, remoteAddress)), maxRequests, windowMs, now);
            && (s.allowed ==> reply == PassOn)
            && (!s.allowed ==> reply == Refused(TooManyRequestsStatus, false, TooManyRequestsMessage, RateLimitCode))
    ensures var key := ClientKey(ip, remoteAddress);
            var s := Admit(History(old(limiter.requests), key), maxRequests, windowMs, now);
            limiter.requests == if s.allowed then old(limiter.requests)[key := s.history] else old(limiter.requests)
  {
    var key := ClientKey(ip, remoteAddress);
    var allowed := limiter.IsAllowed(key, maxRequests, windowMs, now);
    if !allowed {
      return Refused(TooManyRequestsStatus, false, TooManyRequestsMessage, RateLimitCode);
    }
    reply := PassOn;
  }

  // ---------------------------------------------------------------------------
  // The limit over a run of requests from one client.

  /** The client's history and the times of the admitted requests, after `calls` from a fresh (or reset) state. */
  datatype Trace = Trace(history: seq<int>, admitted: seq<int>)

  function Replay(calls: seq<int>, maxRequests: int, windowMs: int): Trace
  {
    if calls == [] then Trace([], [])
    else
      var before := Replay(calls[..|calls| - 1], maxRequests, windowMs);
      var now := calls[|calls| - 1];
      var s := Admit(before.history, maxRequests, windowMs, now);
      Trace(s.history, before.admitted + (if s.allowed then [now] else []))
  }

  lemma RecentAppendOne(xs: seq<int>, x: int, w: int)
    ensures Recent(xs + [x], w) == Recent(xs, w) + (if x > w then [x] else [])
  {
    RecentAppendFront(xs, [x], w);
  }

  /** One request, seen from a later time `t`: the agreement between history and admitted requests carries over. */
  lemma AdmitKeepsWindow(history: seq<int>, admitted: seq<int>, maxRequests: int, windowMs: int, now: int, t: int)
    requires now <= t
    requires Recent(history, t - windowMs) == Recent(admitted, t - windowMs)
    requires |history| <= maxRequests
    ensures var s := Admit(history, maxRequests, windowMs, now);
            && Recent(s.history, t - windowMs) == Recent(admitted + (if s.allowed then [now] else []), t - windowMs)
            && |s.history| <= maxRequests
  {
    var s := Admit(history, maxRequests, windowMs, now);
    var ws := t - windowMs;
    if s.allowed {
      var recent := Recent(history, now - windowMs);
      var tail := if now > ws then [now] else [];
      RecentAppendOne(recent, now, ws);
      RecentOfRecent(history, now - windowMs, ws);
      RecentAppendOne(admitted, now, ws);
    } else {
      assert admitted + [] == admitted;
    }
  }

  /**
   * Seen from any time `t` no earlier than every request, the kept history
   * and the admitted requests agree on what lies inside the window, and the
   * history never holds more than `maxRequests` times.
   */
  lemma {:induction false} ReplayKeepsWindow(calls: seq<int>, maxRequests: int, windowMs: int, t: int)
    requires maxRequests >= 0
    requires forall i :: 0 <= i < |calls| ==> calls[i] <= t
    ensures Recent(Replay(calls, maxRequests, windowMs).history, t - windowMs) ==
            Recent(Replay(calls, maxRequests, windowMs).admitted, t - windowMs)
    ensures |Replay(calls, maxRequests, windowMs).history| <= maxRequests
  {
    if calls != [] {
      var init := calls[..|calls| - 1];
      ReplayKeepsWindow(init, maxRequests, windowMs, t);
      var before := Replay(init, maxRequests, windowMs);
      AdmitKeepsWindow(before.history, before.admitted, maxRequests, windowMs, calls[|calls| - 1], t);
    }
  }

  /**
   * The promise of the limiter: for a client starting fresh, at any moment
   * `t` no earlier than its requests, at most `maxRequests` of the admitted
   * requests lie in the window `(t - windowMs, t]`.
   */
  lemma AdmittedWithinWindowAtMostMax(calls: seq<int>, maxRequests: int, windowMs: int, t: int)
    requires maxRequests >= 0
    requires forall i :: 0 <= i < |calls| ==> calls[i] <= t
    ensures |Recent(Replay(calls, maxRequests, windowMs).admitted, t - windowMs)| <= maxRequests
  {
    ReplayKeepsWindow(calls, maxRequests, windowMs, t);
  }

  /** Below the limit a request is admitted, and every admitted request is recorded. */
  lemma AdmittedUnderLimit(h: seq<int>, maxRequests: int, windowMs: int, now: int)
    requires |h| < maxRequests
    ensures Admit(h, maxRequests, windowMs, now).allowed
    ensures now in Admit(h, maxRequests, windowMs, now).history
  {
  }

  /** After `reset`, the next request of that client is admitted when the limit is at least one. */
  lemma ResetClearsLimit(m: map<string, seq<int>>, ip: string, maxRequests: int, windowMs: int, now: int)
    requires maxRequests >= 1
    ensures Admit(History(m - {ip}, ip), maxRequests, windowMs, now) == Step(true, [now])
  {
  }

  /** A request older than the window no longer counts. */
  lemma {:induction false} OldRequestsExpire(h: seq<int>, windowMs: int, now: int)
    requires forall i :: 0 <= i < |h| ==> h[i] <= now - windowMs
    ensures Recent(h, now - windowMs) == []
  {
    if h != [] {
      OldRequestsExpire(h[1..], windowMs, now);
    }
  }
}
