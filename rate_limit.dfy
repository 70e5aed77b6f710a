/** `RateLimitMiddleware` (app/middleware/rate_limit.py): a per-client
    sliding window of one minute. Each client address keeps the times of its
    accepted requests; a request is refused while the address already has
    `maxRequests` of them within the last minute, and every five minutes
    the times older than a minute are dropped. The clock is read twice per
    request (once by the cleanup, once for the decision); both readings are
    parameters here. */
module RateLimit {
  import opened Wrappers

  /** `MAX_REQUESTS_PER_MINUTE`, the default limit. */
  const MaxRequestsPerMinute: int := 10

  /** `CLEANUP_INTERVAL`, in seconds. */
  const CleanupInterval: real := 300.0

  /** The window the limit counts over, in seconds. */
  const Window: real := 60.0

  // ---------------------------------------------------------------------
  // The client address

  /** The characters Python's `str.strip()` removes. */
  predicate IsSpace(c: char)
  {
    || c == ' ' || '\t' <= c <= '\r' || '\U{1C}' <= c <= '\U{1F}'
    || c == '\U{85}' || c == '\U{A0}' || c == '\U{1680}' || '\U{2000}' <= c <= '\U{200A}'
    || c == '\U{2028}' || c == '\U{2029}' || c == '\U{202F}' || c == '\U{205F}' || c == '\U{3000}'
  }

  /** `s.split(",")[0]`: the text before the first comma, or all of it. */
  function FirstField(s: string): (r: string)
    ensures r <= s
    ensures ',' !in r
    ensures |r| < |s| ==> s[|r|] == ','
  {
    if s == [] || s[0] == ',' then []
    else [s[0]] + FirstField(s[1..])
  }

  /** `s.lstrip()` */
  function TrimStart(s: string): (r: string)
    ensures |r| <= |s| && r == s[|s| - |r|..]
    ensures forall k :: 0 <= k < |s| - |r| ==> IsSpace(s[k])
    ensures r == [] || !IsSpace(r[0])
  {
    if s != [] && IsSpace(s[0]) then TrimStart(s[1..]) else s
  }

  /** `s.rstrip()` */
  function TrimEnd(s: string): (r: string)
    ensures r <= s
    ensures forall k :: |r| <= k < |s| ==> IsSpace(s[k])
    ensures r == [] || !IsSpace(r[|r| - 1])
  {
    if s != [] && IsSpace(s[|s| - 1]) then TrimEnd(s[..|s| - 1]) else s
  }

  /** `s.strip()`: `s` without its leading and trailing white space. */
  function Trim(s: string): string
  {
    TrimEnd(TrimStart(s))
  }

  /** The stripped text is a stretch of `s` with only white space around
      it, and it neither starts nor ends with white space. */
  lemma {:induction false} TrimIsStretch(s: string) returns (i: nat, j: nat)
    ensures i <= j <= |s| && Trim(s) == s[i..j]
    ensures forall k :: 0 <= k < i || j <= k < |s| ==> IsSpace(s[k])
    ensures Trim(s) == [] || (!IsSpace(Trim(s)[0]) && !IsSpace(Trim(s)[|Trim(s)| - 1]))
  {
    var u := TrimStart(s);
    var r := TrimEnd(u);
    i := |s| - |u|;
    j := i + |r|;
    InnerStretch(s, u, r, i);
    assert Trim(s) == r;
    assert forall k :: 0 <= k < i ==> IsSpace(s[k]);
    if r != [] {
      assert !IsSpace(r[0]) && !IsSpace(r[|r| - 1]);
    }
  }

  /** A prefix `r` of the suffix `u` of `s` that starts at `i` is the
      stretch `s[i..i + |r|]`, and what follows `r` in `u` follows it in `s`. */
  lemma InnerStretch(s: string, u: string, r: string, i: nat)
    requires i <= |s| && u == s[i..] && r <= u
    requires forall k :: |r| <= k < |u| ==> IsSpace(u[k])
    ensures s[i..i + |r|] == r
    ensures forall k :: i + |r| <= k < |s| ==> IsSpace(s[k])
    ensures r != [] ==> r[0] == u[0]
  {
    forall k | i + |r| <= k < |s| ensures IsSpace(s[k]) {
      assert s[k] == u[k - i];
    }
  }

  /** The stripped text is empty exactly when `s` is all white space. */
  lemma TrimBlank(s: string)
    ensures Trim(s) == [] <==> forall k :: 0 <= k < |s| ==> IsSpace(s[k])
  {
    var i, j := TrimIsStretch(s);
    if Trim(s) != [] {
      assert s[i] == Trim(s)[0];
    }
  }

  /** Stripping twice is stripping once. */
  lemma TrimIdempotent(s: string)
    ensures Trim(Trim(s)) == Trim(s)
  {
    var r := Trim(s);
    var _, _ := TrimIsStretch(s);
    assert r == [] || !IsSpace(r[0]);
    assert TrimStart(r) == r;
    assert r == [] || !IsSpace(r[|r| - 1]);
  }

  /** `_get_client_ip`. */
  function ClientIp(forwardedFor: Option<string>, clientHost: Option<string>): string
  {
    var forwarded := if forwardedFor.Some? then Trim(FirstField(forwardedFor.value)) else [];
    if forwarded != [] then forwarded
    else if clientHost.Some? then clientHost.value
    else "unknown"
  }

  /** The client key is the first entry of `x-forwarded-for`, stripped,
      when the header is there and that entry is not blank: a stretch of
      the header with no comma and no white space at either end. Otherwise
      it is the address of the connection, and "unknown" without one. */
  lemma ClientIpChoice(forwardedFor: Option<string>, clientHost: Option<string>)
    ensures var r := ClientIp(forwardedFor, clientHost);
      if forwardedFor.Some? && Trim(FirstField(forwardedFor.value)) != [] then
        && r == Trim(FirstField(forwardedFor.value))
        && (exists i, j :: 0 <= i <= j <= |forwardedFor.value| && r == forwardedFor.value[i..j])
        && ',' !in r && !IsSpace(r[0]) && !IsSpace(r[|r| - 1])
      else
        r == (if clientHost.Some? then clientHost.value else "unknown")
  {
    if forwardedFor.Some? && Trim(FirstField(forwardedFor.value)) != [] {
      var i, j := FirstEntry(forwardedFor.value);
    }
  }

  /** The stripped first entry of a header is a stretch of it with no comma
      and, unless empty, no white space at either end. */
  lemma FirstEntry(header: string) returns (i: nat, j: nat)
    ensures var r := Trim(FirstField(header));
      && i <= j <= |header| && r == header[i..j] && ',' !in r
      && (r == [] || (!IsSpace(r[0]) && !IsSpace(r[|r| - 1])))
  {
    var field := FirstField(header);
    i, j := TrimIsStretch(field);
    StretchOfPrefix(field, header, i, j);
    StretchKeepsAbsent(field, i, j, ',');
  }

  lemma StretchOfPrefix(p: string, s: string, i: nat, j: nat)
    requires p <= s && i <= j <= |p|
    ensures p[i..j] == s[i..j]
  {
  }

  lemma StretchKeepsAbsent(s: string, i: nat, j: nat, c: char)
    requires c !in s && i <= j <= |s|
    ensures c !in s[i..j]
  {
  }

  // ---------------------------------------------------------------------
  // The window

  /** `[t for t in times if t > cutoff]` */
  function Recent(times: seq<real>, cutoff: real): (r: seq<real>)
    ensures forall t :: t in r <==> t in times && t > cutoff
    ensures |r| <= |times|
  {
    if times == [] then []
    else
      var t := times[|times| - 1];
      var p := Recent(times[..|times| - 1], cutoff);
      assert times == times[..|times| - 1] + [t];
      if t > cutoff then p + [t] else p
  }

  /** Filtering at an earlier cutoff and then at a later one is filtering at
      the later one. */
  lemma {:induction false} RecentTwice(times: seq<real>, c1: real, c2: real)
    requires c1 <= c2
    ensures Recent(Recent(times, c1), c2) == Recent(times, c2)
    decreases |times|
  {
    if times != [] {
      var t := times[|times| - 1];
      var init := times[..|times| - 1];
      RecentTwice(init, c1, c2);
      var p := Recent(init, c1);
      if t > c1 {
        assert (p + [t])[..|p|] == p;
      }
    }
  }

  /** A later cutoff keeps no more times. */
  lemma {:induction false} RecentShrinks(times: seq<real>, c1: real, c2: real)
    requires c1 <= c2
    ensures |Recent(times, c2)| <= |Recent(times, c1)|
    decreases |times|
  {
    if times != [] {
      RecentShrinks(times[..|times| - 1], c1, c2);
    }
  }

  /** A time that is recorded adds one to the count of every window it
      falls in. */
  lemma RecentAppend(times: seq<real>, t: real, cutoff: real)
    ensures Recent(times + [t], cutoff) == Recent(times, cutoff) + (if t > cutoff then [t] else [])
  {
    assert (times + [t])[..|times|] == times;
  }

  /** The times of every address after a cleanup at `cutoff`, without the
      addresses left with none. */
  function Prune(m: map<string, seq<real>>, cutoff: real): (r: map<string, seq<real>>)
    ensures forall ip :: ip in r <==> ip in m && Recent(m[ip], cutoff) != []
    ensures forall ip :: ip in r ==> r[ip] != [] && (forall t :: t in r[ip] <==> t in m[ip] && t > cutoff)
  {
    map ip | ip in m && Recent(m[ip], cutoff) != [] :: Recent(m[ip], cutoff)
  }

  /** The middleware's state: the recorded times per address, and when it
      last cleaned up. */
  datatype State = State(requestTimes: map<string, seq<real>>, lastCleanup: real)

  /** `_cleanup_old_requests` at clock reading `now`: nothing happens less
      than `CleanupInterval` seconds after the last cleanup. */
  function Cleaned(s: State, now: real): (r: State)
    ensures now - s.lastCleanup < CleanupInterval ==> r == s
    ensures now - s.lastCleanup >= CleanupInterval ==> r.lastCleanup == now
    ensures forall ip, t :: ip in r.requestTimes && t in r.requestTimes[ip] ==> ip in s.requestTimes && t in s.requestTimes[ip]
    ensures forall ip :: ip in s.requestTimes && Recent(s.requestTimes[ip], now - Window) != [] ==> ip in r.requestTimes
  {
    if now - s.lastCleanup < CleanupInterval then s
    else
      State(Prune(s.requestTimes, now - Window), now)
  }

  /** `self.request_times[ip]`: reading an address that has no entry
      yields an empty list (and, being a `defaultdict`, inserts it). */
  function TimesOf(m: map<string, seq<real>>, ip: string): seq<real>
  {
    if ip in m then m[ip] else []
  }

  /** A request as the middleware sees it. */
  datatype Request = Request(path: string, httpMethod: string, forwardedFor: Option<string>, clientHost: Option<string>)

  datatype Decision = PassThrough | Accepted | Rejected

  predicate Exempt(req: Request)
  {
    req.path == "/health" || req.httpMethod == "OPTIONS"
  }

  /** `dispatch`: the decision and the new state, with the clock reading
      `cleanupNow` taken by the cleanup and `now` taken for the decision.
      Health checks and preflight requests pass untouched. Otherwise the
      request is refused when its address already has `maxRequests` times
      left by the cleanup within the last minute before `now`, and is
      recorded at `now` otherwise; a refused request records nothing, and
      no other address changes. The two readings are independent: a wall
      clock may step back between them. */
  function Step(s: State, maxRequests: int, req: Request, cleanupNow: real, now: real): (r: (Decision, State))
    ensures Exempt(req) ==> r == (PassThrough, s)
    ensures !Exempt(req) ==>
      var ip := ClientIp(req.forwardedFor, req.clientHost);
      var c := Cleaned(s, cleanupNow);
      && (r.0 == Rejected <==> |Recent(TimesOf(c.requestTimes, ip), now - Window)| >= maxRequests)
      && r.0 != PassThrough
      && r.1.lastCleanup == c.lastCleanup
      && r.1.requestTimes.Keys == c.requestTimes.Keys + {ip}
      && (forall other :: other in c.requestTimes && other != ip ==> r.1.requestTimes[other] == c.requestTimes[other])
      && r.1.requestTimes[ip] == TimesOf(c.requestTimes, ip) + (if r.0 == Accepted then [now] else [])
  {
    if Exempt(req) then (PassThrough, s)
    else
      var c := Cleaned(s, cleanupNow);
      var ip := ClientIp(req.forwardedFor, req.clientHost);
      var times := TimesOf(c.requestTimes, ip);
      if |Recent(times, now - Window)| >= maxRequests then
        (Rejected, State(c.requestTimes[ip := times], c.lastCleanup))
      else
        (Accepted, State(c.requestTimes[ip := times + [now]], c.lastCleanup))
  }

  /** When the decision's clock reading is not earlier than the cleanup's,
      the request is refused exactly when its address already had
      `maxRequests` times within the last minute before the cleanup ran:
      cleanup only drops times that window does not count. */
  lemma RejectedCountsBefore(s: State, maxRequests: int, req: Request, cleanupNow: real, now: real)
    requires cleanupNow <= now && !Exempt(req)
    ensures var ip := ClientIp(req.forwardedFor, req.clientHost);
      (Step(s, maxRequests, req, cleanupNow, now).0 == Rejected
       <==> |Recent(TimesOf(s.requestTimes, ip), now - Window)| >= maxRequests)
  {
    CleanupKeepsWindow(s, cleanupNow, now, ClientIp(req.forwardedFor, req.clientHost));
  }

  /** Cleaning up at `cleanupNow` keeps every time the window at a later
      `now` counts. */
  lemma CleanupKeepsWindow(s: State, cleanupNow: real, now: real, ip: string)
    requires cleanupNow <= now
    ensures Recent(TimesOf(Cleaned(s, cleanupNow).requestTimes, ip), now - Window)
         == Recent(TimesOf(s.requestTimes, ip), now - Window)
  {
    if cleanupNow - s.lastCleanup >= CleanupInterval {
      var l := TimesOf(s.requestTimes, ip);
      var kept := Recent(l, cleanupNow - Window);
      assert Cleaned(s, cleanupNow).requestTimes == Prune(s.requestTimes, cleanupNow - Window);
      RecentTwice(l, cleanupNow - Window, now - Window);
      if ip in s.requestTimes && kept != [] {
        assert TimesOf(Cleaned(s, cleanupNow).requestTimes, ip) == kept;
      } else {
        assert TimesOf(Cleaned(s, cleanupNow).requestTimes, ip) == [];
        assert Recent(kept, now - Window) == [];
      }
    }
  }

  /** No address has more than `maxRequests` times within the minute
      before `clock`. */
  ghost predicate WithinLimit(m: map<string, seq<real>>, maxRequests: int, clock: real)
  {
    forall ip :: ip in m ==> |Recent(m[ip], clock - Window)| <= maxRequests
  }

  /** With a clock that never goes back, no address ever has more than
      `maxRequests` recorded requests within the last minute. */
  lemma DispatchKeepsLimit(s: State, maxRequests: int, req: Request, clock: real, cleanupNow: real, now: real)
    requires 0 <= maxRequests
    requires clock <= cleanupNow <= now
    requires WithinLimit(s.requestTimes, maxRequests, clock)
    ensures WithinLimit(Step(s, maxRequests, req, cleanupNow, now).1.requestTimes, maxRequests, now)
  {
    var m := Step(s, maxRequests, req, cleanupNow, now).1.requestTimes;
    forall ip | ip in m
      ensures |Recent(m[ip], now - Window)| <= maxRequests
    {
      WindowAfterStep(s, maxRequests, req, clock, cleanupNow, now, ip);
    }
  }

  /** One address's count after a step, for `DispatchKeepsLimit`. */
  lemma WindowAfterStep(s: State, maxRequests: int, req: Request, clock: real, cleanupNow: real, now: real, ip: string)
    requires 0 <= maxRequests
    requires clock <= cleanupNow <= now
    requires WithinLimit(s.requestTimes, maxRequests, clock)
    requires ip in Step(s, maxRequests, req, cleanupNow, now).1.requestTimes
    ensures |Recent(Step(s, maxRequests, req, cleanupNow, now).1.requestTimes[ip], now - Window)| <= maxRequests
  {
    var before := TimesOf(s.requestTimes, ip);
    CountBefore(s.requestTimes, maxRequests, clock, now, ip);
    var grow, kept := StepTimes(s, maxRequests, req, cleanupNow, now, ip);
    if grow {
      RecentAppend(kept, now, now - Window);
    }
  }

  /** An address's count at `now` is bounded when every count at an
      earlier `clock` is. */
  lemma CountBefore(m: map<string, seq<real>>, maxRequests: int, clock: real, now: real, ip: string)
    requires 0 <= maxRequests && clock <= now
    requires WithinLimit(m, maxRequests, clock)
    ensures |Recent(TimesOf(m, ip), now - Window)| <= maxRequests
  {
    if ip in m {
      RecentShrinks(m[ip], clock - Window, now - Window);
    }
  }

  /** The times an address has after a step: those it kept through the
      cleanup, which the window at `now` counts as before, and `now` when
      the step records a request for it below the limit. */
  lemma StepTimes(s: State, maxRequests: int, req: Request, cleanupNow: real, now: real, ip: string)
    returns (grow: bool, kept: seq<real>)
    requires cleanupNow <= now
    requires ip in Step(s, maxRequests, req, cleanupNow, now).1.requestTimes
    ensures Recent(kept, now - Window) == Recent(TimesOf(s.requestTimes, ip), now - Window)
    ensures grow ==> |Recent(TimesOf(s.requestTimes, ip), now - Window)| < maxRequests
    ensures Step(s, maxRequests, req, cleanupNow, now).1.requestTimes[ip] == if grow then kept + [now] else kept
  {
    var r := Step(s, maxRequests, req, cleanupNow, now);
    if Exempt(req) {
      grow, kept := false, TimesOf(s.requestTimes, ip);
    } else {
      var c := Cleaned(s, cleanupNow);
      CleanupKeepsWindow(s, cleanupNow, now, ip);
      kept := TimesOf(c.requestTimes, ip);
      grow := ip == ClientIp(req.forwardedFor, req.clientHost) && r.0 == Accepted;
      if !grow {
        assert r.1.requestTimes[ip] == kept + [];
      }
    }
  }

  /** The middleware object. */
  class RateLimitMiddleware {
    const maxRequests: int
    var requestTimes: map<string, seq<real>>
    var lastCleanup: real

    /** A fresh middleware: no address recorded; `now` is the clock when
        it is made. */
    constructor (maxRequests: int, now: real)
      ensures this.maxRequests == maxRequests
      ensures requestTimes == map[] && lastCleanup == now
    {
      this.maxRequests := maxRequests;
      requestTimes := map[];
      lastCleanup := now;
    }

    /** `_cleanup_old_requests`: once `CleanupInterval` seconds have passed,
        it visits every address, keeps its times within the minute before
        `now` and drops the address if none is left. */
    method CleanupOldRequests(now: real)
      modifies this
      ensures State(requestTimes, lastCleanup) == Cleaned(old(State(requestTimes, lastCleanup)), now)
    {
      if now - lastCleanup < CleanupInterval {
        return;
      }
      var cutoff := now - Window;
      ghost var before := requestTimes;
      var ips := requestTimes.Keys;
      while ips != {}
        invariant ips <= before.Keys
        invariant forall ip :: ip in ips ==> ip in requestTimes && requestTimes[ip] == before[ip]
        invariant forall ip :: ip in before && ip !in ips ==>
          (ip in requestTimes <==> Recent(before[ip], cutoff) != [])
          && (ip in requestTimes ==> requestTimes[ip] == Recent(before[ip], cutoff))
        invariant requestTimes.Keys <= before.Keys
        decreases |ips|
      {
        var ip :| ip in ips;
        var kept := Recent(requestTimes[ip], cutoff);
        if kept == [] {
          requestTimes := requestTimes - {ip};
        } else {
          requestTimes := requestTimes[ip := kept];
        }
        ips := ips - {ip};
      }
      assert requestTimes == Prune(before, cutoff);
      lastCleanup := now;
    }

    /** The decision of `dispatch`, with `cleanupNow` the clock the cleanup
        reads and `now` the clock the decision reads. */
    method Dispatch(req: Request, cleanupNow: real, now: real) returns (d: Decision)
      modifies this
      ensures (d, State(requestTimes, lastCleanup))
           == Step(old(State(requestTimes, lastCleanup)), maxRequests, req, cleanupNow, now)
    {
      if req.path == "/health" {
        return PassThrough;
      }
      if req.httpMethod == "OPTIONS" {
        return PassThrough;
      }
      CleanupOldRequests(cleanupNow);
      ghost var cleaned := requestTimes;
      var clientIp := ClientIp(req.forwardedFor, req.clientHost);
      var cutoff := now - Window;
      if clientIp !in requestTimes {
        requestTimes := requestTimes[clientIp := []];
      }
      assert requestTimes == cleaned[clientIp := TimesOf(cleaned, clientIp)];
      var recentRequests := Recent(requestTimes[clientIp], cutoff);
      if |recentRequests| >= maxRequests {
        return Rejected;
      }
      requestTimes := requestTimes[clientIp := requestTimes[clientIp] + [now]];
      assert requestTimes == cleaned[clientIp := TimesOf(cleaned, clientIp) + [now]];
      d := Accepted;
    }
  }
}
