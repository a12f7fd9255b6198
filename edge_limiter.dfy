/**
 * The request filter of `src/middleware.ts`: an in-process fixed-window
 * limiter of 10 requests per minute per client address, applied to the
 * `/blogs-rate-limit` page only. The table from address to window lives in
 * the process and is never pruned.
 */
module EdgeLimiter {
  import opened Wrappers
  import opened JsonValues

  /** The window, in milliseconds. */
  const RateLimitWindow: int := 60 * 1000
  const MaxRequestsPerWindow: int := 10
  const LimitedPath: string := "/blogs-rate-limit"

  /** One address's window: requests counted so far and when the window opened. */
  datatype Window = Window(count: int, timestamp: int)

  /** What the filter reads from a request: the path and the two address headers. */
  datatype EdgeRequest = EdgeRequest(pathname: string, forwardedFor: Option<string>, realIp: Option<string>)

  /** Let the request through, or answer it with status 429. */
  datatype EdgeResponse =
    | Next
    | Refused(status: int, headers: map<string, string>, body: Json)

  const TooManyRequests: EdgeResponse := Refused(
    429,
    map["Content-Type" := "application/json", "Retry-After" := "60"],
    JObject([("error", JString("Too many requests")), ("message", JString("Rate limit exceeded. Please try again later."))]))

  /** `x-forwarded-for || x-real-ip || "unknown-ip"`: the first header that is present and not empty. */
  function ClientIp(request: EdgeRequest): (ip: string)
    ensures ip != ""
    ensures request.forwardedFor.Some? && request.forwardedFor.value != "" ==> ip == request.forwardedFor.value
    ensures (request.forwardedFor.None? || request.forwardedFor.value == "") && request.realIp.Some? && request.realIp.value != ""
      ==> ip == request.realIp.value
    ensures (request.forwardedFor.None? || request.forwardedFor.value == "") && (request.realIp.None? || request.realIp.value == "")
      ==> ip == "unknown-ip"
  {
    if request.forwardedFor.Some? && request.forwardedFor.value != "" then request.forwardedFor.value
    else if request.realIp.Some? && request.realIp.value != "" then request.realIp.value
    else "unknown-ip"
  }

  /** A window counts requests from its opening time on, and has counted at least one. */
  predicate WellFormed(counts: map<string, Window>) {
    forall ip :: ip in counts ==> counts[ip].count >= 1
  }

  /** Whether the request at `now` opens a new window: no entry yet, or the entry is over a minute old. */
  predicate OpensWindow(counts: map<string, Window>, ip: string, now: int) {
    ip !in counts || now - counts[ip].timestamp > RateLimitWindow
  }

  /**
   * One counted request from `ip` at `now`: the table afterwards and whether
   * the request is refused. A refused request still counts.
   */
  function Track(counts: map<string, Window>, ip: string, now: int): (r: (map<string, Window>, bool))
    ensures r.0.Keys == counts.Keys + {ip}
    ensures forall other :: other in counts && other != ip ==> r.0[other] == counts[other]
    ensures OpensWindow(counts, ip, now) ==> r.0[ip] == Window(1, now) && !r.1
    ensures !OpensWindow(counts, ip, now) ==>
      r.0[ip] == Window(counts[ip].count + 1, counts[ip].timestamp)
      && (r.1 <==> counts[ip].count >= MaxRequestsPerWindow)
  {
    if OpensWindow(counts, ip, now) then (counts[ip := Window(1, now)], false)
    else
      var current := counts[ip];
      var updated := Window(current.count + 1, current.timestamp);
      (counts[ip := updated], updated.count > MaxRequestsPerWindow)
  }

  /** Once a window is over a minute old it stays so: a later request opens a new one too. */
  lemma StaleStaysStale(counts: map<string, Window>, ip: string, now: int, later: int)
    requires OpensWindow(counts, ip, now) && now <= later
    ensures OpensWindow(counts, ip, later)
  {
  }

  /** `Track` keeps every window's count positive. */
  lemma TrackWellFormed(counts: map<string, Window>, ip: string, now: int)
    requires WellFormed(counts)
    ensures WellFormed(Track(counts, ip, now).0)
  {
  }

  /** The module-level table and the `middleware` function over it. */
  class RateLimiter {
    var ipRequestCounts: map<string, Window>

    ghost predicate Valid()
      reads this
    {
      WellFormed(ipRequestCounts)
    }

    constructor ()
      ensures ipRequestCounts == map[] && Valid()
    {
      ipRequestCounts := map[];
    }

    /** `middleware(request)`, with `Date.now()` passed in as `now`. */
    method Middleware(request: EdgeRequest, now: int) returns (response: EdgeResponse)
      requires Valid()
      modifies this
      ensures Valid()
      ensures request.pathname != LimitedPath ==> response == Next && ipRequestCounts == old(ipRequestCounts)
      ensures request.pathname == LimitedPath ==>
        var (after, refused) := Track(old(ipRequestCounts), ClientIp(request), now);
        ipRequestCounts == after && response == (if refused then TooManyRequests else Next)
    {
      if request.pathname == LimitedPath {
        var ip := ClientIp(request);
        if ip !in ipRequestCounts || now - ipRequestCounts[ip].timestamp > RateLimitWindow {
          ipRequestCounts := ipRequestCounts[ip := Window(1, now)];
        } else {
          var current := ipRequestCounts[ip];
          ipRequestCounts := ipRequestCounts[ip := Window(current.count + 1, current.timestamp)];
          if current.count + 1 > MaxRequestsPerWindow {
            return TooManyRequests;
          }
        }
      }
      response := Next;
    }
  }

  /** The refusals for a run of counted requests from one address at the given times, and the table afterwards. */
  function Run(counts: map<string, Window>, ip: string, times: seq<int>): (r: (seq<bool>, map<string, Window>))
    ensures |r.0| == |times|
    decreases |times|
  {
    if times == [] then ([], counts)
    else
      var (after, refused) := Track(counts, ip, times[0]);
      var (rest, final) := Run(after, ip, times[1..]);
      ([refused] + rest, final)
  }

  /** Running two batches one after the other is running their concatenation. */
  lemma {:induction false} RunConcat(counts: map<string, Window>, ip: string, first: seq<int>, second: seq<int>)
    ensures Run(counts, ip, first + second) ==
      (Run(counts, ip, first).0 + Run(Run(counts, ip, first).1, ip, second).0, Run(Run(counts, ip, first).1, ip, second).1)
    decreases |first|
  {
    if first != [] {
      var (after, refused) := Track(counts, ip, first[0]);
      assert (first + second)[1..] == first[1..] + second;
      RunConcat(after, ip, first[1..], second);
      var middle := Run(after, ip, first[1..]).1;
      assert Run(counts, ip, first) == ([refused] + Run(after, ip, first[1..]).0, middle);
      assert Run(counts, ip, first + second) == ([refused] + Run(after, ip, first[1..] + second).0, Run(middle, ip, second).1);
      assert [refused] + (Run(after, ip, first[1..]).0 + Run(middle, ip, second).0)
        == ([refused] + Run(after, ip, first[1..]).0) + Run(middle, ip, second).0;
    } else {
      assert first + second == second;
      assert Run(counts, ip, first) == ([], counts);
      assert [] + Run(counts, ip, second).0 == Run(counts, ip, second).0;
    }
  }

  /**
   * Inside an open window that has counted c requests, request k of a run
   * no later than a minute after the opening is refused exactly when
   * c + k + 1 > 10; the window ends up with c + |times| requests.
   */
  lemma {:induction false} WindowRun(counts: map<string, Window>, ip: string, c: int, start: int, times: seq<int>)
    requires ip in counts && counts[ip] == Window(c, start)
    requires forall i :: 0 <= i < |times| ==> times[i] - start <= RateLimitWindow
    ensures forall k :: 0 <= k < |times| ==> (Run(counts, ip, times).0[k] <==> c + k + 1 > MaxRequestsPerWindow)
    ensures ip in Run(counts, ip, times).1 && Run(counts, ip, times).1[ip] == Window(c + |times|, start)
    decreases |times|
  {
    if times != [] {
      var (after, refused) := Track(counts, ip, times[0]);
      WindowRun(after, ip, c + 1, start, times[1..]);
    }
  }

  /**
   * A run that opens a new window and stays within a minute of its first
   * request: the first 10 requests pass and every later one is refused.
   */
  lemma FreshRun(counts: map<string, Window>, ip: string, times: seq<int>)
    requires times != [] && OpensWindow(counts, ip, times[0])
    requires forall i :: 0 <= i < |times| ==> times[i] - times[0] <= RateLimitWindow
    ensures forall k :: 0 <= k < |times| ==> (Run(counts, ip, times).0[k] <==> k >= MaxRequestsPerWindow)
    ensures ip in Run(counts, ip, times).1 && Run(counts, ip, times).1[ip] == Window(|times|, times[0])
  {
    var (after, _) := Track(counts, ip, times[0]);
    WindowRun(after, ip, 1, times[0], times[1..]);
  }

  /** How many requests of a run passed. */
  function Passed(refusals: seq<bool>): (n: nat)
    ensures n <= |refusals|
    decreases |refusals|
  {
    if refusals == [] then 0
    else Passed(refusals[..|refusals| - 1]) + (if refusals[|refusals| - 1] then 0 else 1)
  }

  /** When exactly the requests from index `bound` on are refused, min(n, bound) pass. */
  lemma {:induction false} PassedUpTo(refusals: seq<bool>, bound: nat)
    requires forall k :: 0 <= k < |refusals| ==> (refusals[k] <==> k >= bound)
    ensures Passed(refusals) == if |refusals| < bound then |refusals| else bound
    decreases |refusals|
  {
    if refusals != [] {
      PassedUpTo(refusals[..|refusals| - 1], bound);
    }
  }

  /** Within one minute of opening its window, an address gets exactly min(n, 10) of n requests through. */
  lemma PassedPerWindow(counts: map<string, Window>, ip: string, times: seq<int>)
    requires times != [] && OpensWindow(counts, ip, times[0])
    requires forall i :: 0 <= i < |times| ==> times[i] - times[0] <= RateLimitWindow
    ensures Passed(Run(counts, ip, times).0) == if |times| < MaxRequestsPerWindow then |times| else MaxRequestsPerWindow
  {
    FreshRun(counts, ip, times);
    PassedUpTo(Run(counts, ip, times).0, MaxRequestsPerWindow);
  }

  /**
   * The fixed window lets a burst of twice the limit through across a
   * window boundary: 10 requests at `t` and 10 more at `t + 60001`, all 20
   * pass.
   */
  lemma BoundaryBurst(ip: string, t: int)
    ensures var times := seq(10, _ => t) + seq(10, _ => t + RateLimitWindow + 1);
      Passed(Run(map[], ip, times).0) == 20
  {
    var first := seq(10, _ => t);
    var second := seq(10, _ => t + RateLimitWindow + 1);
    RunConcat(map[], ip, first, second);
    FreshRun(map[], ip, first);
    var middle := Run(map[], ip, first).1;
    FreshRun(middle, ip, second);
    var refusals := Run(map[], ip, first + second).0;
    assert forall k :: 0 <= k < |refusals| ==> !refusals[k];
    PassedUpTo(refusals, 20);
  }
}
