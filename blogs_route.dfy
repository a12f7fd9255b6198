/**
 * The blog-listing endpoint of `src/app/api/blogs2/route.ts`: a
 * fixed-window limiter of 20 requests per 60 seconds per caller, kept as a
 * counter in the shared store under `ratelimit:<ip>`, in front of the
 * content fetch. Any failure of the store lets the request through without
 * rate-limit headers ("fail open").
 */
module BlogsRoute {
  import opened Wrappers
  import opened JsNumbers
  import opened KvStore
  import opened JsonValues
  import opened RedisCache

  const RateLimitMax: int := 20
  /** The window, in seconds. */
  const RateLimitWindow: int := 60
  const KeyPrefix: string := "ratelimit:"

  /** `ratelimit:${x-forwarded-for || "unknown"}`; an empty header counts as missing. */
  function RateLimitKey(forwardedFor: Option<string>): (key: string)
    ensures forwardedFor.Some? && forwardedFor.value != "" ==> key == KeyPrefix + forwardedFor.value
    ensures forwardedFor.None? || forwardedFor.value == "" ==> key == KeyPrefix + "unknown"
  {
    KeyPrefix + (if forwardedFor.Some? && forwardedFor.value != "" then forwardedFor.value else "unknown")
  }

  /** `currentCount ? Number.parseInt(currentCount) : 0`. */
  function StoredCount(current: Option<string>): (count: IntOrNaN)
    ensures current.None? || current == Some("") ==> count == Int(0)
    ensures current.Some? && current.value != "" ==> count == ParseInt(current.value)
  {
    match current
    case None => Int(0)
    case Some(text) => if text == "" then Int(0) else ParseInt(text)
  }

  /** The metadata handed to `handleRequest` when the whole check ran. */
  datatype RateLimitInfo = RateLimitInfo(limit: int, remaining: int, reset: int)

  /** Which store command of GET's `try` block throws, if any. */
  datatype Fault = NoFault | GetFails | WriteFails | TtlFails

  /** The limiter's verdict: go on to the content fetch (with or without metadata), or refuse. */
  datatype Verdict = Proceed(info: Option<RateLimitInfo>) | TooMany

  /** `Math.floor(Date.now() / 1000) + (ttl > 0 ? ttl : RATE_LIMIT_WINDOW)`, with `now` in milliseconds. */
  function ResetTime(now: int, ttl: int): (reset: int)
    ensures ttl > 0 ==> reset * 1000 <= now + ttl * 1000 < (reset + 1) * 1000
    ensures ttl <= 0 ==> reset * 1000 <= now + RateLimitWindow * 1000 < (reset + 1) * 1000
    ensures reset > now / 1000
  {
    now / 1000 + (if ttl > 0 then ttl else RateLimitWindow)
  }

  /**
   * The store after the counter update: a zero count (re)creates the
   * counter as "1" with the window as expiry, anything else is an INCR,
   * which errors (`None`) on a value that is not an integer.
   */
  function Bumped(data: map<string, Entry>, key: string, now: int, count: IntOrNaN): (r: Option<map<string, Entry>>)
    ensures count == Int(0) ==> r.Some? && key in r.value && r.value[key] == Entry("1", Some(ExpiryDeadline(now, RateLimitWindow)))
    ensures r.Some? ==> r.value.Keys == data.Keys + {key}
    ensures r.Some? ==> forall k :: k in data && k != key ==> r.value[k] == data[k]
  {
    if count == Int(0) then Some(data[key := Entry("1", Some(ExpiryDeadline(now, RateLimitWindow)))])
    else
      match Incremented(data, key, now)
      case None => None
      case Some(next) => Some(data[key := next.0])
  }

  /** An update that went through was made on a count that is a number. */
  lemma BumpedCountIsNumber(data: map<string, Entry>, key: string, now: int)
    requires Bumped(data, key, now, StoredCount(Lookup(data, key, now))).Some?
    ensures StoredCount(Lookup(data, key, now)).Int?
  {
    var count := StoredCount(Lookup(data, key, now));
    if count != Int(0) {
      var e := LiveEntry(data, key, now).value;
      var n := StoredInt(e.value).value;
      ParseIntToString(n);
    }
  }

  /**
   * The rate-limit part of GET once a client exists: the verdict and the
   * store afterwards. `fault` names the command that throws.
   */
  function Admission(data: map<string, Entry>, key: string, now: int, fault: Fault): (r: (Verdict, map<string, Entry>))
    ensures fault == GetFails ==> r == (Proceed(None), data)
    ensures r.0.TooMany? ==> r.1 == data
    ensures fault != NoFault ==> r.0.TooMany? || r.0 == Proceed(None)
    ensures r.0.Proceed? && r.0.info.Some? ==> r.0.info.value.limit == RateLimitMax
    ensures r.0.Proceed? && r.0.info.Some? ==> r.0.info.value.reset > now / 1000
    ensures r.1.Keys <= data.Keys + {key}
    ensures forall k :: k in data && k != key ==> k in r.1 && r.1[k] == data[k]
  {
    if fault == GetFails then (Proceed(None), data)
    else
      var count := StoredCount(Lookup(data, key, now));
      if count.Int? && count.value >= RateLimitMax then (TooMany, data)
      else if fault == WriteFails then (Proceed(None), data)
      else
        match Bumped(data, key, now, count)
        case None => (Proceed(None), data)
        case Some(updated) =>
          if fault == NoFault then
            BumpedCountIsNumber(data, key, now);
            var info := RateLimitInfo(RateLimitMax, RateLimitMax - count.value - 1, ResetTime(now, TtlOf(updated, key, now)));
            (Proceed(Some(info)), updated)
          else (Proceed(None), updated)
  }

  /** A response: status, JSON body and headers. */
  datatype HttpResponse = HttpResponse(status: int, body: Json, headers: map<string, string>)

  function ErrorBody(message: string): Json {
    JObject([("error", JString(message))])
  }

  /** The answer to a refused request: status 500 (not 429) with no headers. */
  const TooManyResponse: HttpResponse := HttpResponse(500, ErrorBody("Too many requests"), map[])

  /**
   * `handleRequest(rateLimit?)`: `blogs` is what the content fetch returned,
   * or `None` when it threw.
   */
  function HandleRequest(info: Option<RateLimitInfo>, blogs: Option<Json>): (resp: HttpResponse)
    ensures blogs.None? ==> resp == HttpResponse(500, ErrorBody("Internal server error"), map[])
    ensures blogs.Some? ==> resp.status == 200 && resp.body == blogs.value
    ensures blogs.Some? && info.None? ==> resp.headers == map[]
    ensures blogs.Some? && info.Some? ==> resp.headers == map[
      "X-RateLimit-Limit" := IntToString(info.value.limit),
      "X-RateLimit-Remaining" := IntToString(info.value.remaining),
      "X-RateLimit-Reset" := IntToString(info.value.reset)]
  {
    match blogs
    case None => HttpResponse(500, ErrorBody("Internal server error"), map[])
    case Some(found) =>
      var headers := match info
        case None => map[]
        case Some(i) => map[
          "X-RateLimit-Limit" := IntToString(i.limit),
          "X-RateLimit-Remaining" := IntToString(i.remaining),
          "X-RateLimit-Reset" := IntToString(i.reset)];
      HttpResponse(200, found, headers)
  }

  /** The response GET sends for a verdict. */
  function Respond(verdict: Verdict, blogs: Option<Json>): (resp: HttpResponse)
    ensures verdict.TooMany? ==> resp == TooManyResponse
    ensures resp.status == 200 <==> verdict.Proceed? && blogs.Some?
    ensures resp.headers != map[] ==> verdict.Proceed? && verdict.info.Some? && blogs.Some?
  {
    match verdict
    case TooMany => TooManyResponse
    case Proceed(info) => HandleRequest(info, blogs)
  }

  /** `count === 0 ? SET key 1 EX 60 : INCR key`; false when the command errors. */
  method UpdateCounter(redis: Store, key: string, now: int, count: IntOrNaN, fail: bool) returns (ok: bool)
    modifies redis
    ensures ok == (!fail && Bumped(old(redis.data), key, now, count).Some?)
    ensures redis.data == if ok then Bumped(old(redis.data), key, now, count).value else old(redis.data)
  {
    if count == Int(0) {
      ok := redis.SetEx(key, "1", RateLimitWindow, now, fail);
    } else {
      var incremented := redis.Incr(key, now, fail);
      ok := incremented.Ok?;
    }
  }

  /** The `try` block of `GET` once a client exists: the store commands one by one. */
  method CheckRateLimit(redis: Store, key: string, now: int, fault: Fault) returns (verdict: Verdict)
    modifies redis
    ensures (verdict, redis.data) == Admission(old(redis.data), key, now, fault)
  {
    var current := redis.Get(key, now, fault == GetFails);
    if current.Err? {
      return Proceed(None);
    }
    var count := StoredCount(current.value);
    if count.Int? && count.value >= RateLimitMax {
      return TooMany;
    }
    var written := UpdateCounter(redis, key, now, count, fault == WriteFails);
    if !written {
      return Proceed(None);
    }
    var ttl := redis.Ttl(key, now, fault == TtlFails);
    if ttl.Err? {
      return Proceed(None);
    }
    BumpedCountIsNumber(old(redis.data), key, now);
    verdict := Proceed(Some(RateLimitInfo(RateLimitMax, RateLimitMax - count.value - 1, ResetTime(now, ttl.value))));
  }

  /** `GET(req)`: the rate-limit check, then the content fetch unless refused. */
  method Get(cell: ClientCell, forwardedFor: Option<string>, now: int, fault: Fault, blogs: Option<Json>)
    returns (resp: HttpResponse)
    requires cell.Valid()
    modifies cell, cell.server
    ensures cell.Valid() && cell.client == old(cell.Connected())
    ensures cell.client == null ==> resp == HandleRequest(None, blogs) && cell.server.data == old(cell.server.data)
    ensures cell.client != null ==>
      var (verdict, after) := Admission(old(cell.server.data), RateLimitKey(forwardedFor), now, fault);
      resp == Respond(verdict, blogs) && cell.server.data == after
  {
    var key := RateLimitKey(forwardedFor);
    var redis := cell.GetClient();
    if redis == null {
      return HandleRequest(None, blogs);
    }
    var verdict := CheckRateLimit(redis, key, now, fault);
    resp := Respond(verdict, blogs);
  }

  /** A request is refused exactly when the stored count, read without error, is 20 or more; the store is then untouched. */
  lemma RefusedExactlyAtLimit(data: map<string, Entry>, key: string, now: int, fault: Fault)
    ensures Admission(data, key, now, fault).0 == TooMany <==>
      fault != GetFails && StoredCount(Lookup(data, key, now)).Int? && StoredCount(Lookup(data, key, now)).value >= RateLimitMax
    ensures Admission(data, key, now, fault).0 == TooMany ==> Admission(data, key, now, fault).1 == data
  {
  }

  /** An absent, empty or zero counter is (re)created as 1 with a 60-second expiry. */
  lemma AdmitCreates(data: map<string, Entry>, key: string, now: int)
    requires StoredCount(Lookup(data, key, now)) == Int(0)
    ensures Admission(data, key, now, NoFault) == (
      Proceed(Some(RateLimitInfo(RateLimitMax, RateLimitMax - 1, now / 1000 + RateLimitWindow))),
      data[key := Entry("1", Some(ExpiryDeadline(now, RateLimitWindow)))])
  {
    var updated := data[key := Entry("1", Some(ExpiryDeadline(now, RateLimitWindow)))];
    assert TtlOf(updated, key, now) == 60;
  }

  /** A counter holding c (1 <= c < 20) goes to c + 1, keeps its deadline, and leaves 19 - c requests. */
  lemma AdmitIncrements(data: map<string, Entry>, key: string, now: int, c: int, deadline: Option<int>)
    requires 1 <= c < RateLimitMax
    requires key in data && data[key] == Entry(IntToString(c), deadline) && IsLive(data[key], now)
    ensures Admission(data, key, now, NoFault).1 == data[key := Entry(IntToString(c + 1), deadline)]
    ensures Admission(data, key, now, NoFault).0.Proceed?
    ensures Admission(data, key, now, NoFault).0.info.Some?
    ensures Admission(data, key, now, NoFault).0.info.value.remaining == RateLimitMax - c - 1
    ensures 0 <= Admission(data, key, now, NoFault).0.info.value.remaining < RateLimitMax - 1
  {
    ParseIntToString(c);
    StoredIntOfString(c);
    var count := StoredCount(Lookup(data, key, now));
    assert count == Int(c);
    var updated := data[key := Entry(IntToString(c + 1), deadline)];
    assert Incremented(data, key, now) == Some((Entry(IntToString(c + 1), deadline), c + 1));
    assert Bumped(data, key, now, count) == Some(updated);
  }

  /**
   * Fail open: when a command throws, the request goes on without
   * metadata (or is refused, when the read itself succeeded and was over
   * the limit); with no metadata no `X-RateLimit-*` header is sent.
   */
  lemma FailOpen(data: map<string, Entry>, key: string, now: int, fault: Fault, blogs: Option<Json>)
    requires fault != NoFault
    ensures Admission(data, key, now, fault).0 == Proceed(None) || Admission(data, key, now, fault).0 == TooMany
    ensures fault == GetFails ==> Admission(data, key, now, fault) == (Proceed(None), data)
    ensures Respond(Admission(data, key, now, fault).0, blogs).headers == map[]
  {
  }

  /**
   * A value `parseInt` cannot read never reaches the limit test, and INCR
   * refuses it: the request goes on without metadata and the value stays.
   */
  lemma UnreadableCounterFailsOpen(data: map<string, Entry>, key: string, now: int, fault: Fault)
    requires fault != GetFails
    requires StoredCount(Lookup(data, key, now)).NaN?
    ensures Admission(data, key, now, fault) == (Proceed(None), data)
  {
    var count := StoredCount(Lookup(data, key, now));
    if fault != WriteFails && Bumped(data, key, now, count).Some? {
      BumpedCountIsNumber(data, key, now);
    }
  }

  /** GET applied to a run of requests at the given times, without failures. */
  function Replay(data: map<string, Entry>, key: string, times: seq<int>): (r: (seq<Verdict>, map<string, Entry>))
    ensures |r.0| == |times|
    decreases |times|
  {
    if times == [] then ([], data)
    else
      var (verdict, after) := Admission(data, key, times[0], NoFault);
      var (rest, final) := Replay(after, key, times[1..]);
      ([verdict] + rest, final)
  }

  /** How many verdicts let the request through. */
  function Admitted(verdicts: seq<Verdict>): (n: nat)
    ensures n <= |verdicts|
    decreases |verdicts|
  {
    if verdicts == [] then 0
    else Admitted(verdicts[..|verdicts| - 1]) + (if verdicts[|verdicts| - 1].Proceed? then 1 else 0)
  }

  /** The counter value after n requests on one key in a window: it stops at the limit. */
  function Capped(n: int): int {
    if n < RateLimitMax then n else RateLimitMax
  }

  /** One request on a live counter holding c (1 <= c <= 20): it goes to c + 1, or, at 20, the request is refused. */
  lemma CounterStep(data: map<string, Entry>, key: string, now: int, c: int, deadline: int)
    requires 1 <= c <= RateLimitMax
    requires key in data && data[key] == Entry(IntToString(c), Some(deadline)) && now <= deadline
    ensures c < RateLimitMax ==>
      && Admission(data, key, now, NoFault).0.Proceed? && Admission(data, key, now, NoFault).0.info.Some?
      && Admission(data, key, now, NoFault).0.info.value.remaining == RateLimitMax - c - 1
      && Admission(data, key, now, NoFault).1 == data[key := Entry(IntToString(c + 1), Some(deadline))]
    ensures c == RateLimitMax ==> Admission(data, key, now, NoFault) == (TooMany, data)
  {
    ParseIntToString(c);
    assert StoredCount(Lookup(data, key, now)) == Int(c);
    if c < RateLimitMax {
      AdmitIncrements(data, key, now, c, Some(deadline));
    }
  }

  /** A run on one key: the first verdict, then the run from the state the first request leaves. */
  lemma ReplayCons(data: map<string, Entry>, key: string, times: seq<int>)
    requires times != []
    ensures Replay(data, key, times).0 ==
      [Admission(data, key, times[0], NoFault).0] + Replay(Admission(data, key, times[0], NoFault).1, key, times[1..]).0
    ensures Replay(data, key, times).1 == Replay(Admission(data, key, times[0], NoFault).1, key, times[1..]).1
  {
  }

  /**
   * Inside a live window whose counter holds c (1 <= c <= 20), request k of
   * a run is let through with 19 - (c + k) remaining while c + k < 20 and
   * refused after that.
   */
  lemma {:induction false} WindowReplay(data: map<string, Entry>, key: string, c: int, deadline: int, times: seq<int>)
    requires 1 <= c <= RateLimitMax
    requires key in data && data[key] == Entry(IntToString(c), Some(deadline))
    requires forall i :: 0 <= i < |times| ==> times[i] <= deadline
    ensures forall k :: 0 <= k < |times| && c + k < RateLimitMax ==>
      Replay(data, key, times).0[k].Proceed? && Replay(data, key, times).0[k].info.Some?
      && Replay(data, key, times).0[k].info.value.remaining == RateLimitMax - (c + k) - 1
    ensures forall k :: 0 <= k < |times| && c + k >= RateLimitMax ==> Replay(data, key, times).0[k] == TooMany
    decreases |times|
  {
    if times != [] {
      CounterStep(data, key, times[0], c, deadline);
      ReplayCons(data, key, times);
      var (verdict, after) := Admission(data, key, times[0], NoFault);
      var next := if c < RateLimitMax then c + 1 else c;
      WindowReplay(after, key, next, deadline, times[1..]);
      var verdicts := Replay(data, key, times).0;
      var rest := Replay(after, key, times[1..]).0;
      forall k | 0 <= k < |times|
        ensures c + k < RateLimitMax ==>
          verdicts[k].Proceed? && verdicts[k].info.Some? && verdicts[k].info.value.remaining == RateLimitMax - (c + k) - 1
        ensures c + k >= RateLimitMax ==> verdicts[k] == TooMany
      {
        if k > 0 {
          assert verdicts[k] == rest[k - 1];
        }
      }
    }
  }

  /** The counter of such a run stops at 20 and keeps its deadline. */
  lemma {:induction false} WindowReplayCounter(data: map<string, Entry>, key: string, c: int, deadline: int, times: seq<int>)
    requires 1 <= c <= RateLimitMax
    requires key in data && data[key] == Entry(IntToString(c), Some(deadline))
    requires forall i :: 0 <= i < |times| ==> times[i] <= deadline
    ensures key in Replay(data, key, times).1
    ensures Replay(data, key, times).1[key] == Entry(IntToString(Capped(c + |times|)), Some(deadline))
    decreases |times|
  {
    if times != [] {
      CounterStep(data, key, times[0], c, deadline);
      ReplayCons(data, key, times);
      var after := Admission(data, key, times[0], NoFault).1;
      var next := if c < RateLimitMax then c + 1 else c;
      WindowReplayCounter(after, key, next, deadline, times[1..]);
      assert Capped(next + |times[1..]|) == Capped(c + |times|);
    }
  }

  /**
   * A fresh window: the first request (no live counter) starts it at
   * `times[0]`; while later requests arrive before the window's deadline,
   * request k (k < 20) gets `remaining` = 19 - k and every later one is refused.
   */
  lemma FreshWindow(data: map<string, Entry>, key: string, times: seq<int>)
    requires times != [] && Lookup(data, key, times[0]).None?
    requires forall i :: 0 <= i < |times| ==> times[i] <= ExpiryDeadline(times[0], RateLimitWindow)
    ensures forall k :: 0 <= k < |times| && k < RateLimitMax ==>
      Replay(data, key, times).0[k].Proceed? && Replay(data, key, times).0[k].info.Some?
      && Replay(data, key, times).0[k].info.value.remaining == RateLimitMax - (k + 1)
    ensures forall k :: RateLimitMax <= k < |times| ==> Replay(data, key, times).0[k].TooMany?
  {
    var start := times[0];
    AdmitCreates(data, key, start);
    var after := Admission(data, key, start, NoFault).1;
    assert IntToString(1) == "1";
    WindowReplay(after, key, 1, ExpiryDeadline(start, RateLimitWindow), times[1..]);
  }

  /** Refusals from index `bound` on mean at most `bound` requests got through. */
  lemma {:induction false} AdmittedBound(verdicts: seq<Verdict>, bound: nat)
    requires forall k :: bound <= k < |verdicts| ==> verdicts[k].TooMany?
    ensures Admitted(verdicts) <= bound
    decreases |verdicts|
  {
    if |verdicts| > bound {
      AdmittedBound(verdicts[..|verdicts| - 1], bound);
    }
  }

  /** Within one window at most 20 requests per key get through (sequential requests only). */
  lemma AtMostLimitPerWindow(data: map<string, Entry>, key: string, times: seq<int>)
    requires times != [] && Lookup(data, key, times[0]).None?
    requires forall i :: 0 <= i < |times| ==> times[i] <= ExpiryDeadline(times[0], RateLimitWindow)
    ensures Admitted(Replay(data, key, times).0) <= RateLimitMax
  {
    var verdicts := Replay(data, key, times).0;
    FreshWindow(data, key, times);
    assert forall k :: RateLimitMax <= k < |verdicts| ==> verdicts[k].TooMany?;
    AdmittedBound(verdicts, RateLimitMax);
  }

  // --------------------------------------------------- the linked import

  /**
   * GET as the module is linked: `getRedisClient` is imported by name, but
   * `src/utils/redis-cache.ts` exports it only inside its default object,
   * so the binding is `undefined` and calling it throws inside the `try`.
   * The `catch` then answers as for any other store failure, whatever the
   * counter holds.
   */
  function GetAsWritten(blogs: Option<Json>): (resp: HttpResponse)
    ensures resp.headers == map[]
    ensures resp.status == 200 <==> blogs.Some?
    ensures resp != TooManyResponse
  {
    HandleRequest(None, blogs)
  }

  /** A caller whose counter reached the limit: with a client the request is refused, as linked it is served. */
  lemma LimitIgnoredAsWritten(data: map<string, Entry>, key: string, now: int, blogs: Option<Json>)
    requires Lookup(data, key, now) == Some(IntToString(RateLimitMax))
    ensures Respond(Admission(data, key, now, NoFault).0, blogs) == TooManyResponse
    ensures GetAsWritten(blogs) != TooManyResponse
  {
    ParseIntToString(RateLimitMax);
  }

  // ------------------------------------------------ the lost expiry

  /**
   * GET reads the count at one instant and INCR runs at a later one. A
   * counter whose text reads as a nonzero count, read at its deadline and
   * incremented a millisecond later, is gone by then, so INCR re-creates
   * it as "1" without any expiry, and it never expires.
   */
  lemma CounterLosesExpiry(key: string, text: string, deadline: int)
    requires StoredCount(Some(text)) != Int(0)
    ensures var data := map[key := Entry(text, Some(deadline))];
      && Lookup(data, key, deadline) == Some(text)
      && Bumped(data, key, deadline + 1, StoredCount(Lookup(data, key, deadline))) == Some(map[key := Entry("1", None)])
    ensures forall later :: Lookup(map[key := Entry("1", None)], key, later) == Some("1")
  {
    var data := map[key := Entry(text, Some(deadline))];
    assert key in data && data[key] == Entry(text, Some(deadline));
    assert LiveEntry(data, key, deadline) == Some(data[key]);
    BumpExpired(data, key, deadline + 1, StoredCount(Some(text)));
    assert data[key := Entry("1", None)] == map[key := Entry("1", None)];
    forall later
      ensures Lookup(map[key := Entry("1", None)], key, later) == Some("1")
    {
      assert IsLive(Entry("1", None), later);
    }
  }

  /** INCR on an expired counter re-creates it as "1", with no expiry. */
  lemma BumpExpired(data: map<string, Entry>, key: string, now: int, count: IntOrNaN)
    requires key in data && !IsLive(data[key], now)
    requires count != Int(0)
    ensures Bumped(data, key, now, count) == Some(data[key := Entry("1", None)])
  {
  }

  /**
   * The counter update with the expiry restored: when INCR answers 1 the
   * counter was just created, and it is given the window as its expiry.
   */
  function GuardedBump(data: map<string, Entry>, key: string, now: int, count: IntOrNaN): (r: Option<map<string, Entry>>)
    ensures r.Some? ==> r.value.Keys == data.Keys + {key}
    ensures r.Some? ==> forall k :: k in data && k != key ==> r.value[k] == data[k]
  {
    if count == Int(0) then Some(data[key := Entry("1", Some(ExpiryDeadline(now, RateLimitWindow)))])
    else
      match Incremented(data, key, now)
      case None => None
      case Some((entry, reply)) =>
        if reply == 1 then Some(data[key := Entry(entry.value, Some(ExpiryDeadline(now, RateLimitWindow)))])
        else Some(data[key := entry])
  }

  /**
   * Whatever count was read, and however late the update runs, a counter
   * that carried an expiry at most one window ahead still does afterwards.
   */
  lemma GuardedBumpKeepsExpiry(data: map<string, Entry>, key: string, now: int, count: IntOrNaN)
    requires key in data ==> data[key].deadline.Some? && data[key].deadline.value <= ExpiryDeadline(now, RateLimitWindow)
    ensures GuardedBump(data, key, now, count).Some? ==>
      && key in GuardedBump(data, key, now, count).value
      && GuardedBump(data, key, now, count).value[key].deadline.Some?
      && GuardedBump(data, key, now, count).value[key].deadline.value <= ExpiryDeadline(now, RateLimitWindow)
  {
  }

  /**
   * When the count is read at the instant of the update, INCR never answers
   * 1, so the guarded update is the update GET makes.
   */
  lemma GuardedBumpAgrees(data: map<string, Entry>, key: string, now: int)
    ensures GuardedBump(data, key, now, StoredCount(Lookup(data, key, now))) ==
      Bumped(data, key, now, StoredCount(Lookup(data, key, now)))
  {
    var count := StoredCount(Lookup(data, key, now));
    if count != Int(0) {
      assert IntToString(0) == "0";
      ParseIntToString(0);
      match Incremented(data, key, now)
      case None =>
      case Some((entry, reply)) =>
        assert LiveEntry(data, key, now).Some?;
        assert reply != 1;
    }
  }
}
