/**
 * The cache-aside layer of `src/utils/redis-cache.ts`: the once-only
 * client cell, the reconnect delay, `getCache` / `setCache` /
 * `deleteCache` / `deleteCacheByPattern` over the store, and the decisions
 * `cacheMiddleware` takes for one request. Every operation turns a missing
 * client or a failing command into `null` or `false` instead of throwing.
 */
module RedisCache {
  import opened Wrappers
  import opened KvStore
  import opened JsonValues

  const RetryStepMs: int := 50
  const MaxRetryDelayMs: int := 2000

  /** The reconnect delay ioredis waits before attempt number `times`: linear, capped at two seconds. */
  function RetryDelay(times: int): (delay: int)
    ensures delay <= MaxRetryDelayMs && delay <= times * RetryStepMs
    ensures delay == times * RetryStepMs || delay == MaxRetryDelayMs
  {
    if times * RetryStepMs < MaxRetryDelayMs then times * RetryStepMs else MaxRetryDelayMs
  }

  /** Later attempts never wait less. */
  lemma RetryDelayMonotone(earlier: int, later: int)
    requires earlier <= later
    ensures RetryDelay(earlier) <= RetryDelay(later)
  {
  }

  /**
   * The module-level `redisClient` cell. `server` is the store the
   * configured URL names; `initThrows` says whether constructing a client
   * for it throws. A constructed client is kept for good; after a throw the
   * cell stays empty and the next call tries again.
   */
  class ClientCell {
    const server: Store
    const initThrows: bool
    var client: Store?

    ghost predicate Valid()
      reads this
    {
      client == null || client == server
    }

    /** The client a call of `getRedisClient` hands out (and keeps) from this state on. */
    ghost function Connected(): Store?
      reads this
    {
      if client != null then client else if initThrows then null else server
    }

    constructor (server: Store, initThrows: bool)
      ensures this.server == server && this.initThrows == initThrows
      ensures client == null && Valid()
    {
      this.server := server;
      this.initThrows := initThrows;
      client := null;
    }

    /** `getRedisClient`. */
    method GetClient() returns (c: Store?)
      requires Valid()
      modifies this
      ensures Valid()
      ensures old(client) != null ==> c == old(client)
      ensures c == client && client == old(Connected())
    {
      if client != null {
        return client;
      }
      if initThrows {
        return null;
      }
      client := server;
      c := client;
    }
  }

  /** A second call hands out the very client the first one created. */
  method GetClientTwice(cell: ClientCell) returns (first: Store?, second: Store?)
    requires cell.Valid()
    modifies cell
    ensures first != null ==> second == first
    ensures first == null <==> cell.initThrows && old(cell.client) == null
  {
    first := cell.GetClient();
    second := cell.GetClient();
  }

  /**
   * What `getCache` makes of the reply to its GET: a missing or empty value,
   * a value `JSON.parse` rejects, and an error all give `null`.
   */
  function ReadBack(reply: Reply<Option<string>>, codec: Codec): (v: Json)
    ensures reply.Err? || reply == Ok(None) || reply == Ok(Some("")) ==> v == JNull
    ensures reply.Ok? && reply.value.Some? && reply.value.value != "" && codec.parse(reply.value.value).Some?
      ==> v == codec.parse(reply.value.value).value
  {
    match reply
    case Err => JNull
    case Ok(None) => JNull
    case Ok(Some(text)) =>
      if text == "" then JNull
      else match codec.parse(text)
        case None => JNull
        case Some(v) => v
  }

  /** `getCache(key)`, with `JNull` for JavaScript's `null`. */
  method GetCache(cell: ClientCell, key: string, codec: Codec, now: int, fail: bool) returns (v: Json)
    requires cell.Valid()
    modifies cell
    ensures cell.Valid() && cell.client == old(cell.Connected())
    ensures cell.client == null ==> v == JNull
    ensures cell.client != null ==> v == ReadBack(if fail then Err else Ok(Lookup(cell.server.data, key, now)), codec)
  {
    var client := cell.GetClient();
    if client == null {
      return JNull;
    }
    var reply := client.Get(key, now, fail);
    v := ReadBack(reply, codec);
  }

  const DefaultTtlSeconds: int := 300

  /** `setCache(key, data, expiryInSeconds = 300)`. */
  method SetCache(cell: ClientCell, key: string, data: Json, codec: Codec, now: int, fail: bool,
                  expiryInSeconds: int := DefaultTtlSeconds) returns (ok: bool)
    requires cell.Valid()
    modifies cell, cell.server
    ensures cell.Valid() && cell.client == old(cell.Connected())
    ensures ok == (cell.client != null && !fail && expiryInSeconds > 0)
    ensures cell.server.data == if ok
      then old(cell.server.data)[key := Entry(codec.stringify(data), Some(ExpiryDeadline(now, expiryInSeconds)))]
      else old(cell.server.data)
  {
    var client := cell.GetClient();
    if client == null {
      return false;
    }
    ok := client.SetEx(key, codec.stringify(data), expiryInSeconds, now, fail);
  }

  /** `deleteCache(key)`. */
  method DeleteCache(cell: ClientCell, key: string, now: int, fail: bool) returns (ok: bool)
    requires cell.Valid()
    modifies cell, cell.server
    ensures cell.Valid() && cell.client == old(cell.Connected())
    ensures ok == (cell.client != null && !fail)
    ensures cell.server.data == if ok then old(cell.server.data) - {key} else old(cell.server.data)
  {
    var client := cell.GetClient();
    if client == null {
      return false;
    }
    var reply := client.Del({key}, now, fail);
    ok := reply.Ok?;
  }

  /**
   * `deleteCacheByPattern(pattern)`: KEYS, then one DEL of everything it
   * listed when it listed anything. Nothing to delete still succeeds.
   */
  method DeleteCacheByPattern(cell: ClientCell, pattern: string, now: int, keysFail: bool, delFail: bool)
    returns (ok: bool)
    requires cell.Valid()
    modifies cell, cell.server
    ensures cell.Valid() && cell.client == old(cell.Connected())
    ensures ok == (cell.client != null && !keysFail && (Matching(old(cell.server.data), pattern, now) == {} || !delFail))
    ensures cell.server.data == if ok
      then old(cell.server.data) - Matching(old(cell.server.data), pattern, now)
      else old(cell.server.data)
  {
    var client := cell.GetClient();
    if client == null {
      return false;
    }
    var listed := client.Keys(pattern, now, keysFail);
    if listed.Err? {
      return false;
    }
    var keys := listed.value;
    ghost var matching := Matching(client.data, pattern, now);
    var listedSet := set k | k in keys;
    assert listedSet == matching;
    if |keys| > 0 {
      assert keys[0] in matching;
      var deleted := client.Del(listedSet, now, delFail);
      if deleted.Err? {
        return false;
      }
    } else {
      assert keys == [] && listedSet == {};
      assert client.data == client.data - matching;
    }
    ok := true;
  }

  /** A value stored with a positive expiry is read back unchanged until that expiry. */
  lemma SetThenGet(data: map<string, Entry>, key: string, v: Json, codec: Codec, seconds: int, now: int, later: int)
    requires Faithful(codec) && seconds > 0
    requires later <= ExpiryDeadline(now, seconds)
    ensures ReadBack(Ok(Lookup(data[key := Entry(codec.stringify(v), Some(ExpiryDeadline(now, seconds)))], key, later)), codec) == v
  {
    assert codec.parse(codec.stringify(v)) == Some(v);
    assert codec.stringify(v) != "";
  }

  /** Once the expiry has passed, the same read gives `null`. */
  lemma SetThenGetExpired(data: map<string, Entry>, key: string, text: string, codec: Codec, seconds: int, now: int, later: int)
    requires later > ExpiryDeadline(now, seconds)
    ensures ReadBack(Ok(Lookup(data[key := Entry(text, Some(ExpiryDeadline(now, seconds)))], key, later)), codec) == JNull
  {
  }

  /** After a delete the key reads as `null` and every other key reads as before. */
  lemma DeleteThenGet(data: map<string, Entry>, key: string, other: string, now: int)
    requires other != key
    ensures Lookup(data - {key}, key, now) == None
    ensures Lookup(data - {key}, other, now) == Lookup(data, other, now)
  {
  }

  /** A pattern delete empties exactly the live keys the pattern matches. */
  lemma PatternDeleteEffect(data: map<string, Entry>, pattern: string, k: string, now: int)
    ensures Lookup(data - Matching(data, pattern, now), k, now) ==
      if GlobMatch(pattern, k) then None else Lookup(data, k, now)
  {
  }

  /**
   * The round trip the repository's manual test script performs: store,
   * read back before expiry, get the same value.
   */
  method SetThenGetCache(cell: ClientCell, key: string, v: Json, codec: Codec, seconds: int, now: int, later: int)
    returns (stored: bool, got: Json)
    requires cell.Valid() && Faithful(codec)
    requires now <= later <= ExpiryDeadline(now, seconds)
    modifies cell, cell.server
    ensures stored ==> got == v
  {
    stored := SetCache(cell, key, v, codec, now, false, seconds);
    got := GetCache(cell, key, codec, later, false);
    if stored {
      SetThenGet(old(cell.server.data), key, v, codec, seconds, now, later);
    }
  }

  /** The request fields `cacheMiddleware` looks at. */
  datatype CacheRequest = CacheRequest(httpMethod: string, originalUrl: string, url: string)

  /** A `res.json(body)` call made by the downstream handler, with the status it had set. */
  datatype JsonReply = JsonReply(status: int, body: Json)

  /**
   * What the middleware does with one request: hand it on untouched, answer
   * from the cache, or hand it on and watch for `res.json` (the downstream
   * handler may never call it: `None`).
   */
  datatype CacheOutcome = PassThrough | Hit(body: Json) | Miss(sent: Option<JsonReply>)

  /** `${keyPrefix}:${req.originalUrl || req.url}`. */
  function CacheKey(keyPrefix: string, req: CacheRequest): (key: string)
    ensures |key| > |keyPrefix|
    ensures key[..|keyPrefix| + 1] == keyPrefix + ":"
    ensures key[|keyPrefix| + 1..] == if req.originalUrl != "" then req.originalUrl else req.url
  {
    keyPrefix + ":" + (if req.originalUrl != "" then req.originalUrl else req.url)
  }

  /** Under one prefix, requests share a cache entry exactly when they share a URL. */
  lemma CacheKeyInjective(keyPrefix: string, a: CacheRequest, b: CacheRequest)
    ensures CacheKey(keyPrefix, a) == CacheKey(keyPrefix, b) <==>
      (if a.originalUrl != "" then a.originalUrl else a.url) == (if b.originalUrl != "" then b.originalUrl else b.url)
  {
    var ka, kb := CacheKey(keyPrefix, a), CacheKey(keyPrefix, b);
    if ka == kb {
      assert ka[|keyPrefix| + 1..] == kb[|keyPrefix| + 1..];
    }
  }

  predicate IsSuccess(status: int) {
    200 <= status < 300
  }

  /** The `X-Redis-Cache` header the middleware sets. */
  function CacheHeader(outcome: CacheOutcome): (h: Option<string>)
    ensures h == Some("HIT") <==> outcome.Hit?
    ensures h == Some("MISS") <==> outcome.Miss? && outcome.sent.Some?
    ensures outcome.PassThrough? ==> h.None?
  {
    match outcome
    case PassThrough => None
    case Hit(_) => Some("HIT")
    case Miss(None) => None
    case Miss(Some(_)) => Some("MISS")
  }

  /**
   * `cacheMiddleware(keyPrefix, expiryInSeconds)` applied to one request.
   * `downstream` is the `res.json` call the next handler makes on a miss;
   * the write-back it triggers is done at once and its result ignored.
   */
  method CacheMiddleware(cell: ClientCell, keyPrefix: string, req: CacheRequest, downstream: Option<JsonReply>,
                         codec: Codec, now: int, getFail: bool, setFail: bool,
                         expiryInSeconds: int := DefaultTtlSeconds) returns (outcome: CacheOutcome)
    requires cell.Valid()
    modifies cell, cell.server
    ensures cell.Valid()
    ensures req.httpMethod != "GET" ==>
      outcome == PassThrough && cell.client == old(cell.client) && cell.server.data == old(cell.server.data)
    ensures req.httpMethod == "GET" ==>
      var key := CacheKey(keyPrefix, req);
      var client := old(cell.Connected());
      var cached := if client == null then JNull
        else ReadBack(if getFail then Err else Ok(Lookup(old(cell.server.data), key, now)), codec);
      var writes := !Truthy(cached) && downstream.Some? && IsSuccess(downstream.value.status)
        && client != null && !setFail && expiryInSeconds > 0;
      && cell.client == client
      && outcome == (if Truthy(cached) then Hit(cached) else Miss(downstream))
      && cell.server.data == if writes
        then old(cell.server.data)[key := Entry(codec.stringify(downstream.value.body), Some(ExpiryDeadline(now, expiryInSeconds)))]
        else old(cell.server.data)
  {
    if req.httpMethod != "GET" {
      return PassThrough;
    }
    var key := CacheKey(keyPrefix, req);
    var cached := GetCache(cell, key, codec, now, getFail);
    if Truthy(cached) {
      return Hit(cached);
    }
    if downstream.Some? && IsSuccess(downstream.value.status) {
      var _ := SetCache(cell, key, downstream.value.body, codec, now, setFail, expiryInSeconds);
    }
    outcome := Miss(downstream);
  }

  /**
   * A successful, truthy response cached on a miss is served from the cache
   * by the next request for the same URL before it expires.
   */
  method MissThenHit(cell: ClientCell, keyPrefix: string, req: CacheRequest, reply: JsonReply,
                     codec: Codec, now: int, later: int) returns (first: CacheOutcome, second: CacheOutcome)
    requires cell.Valid() && Faithful(codec)
    requires req.httpMethod == "GET" && IsSuccess(reply.status) && Truthy(reply.body)
    requires now <= later <= ExpiryDeadline(now, DefaultTtlSeconds)
    requires cell.client != null || !cell.initThrows
    modifies cell, cell.server
    ensures first.Miss? ==> second == Hit(reply.body)
  {
    first := CacheMiddleware(cell, keyPrefix, req, Some(reply), codec, now, false, false);
    second := CacheMiddleware(cell, keyPrefix, req, None, codec, later, false, false);
    if first.Miss? {
      SetThenGet(old(cell.server.data), CacheKey(keyPrefix, req), reply.body, codec, DefaultTtlSeconds, now, later);
    }
  }
}
