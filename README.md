# Cache-aside and rate-limiting layer over a key-value store, in Dafny

This project models the caching and rate-limiting layer of a Next.js/Payload
blog site that sits in front of a Redis server. It covers four parts:

- **The cache** (`src/utils/redis-cache.ts`). It has a once-only client cell
  and a capped linear reconnect delay. It offers `getCache`, `setCache`,
  `deleteCache` and `deleteCacheByPattern`, with every failure turned into
  `null` or `false`. It also covers the per-request decisions of
  `cacheMiddleware`: skip non-GET requests, build the key, treat a truthy
  cached value as a hit, and write back only 2xx replies.
- **The shared-store limiter** of the blog-listing endpoint
  (`src/app/api/blogs2/route.ts`). It keeps a counter `ratelimit:<ip>` in
  the store, with 20 requests per 60-second window. Whenever the store
  fails, it fails open. It also models how the `X-RateLimit-*` headers are
  attached.
- **The in-process limiter** in `src/middleware.ts`. It keeps a table from
  address to `{count, timestamp}` in memory, allows 10 requests per 60 000 ms,
  and applies to the path `/blogs-rate-limit` only.
- **The metrics derivation** in `src/utils/redis-metrics.ts`. It parses the
  INFO text, then derives the key count, hit rate, uptime, blocked counters,
  active addresses and the connection test.

The server is a class `KvStore.Store` whose field holds a map from key to
`Entry(value, deadline)`. The clock is an explicit parameter `now`, in
milliseconds. A key is visible up to and including its deadline.

Each server command takes a `fail` input standing for a network or server
error. A failed command changes nothing.

The client cell is a class `RedisCache.ClientCell`. Whether constructing the
client throws is a fixed property of the configuration. The blog endpoint and
the metrics take their client from this cell. That assumes their named
import of `getRedisClient` resolves to `src/utils/redis-cache.ts:9`. As the
files are written it does not, as "## Findings" shows.

`JSON.stringify`/`JSON.parse` form an abstract `Codec`. The cache relies on
one property of it, `Faithful`: parsing gives back what was stringified, and
JSON text is never empty.

`parseInt` is modelled fully: leading white space, sign, `0x` prefix, the
longest digit prefix, and `NaN`.

Imperative parts stay imperative:
- the client cell and the store are classes;
- the middleware's table is a `map` field of `EdgeLimiter.RateLimiter`;
- the INFO parse and the active-address table are `while` loops, each proved
  against a fold function.

The blog endpoint answers an over-limit request with status 500 and
`{"error": "Too many requests"}`. It does not send 429 with `Retry-After`.
The 429 response in that file is commented out, so this model follows the
live code. The in-process limiter does answer 429 with `Retry-After: 60`.

Files:
- `wrappers.dfy`: `Option`.
- `text.dfy`: `startsWith`, `indexOf`, `split`, `join`, `replace`.
- `jsnumbers.dfy`: `parseInt`, integer `toString`, `|| 0`.
- `json.dfy`: JSON values, truthiness, the codec.
- `kvstore.dfy`: the server.
- `redis_cache.dfy`: the cache.
- `blogs_route.dfy`: the shared-store limiter.
- `edge_limiter.dfy`: the in-process limiter.
- `redis_metrics.dfy`: the metrics.

## Model

| member | source | states |
|---|---|---|
| RedisCache.RetryDelay | src/utils/redis-cache.ts:19-22 | The delay is at most 2000 ms, at most `times*50`, and equal to one of the two, so it is `min(times*50, 2000)`. |
| RedisCache.RetryDelayMonotone | src/utils/redis-cache.ts:19-22 | A later attempt never waits less than an earlier one. |
| RedisCache.ClientCell.constructor | src/utils/redis-cache.ts:6 | The cell starts empty. |
| RedisCache.ClientCell.GetClient | src/utils/redis-cache.ts:9-40 | A kept client is returned as is. Otherwise one is built and kept, or `null` is returned with the cell left empty when construction throws. |
| RedisCache.GetClientTwice | src/utils/redis-cache.ts:9-10 | Once a client exists, the next call returns that same client. `null` comes only from a throwing construction on an empty cell. |
| RedisCache.ReadBack | src/utils/redis-cache.ts:49-54 | A missing or empty value, a parse failure, or an error gives `null`. Otherwise the parsed value is returned. |
| RedisCache.GetCache | src/utils/redis-cache.ts:44-55 | No client gives `null`. Otherwise the result is `ReadBack` of the store's live value, or `null` on error. It never changes the store. |
| RedisCache.SetCache | src/utils/redis-cache.ts:58-70 | This succeeds exactly with a client, no error and a positive expiry (default 300 s). It then stores the JSON text with deadline `now + expiry*1000`; otherwise the store is unchanged. |
| RedisCache.DeleteCache | src/utils/redis-cache.ts:73-84 | This succeeds exactly with a client and no error. It then removes that one key, and only that key. |
| RedisCache.DeleteCacheByPattern | src/utils/redis-cache.ts:87-103 | This succeeds with a client when KEYS works and either nothing matches or DEL works. It then removes exactly the live matching keys. |
| RedisCache.SetThenGet | src/utils/redis-cache.ts:49-64 | A value stored with a positive expiry reads back equal to itself at any time up to the deadline. |
| RedisCache.SetThenGetExpired | src/utils/redis-cache.ts:64 | After the deadline the same read gives `null`. |
| RedisCache.DeleteThenGet | src/utils/redis-test.ts:50-58 | After a delete the key reads as absent, and every other key reads as before. |
| RedisCache.PatternDeleteEffect | src/utils/redis-cache.ts:93-98 | After a pattern delete, matching keys read as absent and all others read as before. |
| RedisCache.SetThenGetCache | src/utils/redis-test.ts:23-36 | setCache followed by getCache before expiry returns the stored value. |
| RedisCache.CacheKey | src/utils/redis-cache.ts:122 | The key is the prefix, then `:`, then `originalUrl`, or `url` when `originalUrl` is empty. |
| RedisCache.CacheKeyInjective | src/utils/redis-cache.ts:122 | Under one prefix, two requests get the same key exactly when their URLs are equal. |
| RedisCache.CacheHeader | src/utils/redis-cache.ts:128-148 | `X-Redis-Cache` is `HIT` exactly on a hit and `MISS` exactly when a miss's handler called `res.json`. A pass-through gets no header. |
| RedisCache.CacheMiddleware | src/utils/redis-cache.ts:114-159 | A non-GET request passes through with nothing changed. On GET, a truthy cached value is a hit. Otherwise it is a miss, and the reply is written back under the key only for status 200-299. |
| RedisCache.MissThenHit | src/utils/redis-cache.ts:126-146 | A truthy 2xx reply cached on a miss is served as a hit by the next request for the same URL before expiry. This also holds for the first request of the process, the one that builds the client, provided it can be built. |
| KvStore.LiveEntry | src/utils/redis-cache.ts:49 | An entry is visible exactly when present and not past its deadline. |
| KvStore.Lookup | src/utils/redis-cache.ts:49 | GET answers the visible entry's value, or nothing. |
| KvStore.GlobMatch | src/utils/redis-cache.ts:93 | A pattern without `*` matches exactly the key equal to it. |
| KvStore.PrefixPattern | src/utils/redis-metrics.ts:63 | A literal prefix followed by `*` matches exactly the keys with that prefix. |
| KvStore.StarMatchesAll | src/utils/redis-cache.ts:93 | `*` matches every key. |
| KvStore.Matching | src/utils/redis-cache.ts:93 | KEYS selects exactly the live keys the pattern matches. |
| KvStore.StoredInt | src/app/api/blogs2/route.ts:56 | INCR accepts only a value that is the decimal text of a 64-bit integer. |
| KvStore.StoredIntOfString | src/app/api/blogs2/route.ts:54-56 | The decimal text of a 64-bit integer is accepted by INCR as that integer. |
| KvStore.Incremented | src/app/api/blogs2/route.ts:56 | A missing key becomes `1` with no expiry. A live key succeeds exactly when its value is a 64-bit integer below the maximum. It then goes up by one and keeps its deadline. |
| KvStore.TtlOf | src/app/api/blogs2/route.ts:60 | TTL is -2 exactly for a missing key and never below -2. |
| KvStore.Store.constructor | src/utils/redis-cache.ts:14-18 | The store stands for the server that the client built for the configured URL reaches. It starts with the given contents. |
| KvStore.Store.Get | src/utils/redis-cache.ts:49 | GET answers the live value, or an error when it fails. |
| KvStore.Store.SetEx | src/utils/redis-cache.ts:64 | SET .. EX succeeds exactly when it does not fail and the expiry is positive. It then writes the value with its deadline. |
| KvStore.Store.Del | src/utils/redis-cache.ts:78 | DEL removes exactly the given keys and answers how many of them were live. |
| KvStore.Store.Keys | src/utils/redis-cache.ts:93 | KEYS lists every live matching key once, or fails. |
| KvStore.Store.Incr | src/app/api/blogs2/route.ts:56 | INCR writes the incremented entry, or fails and changes nothing. |
| KvStore.Store.Ttl | src/app/api/blogs2/route.ts:60 | TTL answers `TtlOf` at `now`, or an error when it fails. |
| KvStore.Store.PipelineGet | src/utils/redis-metrics.ts:69-74 | The pipeline gives one reply per key, in order. Each is the live value, or an error for a failing GET. |
| BlogsRoute.RateLimitKey | src/app/api/blogs2/route.ts:15-16 | The key is `ratelimit:` followed by the forwarded address, or `unknown` when that is missing or empty. |
| BlogsRoute.StoredCount | src/app/api/blogs2/route.ts:28 | A missing or empty value counts as 0. Otherwise the count is `parseInt` of the value. |
| BlogsRoute.ResetTime | src/app/api/blogs2/route.ts:61-62 | `reset` is the whole second such that `reset*1000 <= now + ttl*1000 < (reset+1)*1000`, with ttl replaced by 60 when it is not positive. It is later than the current second. |
| BlogsRoute.Bumped | src/app/api/blogs2/route.ts:53-57 | A zero count always succeeds and leaves `1` expiring in 60 s. A successful update touches only the counter's key. |
| BlogsRoute.Admission | src/app/api/blogs2/route.ts:27-74 | A failed read proceeds with nothing changed, and a refusal changes nothing. The store is changed only at the caller's own key. A fault never yields metadata. Metadata carries limit 20 and a reset later than the current second. |
| BlogsRoute.BumpedCountIsNumber | src/app/api/blogs2/route.ts:53-57 | A counter update that succeeds was made on a count that is a number. |
| BlogsRoute.HandleRequest | src/app/api/blogs2/route.ts:78-110 | A failed fetch gives 500 `{"error": "Internal server error"}` with no headers. A successful one gives 200 with the blogs. The three `X-RateLimit-*` headers are present exactly when metadata is. |
| BlogsRoute.Respond | src/app/api/blogs2/route.ts:44-47 | A refusal is the 500 `Too many requests` response. Status 200 comes exactly when the request proceeds and the fetch succeeds. Headers are sent only with metadata. |
| BlogsRoute.UpdateCounter | src/app/api/blogs2/route.ts:53-57 | A zero count is re-created as `1` with a 60 s expiry; any other count is INCRed. |
| BlogsRoute.CheckRateLimit | src/app/api/blogs2/route.ts:27-69 | The command sequence GET, SET/INCR, TTL yields exactly the verdict and the store `Admission` gives. |
| BlogsRoute.Get | src/app/api/blogs2/route.ts:13-75 | No client gives a response without metadata and an untouched store. Otherwise the response and store are those of `Admission`. |
| BlogsRoute.RefusedExactlyAtLimit | src/app/api/blogs2/route.ts:27-48 | A request is refused exactly when the count read without error is at least 20. A refusal leaves the store unchanged. |
| BlogsRoute.AdmitCreates | src/app/api/blogs2/route.ts:53-54 | An absent, empty or zero counter becomes `1`, expiring in 60 s. The request gets `remaining` 19 and `reset` `now/1000 + 60`. |
| BlogsRoute.AdmitIncrements | src/app/api/blogs2/route.ts:55-67 | A counter holding c, with 1 <= c < 20, becomes c+1 with the same deadline. `remaining` is 20-c-1, which lies in [0, 18]. |
| BlogsRoute.FailOpen | src/app/api/blogs2/route.ts:70-74 | When a command throws, the request proceeds without metadata, or is refused when the read itself succeeded over the limit. A failed read changes nothing. No `X-RateLimit-*` header is sent. |
| BlogsRoute.UnreadableCounterFailsOpen | src/app/api/blogs2/route.ts:28-57 | A counter `parseInt` cannot read is never refused. It is kept as is, and the request proceeds without metadata. |
| BlogsRoute.Replay | src/app/api/blogs2/route.ts:13-75 | A run of requests produces one verdict per request. |
| BlogsRoute.Admitted | src/app/api/blogs2/route.ts:31 | At most as many requests get through as were made. |
| BlogsRoute.CounterStep | src/app/api/blogs2/route.ts:27-67 | A live counter below 20 goes up by one with `remaining` 20-c-1. At 20 the request is refused and nothing changes. |
| BlogsRoute.ReplayCons | src/app/api/blogs2/route.ts:13-75 | A run is its first request followed by the run from the state that request leaves. |
| BlogsRoute.WindowReplay | src/app/api/blogs2/route.ts:31-67 | Inside a live window at count c, request k passes with `remaining` 19-(c+k) while c+k < 20, and is refused from then on. |
| BlogsRoute.WindowReplayCounter | src/app/api/blogs2/route.ts:53-57 | Such a run leaves the counter at min(c + n, 20) with its deadline unchanged. |
| BlogsRoute.FreshWindow | src/app/api/blogs2/route.ts:28-67 | In a fresh window the request at index k < 20 (the (k+1)th) gets `remaining` 19-k, and every later request in the window is refused. |
| BlogsRoute.AdmittedBound | src/app/api/blogs2/route.ts:31 | If every verdict from index b on is a refusal, at most b requests got through. |
| BlogsRoute.AtMostLimitPerWindow | src/app/api/blogs2/route.ts:31-57 | Within one window, at most 20 sequential requests per key get through. |
| EdgeLimiter.ClientIp | src/middleware.ts:79-81 | The address is `x-forwarded-for`, else `x-real-ip`, else `unknown-ip`; an empty header counts as missing. It is never empty. |
| EdgeLimiter.Track | src/middleware.ts:84-107 | A first request, or one more than 60 000 ms after the window opened, sets `{1, now}` and is admitted. Otherwise the count goes up by one with the timestamp kept, and the request is refused exactly when the new count exceeds 10. Other addresses are untouched. |
| EdgeLimiter.StaleStaysStale | src/middleware.ts:88 | In a given table, a window that is stale at one time is stale at every later time. |
| EdgeLimiter.TrackWellFormed | src/middleware.ts:88-91 | Every window keeps a count of at least 1. |
| EdgeLimiter.RateLimiter.constructor | src/middleware.ts:72 | The table starts empty. |
| EdgeLimiter.RateLimiter.Middleware | src/middleware.ts:74-112 | Any other path gets `next` with the table unchanged. `/blogs-rate-limit` updates the table by `Track` and answers 429 with `Retry-After: 60` exactly on refusal. Every window keeps a count of at least 1. |
| EdgeLimiter.Run | src/middleware.ts:74-112 | A run of requests produces one refusal flag per request. |
| EdgeLimiter.RunConcat | src/middleware.ts:74-112 | Running two batches in turn is running their concatenation. |
| EdgeLimiter.WindowRun | src/middleware.ts:88-107 | In an open window at count c, request k is refused exactly when c+k+1 > 10. The window ends at c+n with its timestamp kept. |
| EdgeLimiter.FreshRun | src/middleware.ts:88-107 | In a window opened by the first request, the first 10 requests pass and all later ones are refused. |
| EdgeLimiter.Passed | src/middleware.ts:93 | At most as many requests pass as were made. |
| EdgeLimiter.PassedUpTo | src/middleware.ts:93 | When exactly the requests from index b on are refused, min(n, b) pass. |
| EdgeLimiter.PassedPerWindow | src/middleware.ts:88-107 | Within one window an address gets exactly min(n, 10) of n requests through. |
| EdgeLimiter.BoundaryBurst | src/middleware.ts:88-93 | The fixed window lets 20 requests through within 60 001 ms: 10 just before a window boundary and 10 just after. |
| RedisMetrics.InfoRecord | src/utils/redis-metrics.ts:43-47 | Only a non-empty line that does not start with `#` is recorded. |
| RedisMetrics.InfoRecordShape | src/utils/redis-metrics.ts:43-47 | A line is recorded exactly when it is non-empty, does not start with `#`, and holds exactly one `:`. Its name and value joined by `:` give the line back. |
| RedisMetrics.InfoMap | src/utils/redis-metrics.ts:42-49 | The table has no more fields than there are lines. |
| RedisMetrics.InfoMapNames | src/utils/redis-metrics.ts:42-49 | A name is in the table exactly when some line records it. |
| RedisMetrics.InfoMapLastWins | src/utils/redis-metrics.ts:42-49 | A name's value comes from the last line that records it. |
| RedisMetrics.ParseInfo | src/utils/redis-metrics.ts:39-49 | The loop over the `\r\n`-separated lines builds exactly the table `InfoMap`. |
| RedisMetrics.FindStarting | src/utils/redis-metrics.ts:56 | `find` returns the first part with the prefix, or nothing when no part has it. |
| RedisMetrics.KeysValue | src/utils/redis-metrics.ts:58 | A `keys=` part splits on `=` into at least two pieces. Its value is `parseInt` of the second piece, or 0 when that is `NaN`. Without a further `=`, it is `parseInt` of the text after `keys=`, or 0 when that is `NaN`. |
| RedisMetrics.KeyCount | src/utils/redis-metrics.ts:53-60 | The key count is 0 when `db0` is missing or empty, or has no `keys=` part. Otherwise it is `KeysValue` of the first `keys=` part, which is 0 for a non-numeric value. |
| RedisMetrics.KeysValueOfNumber | src/utils/redis-metrics.ts:58 | The part `keys=N` reads back as N. |
| RedisMetrics.KeyCountOfKeyspace | src/utils/redis-metrics.ts:53-60 | A `db0` value `keys=N,...` gives a key count of N. |
| RedisMetrics.Field | src/utils/redis-metrics.ts:87-94 | A missing or empty field reads as 0. Otherwise it is `parseInt` of the text, which may be `NaN`. |
| RedisMetrics.HitRate | src/utils/redis-metrics.ts:87-91 | The rate is 0 unless hits + misses is a positive number. Otherwise `rate*(hits+misses) == hits*100`, and for non-negative inputs it lies in [0, 100]. |
| RedisMetrics.UptimeDays | src/utils/redis-metrics.ts:94-95 | `NaN` stays `NaN`. Otherwise `days*86400 <= seconds < (days+1)*86400`. |
| RedisMetrics.CountBlocked | src/utils/redis-metrics.ts:76-82 | The blocked count is at most the number of results. |
| RedisMetrics.CountBlockedOfKeys | src/utils/redis-metrics.ts:63-84 | With one successful GET per distinct key, the count equals the number of keys whose value is non-empty and reads as at least 20. |
| RedisMetrics.DistinctSize | src/utils/redis-metrics.ts:111 | A list of distinct keys is as long as the set of those keys. |
| RedisMetrics.BlockedIffRefused | src/utils/redis-metrics.ts:64-79 | A counter counts as blocked exactly when the blog endpoint's limiter would refuse the next request on it. |
| RedisMetrics.InfoMetrics | src/utils/redis-metrics.ts:87-114 | Hits, misses, uptime, used and peak memory are each `Field` of the table (`parseInt(value \|\| '0')`), so a missing field gives 0. The key count is `KeyCount` of the table. The hit rate is `HitRate` of the hits and misses fields. The uptime in days is `UptimeDays` of the uptime field. |
| RedisMetrics.CollectMetrics | src/utils/redis-metrics.ts:27-119 | The result is `null` exactly with no client, a failed INFO or a failed KEYS. `activeIps` is the number of live `ratelimit:*` keys, and `blockedIps` never exceeds it. With no failures, `blockedIps` is the number of blocked counters among those keys. |
| RedisMetrics.StripPrefix | src/utils/redis-metrics.ts:155 | Stripping `ratelimit:` from `ratelimit:` + ip gives ip. |
| RedisMetrics.RateLimitKeys | src/utils/redis-metrics.ts:141 | `ratelimit:*` lists exactly the live keys with that prefix. |
| RedisMetrics.ListedKeyShape | src/utils/redis-metrics.ts:155 | A prefixed key is `ratelimit:` followed by what `replace` leaves. |
| RedisMetrics.FillIpCounts | src/utils/redis-metrics.ts:152-159 | The loop over keys and results builds exactly the table `IpCounts`. |
| RedisMetrics.IpCountsOfStore | src/utils/redis-metrics.ts:152-161 | The table holds only listed addresses whose counter is present and non-empty, each with `parseInt(value) \|\| 0`. With no failed GET it holds every such address. |
| RedisMetrics.ActiveIps | src/utils/redis-metrics.ts:136-166 | No client, a failed KEYS or an aborted pipeline gives `{}`. Otherwise the table maps ip to the counter of `ratelimit:` + ip, exactly for the live, non-empty counters when no GET fails. |
| RedisMetrics.PingReport | src/utils/redis-metrics.ts:183-202 | Connected exactly when the ping reply is `PONG`. The message quotes any other reply, or the error. |
| RedisMetrics.PingReportInjective | src/utils/redis-metrics.ts:183-202 | Different ping outcomes give different reports: the message names the reply or the error. |
| RedisMetrics.ConnectionTest | src/utils/redis-metrics.ts:171-203 | The connection test's report, given whether a client exists and the ping outcome. It is connected exactly when a client exists and the reply is `PONG`. With no client it is the fixed failure report; otherwise it is `PingReport`. |
| RedisMetrics.TestConnection | src/utils/redis-metrics.ts:171-203 | Connected exactly when a client exists and the ping reply is `PONG`. With no client, the fixed failure report is returned. The report is `ConnectionTest` of whether the client exists and the ping outcome. |
| JsNumbers.OrZero | src/utils/redis-metrics.ts:58 | `x \|\| 0` turns `NaN` into 0 and keeps a number. |
| JsNumbers.TrimStart | src/utils/redis-metrics.ts:58 | The result is a suffix of the input that does not start with white space. Everything removed is white space. |
| JsNumbers.ParseInt | src/app/api/blogs2/route.ts:28 | Text that is blank after white space reads as `NaN`. A negative result needs a leading `-`. Text starting with a digit 1-9 reads as a non-negative number. |
| JsNumbers.IntToString | src/app/api/blogs2/route.ts:97-99 | The text is non-empty. It starts with `-` exactly for negative numbers, and all its other characters are digits. |
| JsNumbers.DigitPrefix | src/utils/redis-metrics.ts:58 | The result is the longest digit prefix. |
| JsNumbers.ParseUnsigned | src/app/api/blogs2/route.ts:28 | The unsigned part reads as a non-negative number, or `NaN`. |
| JsNumbers.ParseIntToString | src/app/api/blogs2/route.ts:28-56 | `parseInt` of an integer's decimal text gives the integer back. |
| JsNumbers.IntToStringChars | src/utils/redis-metrics.ts:56-58 | An integer's decimal text contains only digits and `-`. |
| JsNumbers.NatToString | src/app/api/blogs2/route.ts:97-99 | Decimal text is non-empty, made of digits, with no leading zero. |
| JsNumbers.DigitsValueOfNatToString | src/app/api/blogs2/route.ts:97-99 | The value of a number's digits is the number. |
| JsNumbers.DigitPrefixOfDigits | src/utils/redis-metrics.ts:58 | A digit string is its own digit prefix. |
| JsNumbers.ParseUnsignedOfNatToString | src/app/api/blogs2/route.ts:28 | The unsigned part of a number's text reads as that number. |
| Text.IndexOf | src/utils/redis-metrics.ts:155 | `indexOf` finds the first occurrence, or reports that there is none. |
| Text.Split | src/utils/redis-metrics.ts:40 | `split` always gives at least one piece. |
| Text.JoinSplit | src/utils/redis-metrics.ts:44 | Joining the pieces of a split with the separator gives the text back. |
| Text.SplitPiecesFree | src/utils/redis-metrics.ts:44 | No piece of a split contains the separator. |
| Text.SplitCharCount | src/utils/redis-metrics.ts:44-45 | Splitting on a character gives one more piece than the text has occurrences of it. |
| Text.SplitCharFirst | src/utils/redis-metrics.ts:56 | The first piece runs up to the first separator character. |
| Text.SplitCharAbsent | src/utils/redis-metrics.ts:58 | Text without the separator character is a single piece. |
| Text.SplitOccurs | src/utils/redis-metrics.ts:58 | Text containing the separator gives at least two pieces. |
| Text.ReplaceFirst | src/utils/redis-metrics.ts:155 | Text without the needle is unchanged. |
| Text.ReplaceLeading | src/utils/redis-metrics.ts:155 | Replacing a leading literal with nothing strips it. |
| Text.CountConcat | src/utils/redis-metrics.ts:45 | Occurrences in a concatenation add up. |
| JsonValues.FalsyValues | src/utils/redis-cache.ts:128 | The falsy values are exactly `null`, `false`, `0` and `""`. Every array and object is truthy, even an empty one. |
| BlogsRoute.GetAsWritten | src/app/api/blogs2/route.ts:5-23 | As linked, GET never sends an `X-RateLimit-*` header and never sends the `Too many requests` response. It has status 200 exactly when the fetch succeeds. |
| BlogsRoute.LimitIgnoredAsWritten | src/app/api/blogs2/route.ts:19-48 | A counter at 20 is refused when a client exists, but served as linked. |
| BlogsRoute.CounterLosesExpiry | src/app/api/blogs2/route.ts:27-56 | The blog endpoint reads a counter at its deadline and increments it a millisecond later. If the counter's text reads as a nonzero count, it becomes `1` with no expiry and never expires. |
| BlogsRoute.GuardedBump | src/app/api/blogs2/route.ts:53-57 | The counter update with expiry restored when INCR answers 1. It touches only the counter's key. |
| BlogsRoute.GuardedBumpKeepsExpiry | src/app/api/blogs2/route.ts:53-57 | Whatever count was read, after any delay, the guarded update keeps the counter's expiry at most one window ahead. |
| BlogsRoute.GuardedBumpAgrees | src/app/api/blogs2/route.ts:27-57 | When the count is read at the instant of the update, the guarded update equals GET's own. |
| RedisMetrics.LinkedConnectionTest | src/utils/redis-metrics.ts:2 | `testRedisConnection` with the import bound as given. It rejects exactly when the binding is `undefined`. Otherwise it settles with `ConnectionTest`'s report. |
| RedisMetrics.TestConnectionLinked | src/utils/redis-metrics.ts:171-181 | With an `undefined` binding, the call rejects and leaves the client cell as it was. Otherwise the result is `LinkedConnectionTest` of whether a client exists after `getRedisClient`. |
| RedisMetrics.CollectMetricsLinked | src/utils/redis-metrics.ts:2 | With an `undefined` binding, `collectRedisMetrics` rejects (lines 27-28) and the cell is unchanged. Otherwise it settles with what `CollectMetrics` states. It is `null` exactly on no client, an INFO error or a KEYS error. Else it is the metrics of the parsed INFO, with the live `ratelimit:` keys as active addresses and at most that many blocked, none when the pipeline aborts, and with no failed GET exactly the blocked counters. |
| RedisMetrics.ActiveIpsLinked | src/utils/redis-metrics.ts:2 | With an `undefined` binding, `getActiveIPs` rejects (lines 136-137). Otherwise it settles with what `ActiveIps` states. It gives `{}` when there is no client, KEYS fails or the pipeline aborts. Each listed address has a live, reported counter and maps to `parseInt` of it, or 0. With no failure, every such counter is listed. |
| RedisMetrics.NoReportAsWritten | src/utils/redis-metrics.ts:171-181 | Whatever the client and the ping outcome, the run with an `undefined` binding never gives what the exported binding gives, not even the no-client report. |

## Left out

- The ioredis client itself is not modelled: the `error`/`connect` handlers, the 10 s connect timeout, and real reconnection. Only the delay formula and the memo cell are modelled.
- Logging (`console.log`/`console.error`) has no effect on results and is left out.
- Real time is an explicit `now` parameter, in milliseconds. Expiry is a stored deadline that the server checks on every read.
- Concurrency is not modelled. Each request's commands run in sequence with no other client in between, and all of them use one clock reading. Interleaved requests can exceed the bounds proved here. The one case that involves time alone, expiry between GET and INCR, is covered under "## Findings".
- KvStore.Store: a failed command is modelled as having no effect. A real command can fail after it has taken effect, for example when the reply is lost.
- RedisCache.CacheMiddleware: the fire-and-forget write-back is modelled as a synchronous write whose result is ignored. The `res.json` override, `next()`, and the Express request and response objects are reduced to the outcome datatype and the `downstream` parameter.
- RedisCache.CacheMiddleware: an exception inside the middleware's own `try` cannot happen in the model, because every command failure is already caught by `getCache`/`setCache`.
- JavaScript numbers are doubles; here they are unbounded integers. Precision loss above 2^53 is not modelled, nor negative zero. JSON numbers are integers too.
- RedisMetrics.HitRate is the exact rational. The rounding by `toFixed(2)` and `parseFloat` is left out.
- `formatBytes` (`Math.log`, `toFixed`) is left out. The metrics carry the raw byte counts of `used_memory` and `used_memory_peak`.
- Glob matching treats only `*` as special. `?`, `[...]` and escapes are not modelled, and the callers use only a trailing `*`.
- Object keys such as `__proto__` behave specially in a plain JavaScript object. Here `infoMap` and `ipCounts` are plain maps.
- `JSON.stringify` and `JSON.parse` stay abstract: `Faithful` is an assumption about the codec, not a theorem.
- The Payload CMS content fetch is a parameter: its result, or `None` when it throws. `NextResponse` is reduced to status, JSON body and headers.
- The INFO reply, the ping outcome, and "the pipeline answered `null`" are parameters, because the server model does not produce them.
- The commented-out earlier middleware (`src/middleware.ts:1-63`) is not modelled. Neither are the thin HTTP wrappers `src/app/api/metrics/redis/route.ts` and `src/app/api/my-route/route.ts`, nor the configuration files.
- The in-process table is never pruned, and its growth in memory is not bounded or modelled.
- BlogsRoute.Get, BlogsRoute.CheckRateLimit, RedisMetrics.CollectMetrics, RedisMetrics.ActiveIps and RedisMetrics.TestConnection assume that the named import of `getRedisClient` resolves to `src/utils/redis-cache.ts:9`. As linked, the binding is `undefined`; that behaviour is modelled by `BlogsRoute.GetAsWritten` and by the `Linked` members of `RedisMetrics`, which take the binding as an input.

## Findings

| source | as written | input that shows it | evidently intended | confidence | as-written member | corrected member |
|---|---|---|---|---|---|---|
| src/app/api/blogs2/route.ts:5 | The route imports `getRedisClient` by name. `src/utils/redis-cache.ts:162-169` exports it only inside the default object, so the binding is `undefined`. The call at line 19 throws inside the `try`, and the `catch` at 70-74 serves every request without checking the limit. | Any GET whose counter holds `20`: it is served with status 200 (or 500 `Internal server error`) and no `X-RateLimit-*` headers. | The limiter runs with the client from `getRedisClient`, refuses at 20 and attaches the headers. | high for the missing export; not executed | BlogsRoute.LimitIgnoredAsWritten | BlogsRoute.Get |
| src/utils/redis-metrics.ts:2 | The same named import gives `undefined`. `collectRedisMetrics`, `getActiveIPs` and `testRedisConnection` call it at lines 28, 137 and 175, before any `try`, so each rejects instead of returning `null`, `{}` or a report. | Any call of `testRedisConnection()`, with or without a reachable server. | Each entry point gets the client, and with none answers `null`, `{}` or the fixed failure report. | high for the missing export; not executed | RedisMetrics.NoReportAsWritten | RedisMetrics.TestConnection |
| src/app/api/blogs2/route.ts:27-56 | The count is read by GET and the counter updated by a later INCR. If the counter expires in between, INCR re-creates it as `1` with no expiry. The counter then never resets, and the caller is refused for good once it reaches 20. | A counter `5` with deadline d, read at d and incremented at d + 1 ms: the result is `1` with no expiry. | A counter always expires at most one window after it was last created, for example by setting the expiry when INCR answers 1. | medium (needs the expiry to fall between two commands of one request); not executed | BlogsRoute.CounterLosesExpiry | BlogsRoute.GuardedBump |

The rest of the model is single-clock: GET and INCR see the same instant. There `BlogsRoute.GuardedBumpAgrees` shows the guarded update equals the one the route makes, so every limiter lemma about `Admission` holds for the corrected update as well.
