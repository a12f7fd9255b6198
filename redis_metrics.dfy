/**
 * The monitoring side of `src/utils/redis-metrics.ts`: the store's INFO
 * text read into a field table, the figures derived from it, the count of
 * rate-limit keys that reached the limit, the per-address counts behind
 * those keys, and the connection test.
 */
module RedisMetrics {
  import opened Wrappers
  import opened Text
  import opened JsNumbers
  import opened KvStore
  import opened RedisCache
  import BlogsRoute

  const RateLimitPrefix: string := "ratelimit:"
  const RateLimitPattern: string := "ratelimit:*"
  /** The threshold a counter must reach to count as blocked (the shared limiter's maximum). */
  const BlockThreshold: int := 20
  const SecondsPerDay: int := 86400

  // ---------------------------------------------------------------- INFO

  /**
   * The field a line of INFO output records: a non-empty line that does
   * not start with `#` and splits on `:` into exactly two pieces.
   */
  function InfoRecord(line: string): (r: Option<(string, string)>)
    ensures r.Some? ==> line != "" && !StartsWith(line, "#")
  {
    if line != "" && !StartsWith(line, "#") then
      var parts := Split(line, ":");
      if |parts| == 2 then Some((parts[0], parts[1])) else None
    else None
  }

  /** A line is recorded exactly when it is non-empty, is no `#` heading and holds exactly one `:`, which separates name and value. */
  lemma InfoRecordShape(line: string)
    ensures InfoRecord(line).Some? <==> line != "" && line[0] != '#' && Count(line, ':') == 1
    ensures InfoRecord(line).Some? ==>
      var (name, value) := InfoRecord(line).value;
      name + ":" + value == line && ':' !in name && ':' !in value
  {
    SplitCharCount(line, ':');
    if line != "" {
      assert StartsWith(line, "#") <==> line[0] == '#' by {
        assert line[..1] == [line[0]];
      }
    }
    var parts := Split(line, ":");
    if |parts| == 2 {
      JoinSplit(line, ":");
      JoinCons(parts[0], parts[1..], ":");
      assert parts == [parts[0]] + parts[1..];
      SplitPiecesFree(line, ":");
      forall k | 0 <= k < 2
        ensures ':' !in parts[k]
      {
        forall j | 0 <= j < |parts[k]| && parts[k][j] == ':'
          ensures false
        {
          OccursChar(parts[k], ':', j);
        }
      }
    }
  }

  /** The field table built from the lines in order: a later line for the same name overwrites an earlier one. */
  function InfoMap(lines: seq<string>): (m: map<string, string>)
    ensures |m| <= |lines|
    decreases |lines|
  {
    if lines == [] then map[]
    else
      var earlier := InfoMap(lines[..|lines| - 1]);
      match InfoRecord(lines[|lines| - 1])
      case None => earlier
      case Some((name, value)) => earlier[name := value]
  }

  /** A name is in the table exactly when some line records it. */
  lemma {:induction false} InfoMapNames(lines: seq<string>, name: string)
    ensures name in InfoMap(lines) <==>
      exists i :: 0 <= i < |lines| && InfoRecord(lines[i]).Some? && InfoRecord(lines[i]).value.0 == name
    decreases |lines|
  {
    if lines != [] {
      var init := lines[..|lines| - 1];
      InfoMapNames(init, name);
      assert forall i :: 0 <= i < |init| ==> init[i] == lines[i];
    }
  }

  /** The value of a name is the one on the last line that records it. */
  lemma {:induction false} InfoMapLastWins(lines: seq<string>, i: int, name: string, value: string)
    requires 0 <= i < |lines| && InfoRecord(lines[i]) == Some((name, value))
    requires forall j :: i < j < |lines| ==> InfoRecord(lines[j]).None? || InfoRecord(lines[j]).value.0 != name
    ensures name in InfoMap(lines) && InfoMap(lines)[name] == value
    decreases |lines|
  {
    var init := lines[..|lines| - 1];
    if i < |lines| - 1 {
      InfoMapLastWins(init, i, name, value);
    }
  }

  /** The `forEach` over `info.split('\r\n')` that fills `infoMap`. */
  method ParseInfo(info: string) returns (infoMap: map<string, string>)
    ensures infoMap == InfoMap(Split(info, "\r\n"))
  {
    var lines := Split(info, "\r\n");
    infoMap := map[];
    var i := 0;
    while i < |lines|
      invariant 0 <= i <= |lines|
      invariant infoMap == InfoMap(lines[..i])
    {
      assert lines[..i + 1][..i] == lines[..i];
      match InfoRecord(lines[i]) {
        case None =>
        case Some((name, value)) =>
          infoMap := infoMap[name := value];
      }
      i := i + 1;
    }
    assert lines[..|lines|] == lines;
  }

  // ---------------------------------------------------------- derivations

  /** `parts.find(part => part.startsWith(prefix))`. */
  function FindStarting(parts: seq<string>, prefix: string): (r: Option<string>)
    ensures r.Some? ==> StartsWith(r.value, prefix)
    ensures r.Some? ==> exists i :: 0 <= i < |parts| && parts[i] == r.value && forall j :: 0 <= j < i ==> !StartsWith(parts[j], prefix)
    ensures r.None? ==> forall i :: 0 <= i < |parts| ==> !StartsWith(parts[i], prefix)
    decreases |parts|
  {
    if parts == [] then None
    else if StartsWith(parts[0], prefix) then Some(parts[0])
    else
      assert forall i :: 1 <= i < |parts| ==> parts[i] == parts[1..][i - 1];
      FindStarting(parts[1..], prefix)
  }

  /** `parseInt(part.split('=')[1]) || 0` for a `keys=` part, which always has a second piece. */
  function KeysValue(part: string): (n: int)
    requires StartsWith(part, "keys=")
    ensures |Split(part, "=")| >= 2 && n == OrZero(ParseInt(Split(part, "=")[1]))
    ensures ParseInt(Split(part, "=")[1]).NaN? ==> n == 0
    ensures '=' !in part[5..] ==> n == OrZero(ParseInt(part[5..]))
  {
    assert part == "keys" + ['='] + part[5..];
    SplitCharFirst("keys", '=', part[5..]);
    assert '=' !in part[5..] ==> Split(part[5..], "=") == [part[5..]] by {
      if '=' !in part[5..] {
        SplitCharAbsent(part[5..], '=');
      }
    }
    assert OccursAt(part, "=", 4) by {
      assert part[4..5] == part[..5][4..5];
    }
    SplitOccurs(part, "=", 4);
    OrZero(ParseInt(Split(part, "=")[1]))
  }

  /** `keyCount`: from the first `keys=` part of the `db0` field, 0 when there is none. */
  function KeyCount(infoMap: map<string, string>): (n: int)
    ensures "db0" !in infoMap || infoMap["db0"] == "" ==> n == 0
    ensures "db0" in infoMap && FindStarting(Split(infoMap["db0"], ","), "keys=").None? ==> n == 0
    ensures "db0" in infoMap && infoMap["db0"] != "" && FindStarting(Split(infoMap["db0"], ","), "keys=").Some? ==>
      n == KeysValue(FindStarting(Split(infoMap["db0"], ","), "keys=").value)
  {
    if "db0" in infoMap && infoMap["db0"] != "" then
      match FindStarting(Split(infoMap["db0"], ","), "keys=")
      case None => 0
      case Some(part) => KeysValue(part)
    else 0
  }

  /** The `keys=` part of a keyspace line reads back as the number it was written from. */
  lemma KeysValueOfNumber(n: int)
    ensures StartsWith("keys=" + IntToString(n), "keys=")
    ensures KeysValue("keys=" + IntToString(n)) == n
  {
    var digits := IntToString(n);
    var part := "keys=" + digits;
    assert part[..5] == "keys=";
    IntToStringChars(n, '=');
    assert part == "keys" + ['='] + digits;
    SplitCharFirst("keys", '=', digits);
    SplitCharAbsent(digits, '=');
    ParseIntToString(n);
  }

  /** A keyspace line `keys=N,...` gives N keys. */
  lemma KeyCountOfKeyspace(infoMap: map<string, string>, n: int, rest: string)
    requires "db0" in infoMap && infoMap["db0"] == "keys=" + IntToString(n) + "," + rest
    ensures KeyCount(infoMap) == n
  {
    var digits := IntToString(n);
    var part := "keys=" + digits;
    IntToStringChars(n, ',');
    assert ',' !in part by {
      assert forall i :: 5 <= i < |part| ==> part[i] == digits[i - 5];
    }
    SplitCharFirst(part, ',', rest);
    assert infoMap["db0"] == part + [','] + rest;
    KeysValueOfNumber(n);
    assert FindStarting(Split(infoMap["db0"], ","), "keys=") == Some(part);
  }

  /** `parseInt(infoMap[name] || '0')`: a missing or empty field reads as 0, an unreadable one as `NaN`. */
  function Field(infoMap: map<string, string>, name: string): (v: IntOrNaN)
    ensures name !in infoMap || infoMap[name] == "" ==> v == Int(0)
    ensures name in infoMap && infoMap[name] != "" ==> v == ParseInt(infoMap[name])
  {
    assert IntToString(0) == "0";
    ParseIntToString(0);
    ParseInt(if name in infoMap && infoMap[name] != "" then infoMap[name] else "0")
  }

  /** The hit rate in percent; 0 when the total is not a positive number (no lookups, or `NaN`). */
  function HitRate(hits: IntOrNaN, misses: IntOrNaN): (rate: real)
    ensures !(hits.Int? && misses.Int? && hits.value + misses.value > 0) ==> rate == 0.0
    ensures hits.Int? && misses.Int? && hits.value + misses.value > 0 ==>
      rate * (hits.value + misses.value) as real == hits.value as real * 100.0
    ensures hits.Int? && misses.Int? && hits.value >= 0 && misses.value >= 0 ==> 0.0 <= rate <= 100.0
  {
    if hits.Int? && misses.Int? && hits.value + misses.value > 0 then
      var total := (hits.value + misses.value) as real;
      var ratio := hits.value as real / total;
      assert hits.value >= 0 && misses.value >= 0 ==> 0.0 <= ratio <= 1.0 by {
        if hits.value >= 0 && misses.value >= 0 {
          assert ratio * total == hits.value as real;
        }
      }
      ratio * 100.0
    else 0.0
  }

  /** `Math.floor(seconds / 86400)`; `NaN` stays `NaN`. */
  function UptimeDays(seconds: IntOrNaN): (days: IntOrNaN)
    ensures seconds.NaN? <==> days.NaN?
    ensures seconds.Int? ==> days.value * SecondsPerDay <= seconds.value < (days.value + 1) * SecondsPerDay
  {
    match seconds
    case NaN => NaN
    case Int(s) => Int(s / SecondsPerDay)
  }

  // ------------------------------------------------------------- blocking

  /** A counter value that reached the limit: present, non-empty and read by `parseInt` as 20 or more. */
  predicate BlockedValue(value: Option<string>) {
    value.Some? && value.value != "" && ParseInt(value.value).Int? && ParseInt(value.value).value >= BlockThreshold
  }

  /** A pipeline result counts when it has no error and a blocked value. */
  predicate IsBlocked(result: Reply<Option<string>>) {
    result.Ok? && BlockedValue(result.value)
  }

  /** `results.filter(...).length`. */
  function CountBlocked(results: seq<Reply<Option<string>>>): (n: nat)
    ensures n <= |results|
    decreases |results|
  {
    if results == [] then 0
    else CountBlocked(results[..|results| - 1]) + (if IsBlocked(results[|results| - 1]) then 1 else 0)
  }

  /** The blocked keys among `keys`. */
  function BlockedKeys(data: map<string, Entry>, keys: seq<string>, now: int): set<string> {
    set k | k in keys && BlockedValue(Lookup(data, k, now))
  }

  /** The blocked keys among a set of keys. */
  function BlockedAmong(data: map<string, Entry>, keys: set<string>, now: int): set<string> {
    set k | k in keys && BlockedValue(Lookup(data, k, now))
  }

  /** Over one successful GET per distinct key, the count is the number of blocked keys. */
  lemma {:induction false} CountBlockedOfKeys(data: map<string, Entry>, keys: seq<string>, now: int, results: seq<Reply<Option<string>>>)
    requires Distinct(keys) && |results| == |keys|
    requires forall i :: 0 <= i < |keys| ==> results[i] == Ok(Lookup(data, keys[i], now))
    ensures CountBlocked(results) == |BlockedKeys(data, keys, now)|
    decreases |keys|
  {
    if keys != [] {
      var init := keys[..|keys| - 1];
      var last := keys[|keys| - 1];
      var earlier := results[..|results| - 1];
      assert Distinct(init);
      assert forall i :: 0 <= i < |init| ==> earlier[i] == Ok(Lookup(data, init[i], now));
      assert keys == init + [last];
      CountBlockedOfKeys(data, init, now, earlier);
      assert CountBlocked(results) == CountBlocked(earlier) + (if IsBlocked(results[|results| - 1]) then 1 else 0);
      assert results[|results| - 1] == Ok(Lookup(data, last, now));
      assert last !in init;
      BlockedKeysSnoc(data, init, last, now);
    }
  }

  /** Appending one key adds it to the blocked keys exactly when its counter is blocked. */
  lemma BlockedKeysSnoc(data: map<string, Entry>, init: seq<string>, last: string, now: int)
    ensures BlockedKeys(data, init + [last], now)
      == BlockedKeys(data, init, now) + (if BlockedValue(Lookup(data, last, now)) then {last} else {})
  {
    var keys := init + [last];
    assert forall k :: k in keys <==> k in init || k == last;
  }

  /** A distinct sequence is as long as the set of its elements. */
  lemma {:induction false} DistinctSize(keys: seq<string>)
    requires Distinct(keys)
    ensures |set k | k in keys| == |keys|
    decreases |keys|
  {
    if keys != [] {
      var init := keys[..|keys| - 1];
      DistinctSize(init);
      assert (set k | k in keys) == (set k | k in init) + {keys[|keys| - 1]};
    }
  }

  /** A counter counts as blocked exactly when the shared limiter refuses the next request on it. */
  lemma BlockedIffRefused(data: map<string, Entry>, key: string, now: int)
    ensures BlockedValue(Lookup(data, key, now)) <==> BlogsRoute.Admission(data, key, now, BlogsRoute.NoFault).0 == BlogsRoute.TooMany
  {
    BlogsRoute.RefusedExactlyAtLimit(data, key, now, BlogsRoute.NoFault);
  }

  // --------------------------------------------------------- collection

  /** `CacheMetrics`; numbers read from INFO keep `NaN`, memory sizes are the raw byte counts. */
  datatype Metrics = Metrics(
    hits: IntOrNaN,
    misses: IntOrNaN,
    hitRate: real,
    keyCount: int,
    usedMemory: IntOrNaN,
    peakMemory: IntOrNaN,
    uptimeSeconds: IntOrNaN,
    uptimeDays: IntOrNaN,
    activeIps: nat,
    blockedIps: nat)

  /** The fields taken from the INFO table. */
  function InfoMetrics(infoMap: map<string, string>, activeIps: nat, blockedIps: nat): (m: Metrics)
    ensures m.keyCount == KeyCount(infoMap)
    ensures m.hitRate == HitRate(Field(infoMap, "keyspace_hits"), Field(infoMap, "keyspace_misses"))
    ensures m.hits == Field(infoMap, "keyspace_hits") && m.misses == Field(infoMap, "keyspace_misses")
    ensures m.uptimeSeconds == Field(infoMap, "uptime_in_seconds")
    ensures m.usedMemory == Field(infoMap, "used_memory") && m.peakMemory == Field(infoMap, "used_memory_peak")
    ensures m.uptimeDays == UptimeDays(m.uptimeSeconds)
    ensures "keyspace_hits" !in infoMap ==> m.hits == Int(0)
    ensures "keyspace_misses" !in infoMap ==> m.misses == Int(0)
    ensures "uptime_in_seconds" !in infoMap ==> m.uptimeSeconds == Int(0)
    ensures "used_memory" !in infoMap ==> m.usedMemory == Int(0)
    ensures "used_memory_peak" !in infoMap ==> m.peakMemory == Int(0)
    ensures m.activeIps == activeIps && m.blockedIps == blockedIps
  {
    var hits := Field(infoMap, "keyspace_hits");
    var misses := Field(infoMap, "keyspace_misses");
    var uptime := Field(infoMap, "uptime_in_seconds");
    Metrics(hits, misses, HitRate(hits, misses), KeyCount(infoMap),
      Field(infoMap, "used_memory"), Field(infoMap, "used_memory_peak"),
      uptime, UptimeDays(uptime), activeIps, blockedIps)
  }

  /**
   * `collectRedisMetrics()`. `info` is the INFO reply; KEYS fails when
   * `keysFail`; the GETs at indices in `failedGets` fail; `execAborted`
   * stands for the pipeline answering `null`. `None` is `null`.
   */
  method CollectMetrics(cell: ClientCell, now: int, info: Reply<string>, keysFail: bool, failedGets: set<nat>, execAborted: bool)
    returns (metrics: Option<Metrics>)
    requires cell.Valid()
    modifies cell
    ensures cell.Valid() && cell.client == old(cell.Connected())
    ensures metrics.None? <==> cell.client == null || info.Err? || keysFail
    ensures metrics.Some? ==>
      var m := metrics.value;
      var active := Matching(cell.server.data, RateLimitPattern, now);
      && m == InfoMetrics(InfoMap(Split(info.value, "\r\n")), |active|, m.blockedIps)
      && m.blockedIps <= m.activeIps
      && (execAborted ==> m.blockedIps == 0)
      && (failedGets == {} && !execAborted ==>
            m.blockedIps == |BlockedAmong(cell.server.data, active, now)|)
  {
    var redis := cell.GetClient();
    if redis == null {
      return None;
    }
    if info.Err? {
      return None;
    }
    var infoMap := ParseInfo(info.value);
    var listed := redis.Keys(RateLimitPattern, now, keysFail);
    if listed.Err? {
      return None;
    }
    var keys := listed.value;
    var active := Matching(redis.data, RateLimitPattern, now);
    DistinctSize(keys);
    assert (set k | k in keys) == active;
    var blocked := 0;
    if |keys| > 0 {
      var results := redis.PipelineGet(keys, now, failedGets);
      if !execAborted {
        blocked := CountBlocked(results);
        if failedGets == {} {
          CountBlockedOfKeys(redis.data, keys, now, results);
          assert BlockedKeys(redis.data, keys, now) == BlockedAmong(redis.data, active, now);
        }
      }
    } else {
      assert BlockedAmong(redis.data, active, now) == {};
    }
    metrics := Some(InfoMetrics(infoMap, |keys|, blocked));
  }

  // ----------------------------------------------------------- active IPs

  /** A counter that `getActiveIPs` reports: present with a non-empty value. */
  predicate Reported(data: map<string, Entry>, key: string, now: int) {
    Lookup(data, key, now).Some? && Lookup(data, key, now).value != ""
  }

  /** `key.replace('ratelimit:', '')` undoes the prefix of a rate-limit key. */
  lemma StripPrefix(ip: string)
    ensures ReplaceFirst(RateLimitPrefix + ip, RateLimitPrefix, "") == ip
  {
    assert StartsWith(RateLimitPrefix + ip, RateLimitPrefix) by {
      assert (RateLimitPrefix + ip)[..|RateLimitPrefix|] == RateLimitPrefix;
    }
    ReplaceLeading(RateLimitPrefix + ip, RateLimitPrefix);
    assert (RateLimitPrefix + ip)[|RateLimitPrefix|..] == ip;
  }

  /** The keys KEYS `ratelimit:*` lists are the live keys carrying the prefix. */
  lemma RateLimitKeys(data: map<string, Entry>, key: string, now: int)
    ensures key in Matching(data, RateLimitPattern, now) <==> Lookup(data, key, now).Some? && StartsWith(key, RateLimitPrefix)
  {
    assert RateLimitPattern == RateLimitPrefix + "*";
    PrefixPattern(RateLimitPrefix, key);
  }

  /** A listed key is the prefix followed by the address `key.replace` leaves. */
  lemma ListedKeyShape(key: string)
    requires StartsWith(key, RateLimitPrefix)
    ensures key == RateLimitPrefix + ReplaceFirst(key, RateLimitPrefix, "")
  {
    ReplaceLeading(key, RateLimitPrefix);
    assert key == key[..|RateLimitPrefix|] + key[|RateLimitPrefix|..];
  }

  /** The address a listed key stands for: `key.replace('ratelimit:', '')`. */
  function IpOf(key: string): string {
    ReplaceFirst(key, RateLimitPrefix, "")
  }

  /** A pipeline result `getActiveIPs` takes: no error and a non-empty value. */
  predicate HasValue(result: Reply<Option<string>>) {
    result.Ok? && result.value.Some? && result.value.value != ""
  }

  /**
   * The table the `forEach` over the listed keys and their results builds:
   * address to `parseInt(value) || 0`, a later key for the same address
   * overwriting an earlier one.
   */
  function IpCounts(keys: seq<string>, results: seq<Reply<Option<string>>>): map<string, int>
    requires |keys| == |results|
    decreases |keys|
  {
    if keys == [] then map[]
    else
      var earlier := IpCounts(keys[..|keys| - 1], results[..|results| - 1]);
      var result := results[|results| - 1];
      if HasValue(result) then earlier[IpOf(keys[|keys| - 1]) := OrZero(ParseInt(result.value.value))]
      else earlier
  }

  /** The loop of `getActiveIPs` that fills `ipCounts`. */
  method FillIpCounts(keys: seq<string>, results: seq<Reply<Option<string>>>) returns (ipCounts: map<string, int>)
    requires |keys| == |results|
    ensures ipCounts == IpCounts(keys, results)
  {
    ipCounts := map[];
    var i := 0;
    while i < |keys|
      invariant 0 <= i <= |keys|
      invariant ipCounts == IpCounts(keys[..i], results[..i])
    {
      assert keys[..i + 1][..i] == keys[..i] && results[..i + 1][..i] == results[..i];
      var result := results[i];
      if HasValue(result) {
        ipCounts := ipCounts[IpOf(keys[i]) := OrZero(ParseInt(result.value.value))];
      }
      i := i + 1;
    }
    assert keys[..|keys|] == keys && results[..|results|] == results;
  }

  /**
   * Over rate-limit keys and one GET per key, the table holds only listed
   * addresses with a present, non-empty counter and that counter's value
   * read by `parseInt(...) || 0`; when no GET failed it holds every such
   * address.
   */
  lemma {:induction false} IpCountsOfStore(data: map<string, Entry>, now: int, keys: seq<string>,
                                           results: seq<Reply<Option<string>>>, failedGets: set<nat>)
    requires |results| == |keys|
    requires forall i :: 0 <= i < |keys| ==> StartsWith(keys[i], RateLimitPrefix)
    requires forall i :: 0 <= i < |keys| ==> results[i] == if i in failedGets then Err else Ok(Lookup(data, keys[i], now))
    ensures forall ip :: ip in IpCounts(keys, results) ==>
      && RateLimitPrefix + ip in keys
      && Reported(data, RateLimitPrefix + ip, now)
      && IpCounts(keys, results)[ip] == OrZero(ParseInt(Lookup(data, RateLimitPrefix + ip, now).value))
    ensures failedGets == {} ==>
      forall ip :: RateLimitPrefix + ip in keys && Reported(data, RateLimitPrefix + ip, now) ==> ip in IpCounts(keys, results)
    decreases |keys|
  {
    if keys != [] {
      var n := |keys| - 1;
      var init := keys[..n];
      IpCountsOfStore(data, now, init, results[..n], failedGets);
      var key := keys[n];
      ListedKeyShape(key);
      var table := IpCounts(keys, results);
      forall ip | ip in table
        ensures RateLimitPrefix + ip in keys && Reported(data, RateLimitPrefix + ip, now)
        ensures table[ip] == OrZero(ParseInt(Lookup(data, RateLimitPrefix + ip, now).value))
      {
        if HasValue(results[n]) && ip == IpOf(key) {
          assert RateLimitPrefix + ip == key;
        } else {
          assert RateLimitPrefix + ip in init;
        }
      }
      if failedGets == {} {
        forall ip | RateLimitPrefix + ip in keys && Reported(data, RateLimitPrefix + ip, now)
          ensures ip in table
        {
          if RateLimitPrefix + ip == key {
            StripPrefix(ip);
          } else {
            assert RateLimitPrefix + ip in init;
          }
        }
      }
    }
  }

  /**
   * `getActiveIPs()`: address to `parseInt(value) || 0` for every listed
   * counter whose GET answered a non-empty value; `{}` on a missing client,
   * a failed KEYS or an aborted pipeline.
   */
  method ActiveIps(cell: ClientCell, now: int, keysFail: bool, failedGets: set<nat>, execAborted: bool)
    returns (ipCounts: map<string, int>)
    requires cell.Valid()
    modifies cell
    ensures cell.Valid() && cell.client == old(cell.Connected())
    ensures cell.client == null || keysFail || execAborted ==> ipCounts == map[]
    ensures forall ip :: ip in ipCounts ==>
      && RateLimitPrefix + ip in Matching(cell.server.data, RateLimitPattern, now)
      && Reported(cell.server.data, RateLimitPrefix + ip, now)
      && ipCounts[ip] == OrZero(ParseInt(Lookup(cell.server.data, RateLimitPrefix + ip, now).value))
    ensures cell.client != null && !keysFail && !execAborted && failedGets == {} ==>
      forall ip :: ip in ipCounts <==>
        RateLimitPrefix + ip in Matching(cell.server.data, RateLimitPattern, now) && Reported(cell.server.data, RateLimitPrefix + ip, now)
  {
    var redis := cell.GetClient();
    if redis == null {
      return map[];
    }
    var listed := redis.Keys(RateLimitPattern, now, keysFail);
    if listed.Err? {
      return map[];
    }
    var keys := listed.value;
    if |keys| == 0 {
      assert Matching(redis.data, RateLimitPattern, now) == {};
      return map[];
    }
    var results := redis.PipelineGet(keys, now, failedGets);
    if execAborted {
      return map[];
    }
    forall i | 0 <= i < |keys|
      ensures StartsWith(keys[i], RateLimitPrefix)
    {
      RateLimitKeys(redis.data, keys[i], now);
    }
    ipCounts := FillIpCounts(keys, results);
    IpCountsOfStore(redis.data, now, keys, results, failedGets);
  }

  // ----------------------------------------------------------- connection

  /** What `redis.ping()` did: answered with a reply, or threw with a message. */
  datatype PingOutcome = Pong(reply: string) | Thrown(message: string)

  datatype ConnectionReport = ConnectionReport(connected: bool, message: string)

  /** The report once a client exists: connected exactly on the reply `PONG`. */
  function PingReport(ping: PingOutcome): (r: ConnectionReport)
    ensures r.connected <==> ping == Pong("PONG")
    ensures ping.Pong? && ping.reply != "PONG" ==> r.message == "Unexpected response from Redis ping: " + ping.reply
    ensures ping.Thrown? ==> r.message == "Error connecting to Redis: " + ping.message
  {
    match ping
    case Thrown(message) => ConnectionReport(false, "Error connecting to Redis: " + message)
    case Pong(reply) =>
      if reply != "PONG" then ConnectionReport(false, "Unexpected response from Redis ping: " + reply)
      else ConnectionReport(true, "Successfully connected to Redis on localhost")
  }

  lemma ErrorIsNotUnexpected(message: string, reply: string)
    ensures "Error connecting to Redis: " + message != "Unexpected response from Redis ping: " + reply
  {
    assert ("Error connecting to Redis: " + message)[0] == 'E';
  }

  /** The report tells the outcomes apart: its message names the reply or the error. */
  lemma {:induction false} PingReportInjective(a: PingOutcome, b: PingOutcome)
    requires PingReport(a) == PingReport(b)
    ensures a == b
  {
    var unexpected := "Unexpected response from Redis ping: ";
    var error := "Error connecting to Redis: ";
    if a.Thrown? && b.Thrown? {
      assert (error + a.message)[|error|..] == a.message && (error + b.message)[|error|..] == b.message;
    } else if a.Pong? && b.Pong? && a.reply != "PONG" && b.reply != "PONG" {
      assert PingReport(a).message == unexpected + a.reply && PingReport(b).message == unexpected + b.reply;
      assert (unexpected + a.reply)[|unexpected|..] == a.reply && (unexpected + b.reply)[|unexpected|..] == b.reply;
    } else if a.Thrown? && b.Pong? {
      ErrorIsNotUnexpected(a.message, b.reply);
    } else if a.Pong? && b.Thrown? {
      ErrorIsNotUnexpected(b.message, a.reply);
    }
  }

  /** The report `testRedisConnection` gives when `getRedisClient` answers `null`. */
  const NoClientReport := ConnectionReport(false, "Failed to get Redis client. Check your connection settings.")

  /** What the connection test reports, given whether a client exists and what PING did. */
  function ConnectionTest(hasClient: bool, ping: PingOutcome): (r: ConnectionReport)
    ensures r.connected <==> hasClient && ping == Pong("PONG")
    ensures !hasClient ==> r == NoClientReport
    ensures hasClient ==> r == PingReport(ping)
  {
    if hasClient then PingReport(ping) else NoClientReport
  }

  /** `testRedisConnection()`; `ping` is what the PING to the server gives. */
  method TestConnection(cell: ClientCell, ping: PingOutcome) returns (report: ConnectionReport)
    requires cell.Valid()
    modifies cell
    ensures cell.Valid() && cell.client == old(cell.Connected())
    ensures report.connected <==> cell.client != null && ping == Pong("PONG")
    ensures cell.client == null ==> report == NoClientReport
    ensures cell.client != null ==> report == PingReport(ping)
    ensures report == ConnectionTest(cell.client != null, ping)
  {
    var redis := cell.GetClient();
    if redis == null {
      return NoClientReport;
    }
    report := PingReport(ping);
  }

  // --------------------------------------------------- the linked import

  /**
   * What the named import of `getRedisClient` from `./redis-cache` binds:
   * the client function, or `undefined` (the module exports it only inside
   * its default object).
   */
  datatype Binding = Exported | Undefined

  /** How an `async` entry point settles: with its value, or rejected by an error it did not catch. */
  datatype Settled<T> = Fulfilled(value: T) | Rejected

  /**
   * `testRedisConnection()` as linked against `binding`. Calling an
   * `undefined` binding throws before the `try`, so the promise rejects;
   * otherwise it settles with the connection test's report.
   */
  function LinkedConnectionTest(binding: Binding, hasClient: bool, ping: PingOutcome): (r: Settled<ConnectionReport>)
    ensures r.Rejected? <==> binding.Undefined?
    ensures r.Fulfilled? ==> r.value == ConnectionTest(hasClient, ping)
  {
    if binding.Undefined? then Rejected else Fulfilled(ConnectionTest(hasClient, ping))
  }

  /**
   * As linked, the connection test never settles with any report the
   * exported binding would give, not even the no-client one.
   */
  lemma NoReportAsWritten(hasClient: bool, ping: PingOutcome, linkedClient: bool, linkedPing: PingOutcome)
    ensures LinkedConnectionTest(Undefined, linkedClient, linkedPing) != LinkedConnectionTest(Exported, hasClient, ping)
  {
  }

  /** `testRedisConnection()` with the import bound to `binding`; an `undefined` binding leaves the client cell alone. */
  method TestConnectionLinked(binding: Binding, cell: ClientCell, ping: PingOutcome) returns (r: Settled<ConnectionReport>)
    requires cell.Valid()
    modifies cell
    ensures cell.Valid()
    ensures binding.Undefined? ==> cell.client == old(cell.client)
    ensures binding.Exported? ==> cell.client == old(cell.Connected())
    ensures r == LinkedConnectionTest(binding, cell.client != null, ping)
  {
    if binding.Undefined? {
      return Rejected;
    }
    var report := TestConnection(cell, ping);
    r := Fulfilled(report);
  }

  /** `collectRedisMetrics()` with the import bound to `binding`: it rejects on `undefined`, else it settles as `CollectMetrics`. */
  method CollectMetricsLinked(binding: Binding, cell: ClientCell, now: int, info: Reply<string>, keysFail: bool, failedGets: set<nat>, execAborted: bool)
    returns (r: Settled<Option<Metrics>>)
    requires cell.Valid()
    modifies cell
    ensures cell.Valid()
    ensures r.Rejected? <==> binding.Undefined?
    ensures binding.Undefined? ==> cell.client == old(cell.client)
    ensures binding.Exported? ==> cell.client == old(cell.Connected())
    ensures r.Fulfilled? ==> (r.value.None? <==> cell.client == null || info.Err? || keysFail)
    ensures r.Fulfilled? && r.value.Some? ==>
      var m := r.value.value;
      var active := Matching(cell.server.data, RateLimitPattern, now);
      && m == InfoMetrics(InfoMap(Split(info.value, "\r\n")), |active|, m.blockedIps)
      && m.blockedIps <= m.activeIps
      && (execAborted ==> m.blockedIps == 0)
      && (failedGets == {} && !execAborted ==>
            m.blockedIps == |BlockedAmong(cell.server.data, active, now)|)
  {
    if binding.Undefined? {
      return Rejected;
    }
    var metrics := CollectMetrics(cell, now, info, keysFail, failedGets, execAborted);
    r := Fulfilled(metrics);
  }

  /** `getActiveIPs()` with the import bound to `binding`: it rejects on `undefined`, else it settles as `ActiveIps`. */
  method ActiveIpsLinked(binding: Binding, cell: ClientCell, now: int, keysFail: bool, failedGets: set<nat>, execAborted: bool)
    returns (r: Settled<map<string, int>>)
    requires cell.Valid()
    modifies cell
    ensures cell.Valid()
    ensures r.Rejected? <==> binding.Undefined?
    ensures binding.Undefined? ==> cell.client == old(cell.client)
    ensures binding.Exported? ==> cell.client == old(cell.Connected())
    ensures r.Fulfilled? && (cell.client == null || keysFail || execAborted) ==> r.value == map[]
    ensures r.Fulfilled? ==> forall ip :: ip in r.value ==>
      && RateLimitPrefix + ip in Matching(cell.server.data, RateLimitPattern, now)
      && Reported(cell.server.data, RateLimitPrefix + ip, now)
      && r.value[ip] == OrZero(ParseInt(Lookup(cell.server.data, RateLimitPrefix + ip, now).value))
    ensures r.Fulfilled? && cell.client != null && !keysFail && !execAborted && failedGets == {} ==>
      forall ip :: ip in r.value <==>
        RateLimitPrefix + ip in Matching(cell.server.data, RateLimitPattern, now) && Reported(cell.server.data, RateLimitPrefix + ip, now)
  {
    if binding.Undefined? {
      return Rejected;
    }
    var ipCounts := ActiveIps(cell, now, keysFail, failedGets, execAborted);
    r := Fulfilled(ipCounts);
  }
}
