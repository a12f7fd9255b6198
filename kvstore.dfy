/**
 * The key-value server the cache, the limiter and the metrics talk to:
 * a map from key to text value with an optional expiry deadline, the
 * commands the core issues (GET, SET .. EX, DEL, KEYS, INCR, TTL and a
 * pipeline of GETs), and expiry decided by an explicit clock reading `now`
 * in milliseconds. Each command takes a `fail` input standing for a
 * network or server error; a failed command changes nothing.
 */
module KvStore {
  import opened Wrappers
  import opened Text
  import opened JsNumbers

  /** A stored value and, when it was written with an expiry, the millisecond deadline. */
  datatype Entry = Entry(value: string, deadline: Option<int>)

  /** The reply to one command: its result, or the error the client raises. */
  datatype Reply<+T> = Ok(value: T) | Err

  /** A key is visible up to and including its deadline (it expires once `now` passes it). */
  predicate IsLive(e: Entry, now: int) {
    e.deadline.None? || now <= e.deadline.value
  }

  /** The entry a command sees at `now`: expired entries are invisible. */
  function LiveEntry(data: map<string, Entry>, key: string, now: int): (r: Option<Entry>)
    ensures r.Some? <==> key in data && IsLive(data[key], now)
    ensures r.Some? ==> r.value == data[key]
  {
    if key in data && IsLive(data[key], now) then Some(data[key]) else None
  }

  /** What GET answers at `now`. */
  function Lookup(data: map<string, Entry>, key: string, now: int): (r: Option<string>)
    ensures r.Some? <==> LiveEntry(data, key, now).Some?
    ensures r.Some? ==> r.value == data[key].value
  {
    match LiveEntry(data, key, now)
    case None => None
    case Some(e) => Some(e.value)
  }

  /** The deadline `SET key value EX seconds` gives a key written at `now`. */
  function ExpiryDeadline(now: int, seconds: int): int {
    now + seconds * 1000
  }

  /**
   * Glob matching where `*` stands for any run of characters and every
   * other character for itself.
   */
  function GlobMatch(pattern: string, s: string): (m: bool)
    ensures '*' !in pattern ==> (m <==> s == pattern)
    decreases |pattern| + |s|
  {
    if pattern == [] then s == []
    else if pattern[0] == '*' then GlobMatch(pattern[1..], s) || (s != [] && GlobMatch(pattern, s[1..]))
    else
      assert s != [] && s[0] == pattern[0] && s[1..] == pattern[1..] ==> s == pattern by {
        if s != [] && s[0] == pattern[0] && s[1..] == pattern[1..] {
          assert s == [s[0]] + s[1..] && pattern == [pattern[0]] + pattern[1..];
        }
      }
      s != [] && s[0] == pattern[0] && GlobMatch(pattern[1..], s[1..])
  }

  lemma {:induction false} StarMatchesAll(s: string)
    ensures GlobMatch("*", s)
    decreases |s|
  {
    if s != [] {
      StarMatchesAll(s[1..]);
    }
  }

  /** A literal prefix followed by one `*` matches exactly the keys that start with that prefix. */
  lemma {:induction false} PrefixPattern(prefix: string, s: string)
    requires '*' !in prefix
    ensures GlobMatch(prefix + "*", s) <==> StartsWith(s, prefix)
    decreases |prefix|
  {
    if prefix == [] {
      assert prefix + "*" == "*";
      StarMatchesAll(s);
    } else {
      assert (prefix + "*")[1..] == prefix[1..] + "*";
      assert (prefix + "*")[0] == prefix[0];
      if s != [] && s[0] == prefix[0] {
        PrefixPattern(prefix[1..], s[1..]);
        assert StartsWith(s, prefix) <==> StartsWith(s[1..], prefix[1..]) by {
          if StartsWith(s[1..], prefix[1..]) {
            assert s[..|prefix|] == [s[0]] + s[1..][..|prefix| - 1];
            assert prefix == [prefix[0]] + prefix[1..];
          }
          if StartsWith(s, prefix) {
            assert s[1..][..|prefix| - 1] == s[..|prefix|][1..];
          }
        }
      } else if s != [] && |prefix| <= |s| {
        assert s[..|prefix|][0] == s[0];
      }
    }
  }

  /** The live keys that `pattern` matches: what KEYS answers. */
  function Matching(data: map<string, Entry>, pattern: string, now: int): (ks: set<string>)
    ensures forall k :: k in ks <==> Lookup(data, k, now).Some? && GlobMatch(pattern, k)
  {
    set k | k in data && IsLive(data[k], now) && GlobMatch(pattern, k)
  }

  predicate Distinct(s: seq<string>) {
    forall i, j :: 0 <= i < j < |s| ==> s[i] != s[j]
  }

  const Int64Min: int := -0x8000_0000_0000_0000
  const Int64Max: int := 0x7FFF_FFFF_FFFF_FFFF

  /**
   * The integer a stored value holds as far as INCR is concerned: only the
   * canonical decimal text of a 64-bit integer (no sign `+`, no leading
   * zeros, no spaces) counts.
   */
  function StoredInt(s: string): (r: Option<int>)
    ensures r.Some? ==> IntToString(r.value) == s && Int64Min <= r.value <= Int64Max
  {
    match ParseInt(s)
    case NaN => None
    case Int(n) => if IntToString(n) == s && Int64Min <= n <= Int64Max then Some(n) else None
  }

  lemma StoredIntOfString(n: int)
    requires Int64Min <= n <= Int64Max
    ensures StoredInt(IntToString(n)) == Some(n)
  {
    ParseIntToString(n);
  }

  /**
   * INCR: a missing key becomes "1" with no expiry; an integer value goes
   * up by one and keeps its deadline; anything else, or overflow, is an
   * error (`None`). The result is the new entry and the reply.
   */
  function Incremented(data: map<string, Entry>, key: string, now: int): (r: Option<(Entry, int)>)
    ensures LiveEntry(data, key, now).None? ==> r == Some((Entry("1", None), 1))
    ensures LiveEntry(data, key, now).Some? ==>
      (r.Some? <==> StoredInt(LiveEntry(data, key, now).value.value).Some?
                    && StoredInt(LiveEntry(data, key, now).value.value).value < Int64Max)
    ensures r.Some? && LiveEntry(data, key, now).Some? ==>
      var e := LiveEntry(data, key, now).value;
      StoredInt(e.value).Some? && r.value.1 == StoredInt(e.value).value + 1
      && r.value.0 == Entry(IntToString(r.value.1), e.deadline)
  {
    match LiveEntry(data, key, now)
    case None => Some((Entry("1", None), 1))
    case Some(e) =>
      match StoredInt(e.value)
      case None => None
      case Some(n) => if n < Int64Max then Some((Entry(IntToString(n + 1), e.deadline), n + 1)) else None
  }

  /** TTL: -2 for a missing key, -1 for a key without expiry, else the seconds left, rounded. */
  function TtlOf(data: map<string, Entry>, key: string, now: int): (t: int)
    ensures LiveEntry(data, key, now).None? <==> t == -2
    ensures t >= -2
  {
    match LiveEntry(data, key, now)
    case None => -2
    case Some(e) =>
      match e.deadline
      case None => -1
      case Some(d) => (d - now + 500) / 1000
  }

  /** The server: every key it holds, expired or not. */
  class Store {
    var data: map<string, Entry>

    constructor (initial: map<string, Entry>)
      ensures data == initial
    {
      data := initial;
    }

    method Get(key: string, now: int, fail: bool) returns (r: Reply<Option<string>>)
      ensures r == if fail then Err else Ok(Lookup(data, key, now))
    {
      if fail {
        r := Err;
      } else {
        r := Ok(Lookup(data, key, now));
      }
    }

    /** SET key value EX seconds: a non-positive expiry is refused. */
    method SetEx(key: string, value: string, seconds: int, now: int, fail: bool) returns (ok: bool)
      modifies this
      ensures ok == (!fail && seconds > 0)
      ensures data == if ok then old(data)[key := Entry(value, Some(ExpiryDeadline(now, seconds)))] else old(data)
    {
      ok := !fail && seconds > 0;
      if ok {
        data := data[key := Entry(value, Some(ExpiryDeadline(now, seconds)))];
      }
    }

    /** DEL k1 k2 ...: answers how many of them were live. */
    method Del(keys: set<string>, now: int, fail: bool) returns (r: Reply<nat>)
      modifies this
      ensures fail ==> r == Err && data == old(data)
      ensures !fail ==> data == old(data) - keys
      ensures !fail ==> r == Ok(|keys * Matching(old(data), "*", now)|)
    {
      if fail {
        r := Err;
      } else {
        r := Ok(|keys * Matching(data, "*", now)|);
        data := data - keys;
      }
    }

    /** KEYS pattern: every live matching key once, in no particular order. */
    method Keys(pattern: string, now: int, fail: bool) returns (r: Reply<seq<string>>)
      ensures fail <==> r.Err?
      ensures r.Ok? ==> Distinct(r.value) && forall k :: k in r.value <==> k in Matching(data, pattern, now)
    {
      if fail {
        return Err;
      }
      var todo := Matching(data, pattern, now);
      var found: seq<string> := [];
      while todo != {}
        invariant todo <= Matching(data, pattern, now)
        invariant forall k :: k in found <==> k in Matching(data, pattern, now) && k !in todo
        invariant Distinct(found)
        decreases todo
      {
        var k :| k in todo;
        found := found + [k];
        todo := todo - {k};
      }
      r := Ok(found);
    }

    method Incr(key: string, now: int, fail: bool) returns (r: Reply<int>)
      modifies this
      ensures fail || Incremented(old(data), key, now).None? ==> r == Err && data == old(data)
      ensures !fail && Incremented(old(data), key, now).Some? ==>
        r == Ok(Incremented(old(data), key, now).value.1)
        && data == old(data)[key := Incremented(old(data), key, now).value.0]
    {
      var next := Incremented(data, key, now);
      if fail || next.None? {
        r := Err;
      } else {
        r := Ok(next.value.1);
        data := data[key := next.value.0];
      }
    }

    method Ttl(key: string, now: int, fail: bool) returns (r: Reply<int>)
      ensures r == if fail then Err else Ok(TtlOf(data, key, now))
    {
      if fail {
        r := Err;
      } else {
        r := Ok(TtlOf(data, key, now));
      }
    }

    /** A pipeline of GETs, one reply per key, in order; the GETs at indices in `failed` error. */
    method PipelineGet(keys: seq<string>, now: int, failed: set<nat>) returns (rs: seq<Reply<Option<string>>>)
      ensures |rs| == |keys|
      ensures forall i :: 0 <= i < |keys| ==> rs[i] == if i in failed then Err else Ok(Lookup(data, keys[i], now))
    {
      rs := [];
      var i := 0;
      while i < |keys|
        invariant 0 <= i <= |keys| && |rs| == i
        invariant forall j :: 0 <= j < i ==> rs[j] == if j in failed then Err else Ok(Lookup(data, keys[j], now))
      {
        var r := Get(keys[i], now, i in failed);
        rs := rs + [r];
        i := i + 1;
      }
    }
  }
}
