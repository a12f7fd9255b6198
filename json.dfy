/**
 * JSON values as the cache stores them, JavaScript truthiness on them, and
 * the `JSON.stringify` / `JSON.parse` pair as an abstract codec.
 */
module JsonValues {
  import opened Wrappers

  /** A JSON value; numbers are integers here (see README, "Left out"). */
  datatype Json =
    | JNull
    | JBool(b: bool)
    | JNumber(n: int)
    | JString(s: string)
    | JArray(items: seq<Json>)
    | JObject(fields: seq<(string, Json)>)

  /** JavaScript truthiness of a parsed value: `null`, `false`, `0` and `""` are falsy. */
  predicate Truthy(v: Json) {
    match v
    case JNull => false
    case JBool(b) => b
    case JNumber(n) => n != 0
    case JString(s) => s != ""
    case JArray(_) => true
    case JObject(_) => true
  }

  /** The falsy values are exactly `null`, `false`, `0` and `""`; every array and object, even an empty one, is truthy. */
  lemma FalsyValues(v: Json)
    ensures !Truthy(v) <==> v == JNull || v == JBool(false) || v == JNumber(0) || v == JString("")
  {
  }

  /**
   * `JSON.stringify` and `JSON.parse`; `parse` answers `None` where
   * `JSON.parse` throws.
   */
  datatype Codec = Codec(stringify: Json -> string, parse: string -> Option<Json>)

  /** What the cache relies on: parsing gives back what was stringified, and JSON text is never empty. */
  ghost predicate Faithful(c: Codec) {
    && (forall v :: c.parse(c.stringify(v)) == Some(v))
    && (forall v :: c.stringify(v) != "")
  }
}
