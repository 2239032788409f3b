/**
 * Decoded JSON values as the Python scripts see them after `json.load`:
 * objects keep their key/value pairs in insertion order, as a `dict` does.
 */
module JsonValue {
  import opened Wrappers
  import opened Dicts

  datatype Json =
    | JNull
    | JBool(b: bool)
    | JInt(i: int)
    | JFloat(f: real)
    | JString(s: string)
    | JArray(items: seq<Json>)
    | JObject(fields: seq<(string, Json)>)

  /** Python truthiness (`if value:`) of a decoded value. */
  predicate Truthy(v: Json) {
    match v
    case JNull => false
    case JBool(b) => b
    case JInt(i) => i != 0
    case JFloat(f) => f != 0.0
    case JString(s) => s != ""
    case JArray(a) => a != []
    case JObject(o) => o != []
  }

  /** `d.get(key)` with Python's `None` read as JSON `null`. */
  function GetOrNull(fields: seq<(string, Json)>, key: string): Json {
    Lookup(fields, key).GetOr(JNull)
  }
}
