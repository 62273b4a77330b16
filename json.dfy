/**
 * Python values as they come out of `json.loads`: the shape of a Lambda event
 * and of a request body. Numbers are integers; object keys are strings.
 */
module Json {

  datatype Json =
    | JNull
    | JBool(b: bool)
    | JNum(n: int)
    | JStr(s: string)
    | JArray(items: seq<Json>)
    | JObject(fields: map<string, Json>)

  /** Python truthiness: None, False, 0, "", [] and {} are false, everything else true. */
  predicate Truthy(v: Json)
  {
    match v
    case JNull => false
    case JBool(b) => b
    case JNum(n) => n != 0
    case JStr(s) => s != ""
    case JArray(items) => items != []
    case JObject(fields) => fields != map[]
  }

  /** `d.get(key)`: the value under `key`, or None when the key is absent. */
  function Get(d: map<string, Json>, key: string): (v: Json)
    ensures key !in d ==> v == JNull
    ensures key in d ==> v == d[key]
  {
    if key in d then d[key] else JNull
  }

  /** `d.get(key, default)` */
  function GetOr(d: map<string, Json>, key: string, default: Json): (v: Json)
    ensures key !in d ==> v == default
    ensures key in d ==> v == d[key]
  {
    if key in d then d[key] else default
  }
}
