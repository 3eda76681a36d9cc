/**
  JSON values as the Python `json` module hands them over, except floats (dict, list, str,
  int, bool, None), together with the two Python idioms the core applies to them: `dict.get`
  and truthiness.
 */
module Json {

  datatype Json =
    | JNull
    | JBool(b: bool)
    | JInt(i: int)
    | JString(s: string)
    | JArray(items: seq<Json>)
    | JObject(fields: map<string, Json>)

  /** A JSON object, i.e. a Python dict with string keys. */
  type Object = map<string, Json>

  /** Python truthiness: None, False, 0, "", [] and {} are false, everything else true. */
  predicate Truthy(j: Json)
  {
    match j
    case JNull => false
    case JBool(b) => b
    case JInt(i) => i != 0
    case JString(s) => s != ""
    case JArray(a) => a != []
    case JObject(m) => m != map[]
  }

  /** `d.get(key, default)`. */
  function GetOr(d: Object, key: string, default: Json): (r: Json)
    ensures key in d ==> r == d[key]
    ensures key !in d ==> r == default
  {
    if key in d then d[key] else default
  }

  /** `d.get(key)`: a missing key reads as None, like a stored null. */
  function Get(d: Object, key: string): Json
  {
    GetOr(d, key, JNull)
  }
}
