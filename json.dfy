/** Decoded JSON documents, as `json.load` returns them, and Python truthiness on them. */
module Json {
  import opened Wrappers

  datatype Value =
    | JNull
    | JBool(b: bool)
    | JNum(n: real)
    | JStr(s: string)
    | JArray(items: seq<Value>)
    | JObject(fields: Dict)

  /** A Python dict with string keys; also the dataset record the API returns. */
  type Dict = map<string, Value>

  /** Python's `bool(v)`: null, false, zero and empty containers are falsy. */
  predicate Truthy(v: Value) {
    match v
    case JNull => false
    case JBool(b) => b
    case JNum(n) => n != 0.0
    case JStr(s) => s != ""
    case JArray(xs) => xs != []
    case JObject(m) => m != map[]
  }

  /** `v[key]`: a dict that holds the key yields its value; any other value raises. */
  function Index(v: Value, key: string): (r: Result<Value>)
    ensures r.Ok? <==> v.JObject? && key in v.fields
    ensures r.Ok? ==> r.value == v.fields[key]
    ensures v.JObject? && key !in v.fields ==> r == Raise(KeyError(key))
  {
    match v
    case JObject(m) => if key in m then Ok(m[key]) else Raise(KeyError(key))
    case _ => Raise(TypeError)
  }

  /** A list of strings as a JSON array. */
  function StrArray(xs: seq<string>): (r: Value)
    ensures r.JArray? && |r.items| == |xs|
    ensures forall i | 0 <= i < |xs| :: r.items[i] == JStr(xs[i])
  {
    JArray(seq(|xs|, i requires 0 <= i < |xs| => JStr(xs[i])))
  }
}
