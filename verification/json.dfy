/** A parsed JSON value, as `JSON.parse` hands it to the user interface, and
    JavaScript truthiness and property access on it. */
module Json {

  datatype Json =
    | JNull
    | JBool(b: bool)
    | JNumber(n: real)
    | JString(s: string)
    | JArray(items: seq<Json>)
    | JObject(fields: map<string, Json>)

  /** JavaScript truthiness of a parsed value: `null`, `false`, `0` and `""`
      are falsy; arrays and objects, even empty ones, are truthy. */
  predicate Truthy(j: Json) {
    match j
    case JNull => false
    case JBool(b) => b
    case JNumber(n) => n != 0.0
    case JString(s) => s != ""
    case JArray(_) => true
    case JObject(_) => true
  }

  /** `j.<key>` for a non-null value: an own field of an object, and
      `undefined` (here `JNull`, which is equally falsy and not an array) for
      every other kind of value, since no JSON prototype carries the field
      names the user interface reads. */
  function Get(j: Json, key: string): (r: Json)
    requires !j.JNull?
    ensures !j.JObject? ==> r == JNull
    ensures j.JObject? && key !in j.fields ==> r == JNull
  {
    if j.JObject? && key in j.fields then j.fields[key] else JNull
  }
}
