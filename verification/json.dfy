/** The value `json_decode` returns (objects as PHP `stdClass`, not arrays),
    and the three PHP operations the token check applies to it: truthiness,
    `isset($value->name)` and `$value < $int`. */
module Json {
  import opened Php

  /** A decoded JSON document; `json_decode` yields `JNull` for malformed input. */
  datatype Json =
    | JNull
    | JBool(b: bool)
    | JInt(i: int)
    | JString(s: string)
    | JArray(items: seq<Json>)
    | JObject(fields: map<string, Json>)

  /** PHP truthiness: objects are always truthy, arrays when non-empty. */
  predicate Truthy(j: Json)
    ensures Truthy(j) <==>
              !(|| j == JNull || j == JBool(false) || j == JInt(0)
                || j == JString("") || j == JString("0") || j == JArray([]))
  {
    match j
    case JNull => false
    case JBool(b) => b
    case JInt(i) => i != 0
    case JString(s) => StringTruthy(s)
    case JArray(items) => |items| > 0
    case JObject(_) => true
  }

  /** `$value->name`: only objects have properties; anything else reads as absent. */
  function Property(j: Json, name: string): Option<Json>
  {
    if j.JObject? && name in j.fields then Some(j.fields[name]) else None
  }

  /** `isset($value->name)`: the property exists and is not null. */
  predicate Isset(j: Json, name: string)
  {
    Property(j, name).Some? && Property(j, name).value != JNull
  }

  /** PHP `$x < $n` for an integer `n`. Integers compare numerically; the loose
      comparison of any other JSON value with an integer is given as `looseLess`. */
  predicate LessThan(x: Json, n: int, looseLess: (Json, int) -> bool)
    ensures x.JInt? && x.i < n ==> LessThan(x, n, looseLess)
    ensures x.JInt? && x.i >= n ==> !LessThan(x, n, looseLess)
  {
    if x.JInt? then x.i < n else looseLess(x, n)
  }

  /** `isset` implies the value is an object carrying that property. */
  lemma IssetOnlyOnObjects(j: Json, name: string)
    requires Isset(j, name)
    ensures j.JObject? && name in j.fields && j.fields[name] != JNull
    ensures Truthy(j)
  {
  }
}
