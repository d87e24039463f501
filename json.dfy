/**
  Values produced by `JSON.parse`, as far as the note application inspects them:
  `typeof` tests, `Array.isArray`, property access and truthiness.
*/
module JsonValues {
  import opened Wrappers

  datatype Json =
    | JNull
    | JBool(b: bool)
    | JNumber(n: int)
    | JString(s: string)
    | JArray(items: seq<Json>)
    | JObject(fields: map<string, Json>)

  /** `value.name` on a value that is not `null`: an object's own field, `undefined` for anything else. */
  function Member(j: Json, name: string): (r: Option<Json>)
    ensures r.Some? ==> j.JObject? && name in j.fields && r.value == j.fields[name]
    ensures r.None? <==> !j.JObject? || name !in j.fields
  {
    if j.JObject? && name in j.fields then Some(j.fields[name]) else None
  }

  /** `typeof value.name === 'string'`. */
  predicate IsStringMember(j: Json, name: string) {
    Member(j, name).Some? && Member(j, name).value.JString?
  }

  /** JavaScript truthiness of a parsed value (`null`, `false`, `0` and `""` are falsy). */
  predicate Truthy(j: Json) {
    match j
    case JNull => false
    case JBool(b) => b
    case JNumber(n) => n != 0
    case JString(s) => s != []
    case _ => true
  }
}
