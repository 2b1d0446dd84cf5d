/** The values `JSON.parse` produces, and the JavaScript truthiness the core
    tests them with. Object field order is not kept. */
module Json {

  import opened Wrappers

  datatype Json =
    | JNull
    | JBool(b: bool)
    | JNum(n: real)
    | JStr(s: string)
    | JArr(items: seq<Json>)
    | JObj(fields: map<string, Json>)

  /** `obj.name` on a value that is not null: an object's field, and
      `undefined` (`None`) for a missing field or a non-object. */
  function Get(v: Json, name: string): (r: Option<Json>)
    requires !v.JNull?
    ensures r.Some? <==> v.JObj? && name in v.fields
  {
    if v.JObj? && name in v.fields then Some(v.fields[name]) else None
  }

  /** Truthiness of a property value: `undefined`, `null`, `false`, `0` and
      `""` are falsy; every array and object is truthy, even an empty one. */
  predicate Truthy(v: Option<Json>)
  {
    match v
    case None => false
    case Some(JNull) => false
    case Some(JBool(b)) => b
    case Some(JNum(n)) => n != 0.0
    case Some(JStr(s)) => s != ""
    case Some(JArr(_)) => true
    case Some(JObj(_)) => true
  }
}
