/**
 * The untyped JavaScript values the browser receives from `res.json()` and
 * that the server's validators inspect: just enough of them to decide
 * `typeof`, `in` and property access the way the application does.
 */
module Json {

  /**
   * A JavaScript value. Numbers are taken to be integers; `Object` maps property
   * names to values (property order does not matter to any code modelled here).
   */
  datatype Value =
    | Undefined
    | Null
    | Bool(b: bool)
    | Number(n: int)
    | Str(s: string)
    | Array(items: seq<Value>)
    | Object(fields: map<string, Value>)

  /** `typeof v === "object"`: true of `null`, arrays and plain objects. */
  predicate IsObjectType(v: Value) {
    v.Null? || v.Array? || v.Object?
  }

  /** `key in v` for a value of object type; arrays carry no named property used here. */
  predicate HasProperty(v: Value, key: string) {
    v.Object? && key in v.fields
  }

  /** `v[key]` on a non-null value of object type: `undefined` when the property is absent. */
  function Property(v: Value, key: string): Value {
    if v.Object? && key in v.fields then v.fields[key] else Undefined
  }
}
