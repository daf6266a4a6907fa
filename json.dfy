/**
 * The JSON values a request body field can hold, with the two JavaScript
 * operators the handlers apply to them: truthiness (`!x`) and `x ?? d`.
 * A field that is absent from the body (`undefined`) is `None`.
 */
module Json {
  import opened Wrappers

  datatype Value = Null | Bool(b: bool) | Num(n: real) | Str(s: string) | Compound

  /** `!!v` in JavaScript: `null`, `false`, `0` and `""` are falsy; objects and arrays are truthy. */
  predicate Truthy(v: Value) {
    match v
    case Null => false
    case Bool(b) => b
    case Num(n) => n != 0.0
    case Str(s) => s != ""
    case Compound => true
  }

  /** `!!field` for a field that may be absent. */
  predicate FieldTruthy(field: Option<Value>) {
    field.Some? && Truthy(field.value)
  }

  /** `field ?? d`: the default replaces `undefined` and `null` only. */
  function Coalesce(field: Option<Value>, d: Value): Value {
    if field.Some? && !field.value.Null? then field.value else d
  }

  /** A string-typed optional field (`"" || null` style defaulting happens at the caller). */
  function StrOrNone(field: Option<Value>): Option<string> {
    if field.Some? && field.value.Str? then Some(field.value.s) else None
  }
}
