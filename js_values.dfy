/** The values a parsed JSON request body can hold, with the JavaScript
    conversions the handlers apply to them. */
module JsValues {

  /** One field of a request body. `Undefined` is a field the body leaves out;
      `Composite` is any array or object (truthy, of type "object"). A JSON
      text cannot hold NaN or an infinity, so a number is a `real`. */
  datatype Json = Undefined | Null | Bool(b: bool) | Num(n: real) | Str(s: string) | Composite

  /** JavaScript truthiness: undefined, null, false, 0 and "" are falsy. */
  predicate Truthy(v: Json) {
    match v
    case Undefined => false
    case Null => false
    case Bool(b) => b
    case Num(n) => n != 0.0
    case Str(s) => s != ""
    case Composite => true
  }

  /** Number.isInteger: a number with no fractional part. */
  predicate IsInteger(v: Json) {
    v.Num? && v.n.Floor as real == v.n
  }
}
