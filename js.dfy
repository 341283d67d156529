/** Small value vocabulary shared by both rules and the reporting adapter:
    optional values, results, and the values a JavaScript literal can carry. */
module Js {

  datatype Option<+T> = None | Some(value: T)

  datatype Result<+T, +E> = Ok(value: T) | Err(error: E)

  /** The `value` of a `Literal` node. Numbers are modelled as reals; the
      non-finite values (NaN, Infinity) cannot be written as one literal. */
  datatype JsValue =
    | Num(n: real)
    | Str(s: string)
    | Bool(b: bool)
    | Null
    | BigInt(digits: string)
    | Regex(pattern: string)

  /** `typeof value === "number"` */
  predicate IsNumber(v: JsValue) {
    v.Num?
  }
}
