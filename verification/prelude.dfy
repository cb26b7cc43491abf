/** Small datatypes shared by every module of the model. */
module Prelude {
  import Decimal

  /** A value that may be absent: an absent JSON field, a failed parse, a missing
      environment variable. */
  datatype Option<+T> = None | Some(value: T)

  /** A JSON scalar as it arrives in a request body. Arrays and objects are
      collapsed into `Composite`; numbers are integers. */
  datatype JsonValue =
    | Null
    | Bool(b: bool)
    | Number(n: int)
    | Str(s: string)
    | Composite

  /** JavaScript truthiness of an optional string field: absent and "" are falsy. */
  predicate Truthy(field: Option<string>)
  {
    field.Some? && field.value != ""
  }

  /** A template literal's rendering of an optional string: an absent value
      prints as "undefined". */
  function Interpolate(v: Option<string>): (r: string)
    ensures v.Some? ==> r == v.value
    ensures v.None? ==> r == "undefined"
  {
    match v
    case None => "undefined"
    case Some(text) => text
  }

  /** A template literal's rendering of an optional JSON value: absent prints
      as "undefined", `null` as "null", a boolean or an integer as its literal,
      a string as itself, and an object as "[object Object]". */
  function TemplateText(v: Option<JsonValue>): string
  {
    match v
    case None => "undefined"
    case Some(Null) => "null"
    case Some(Bool(b)) => if b then "true" else "false"
    case Some(Number(n)) => if n < 0 then "-" + Decimal.NatToDecimal(-n) else Decimal.NatToDecimal(n)
    case Some(Str(text)) => text
    case Some(Composite) => "[object Object]"
  }
}
