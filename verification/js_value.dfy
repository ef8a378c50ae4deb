/** The loosely typed values a request body, a query result row or a parsed
    spreadsheet cell can hold, with the JavaScript operators the handlers
    apply to them: truthiness (`if (!x)`), `a || b`, `a ?? b` and
    `String(x)`. Numbers are integers here; see the README. */
module JsValue {
  import JsNumber

  datatype JsVal =
    | Undefined
    | Null
    | Bool(b: bool)
    | Num(n: int)
    | Str(s: string)

  /** The values JavaScript treats as true in a condition. */
  predicate Truthy(v: JsVal) {
    match v
    case Undefined => false
    case Null => false
    case Bool(b) => b
    case Num(n) => n != 0
    case Str(s) => s != ""
  }

  predicate IsNullish(v: JsVal) {
    v.Undefined? || v.Null?
  }

  /** `a || b`: the left operand when it is truthy, else the right one. */
  function Or(a: JsVal, b: JsVal): JsVal {
    if Truthy(a) then a else b
  }

  /** `a ?? b`: the left operand unless it is null or undefined. */
  function Coalesce(a: JsVal, b: JsVal): JsVal {
    if IsNullish(a) then b else a
  }

  /** `||` and `??` pick different operands exactly when the left one is
      falsy yet present, which only `false`, `0` and `''` are, and the
      right one differs from it. */
  lemma OrCoalesceDiffer(a: JsVal, b: JsVal)
    ensures Or(a, b) != Coalesce(a, b) <==> !Truthy(a) && !IsNullish(a) && a != b
    ensures !Truthy(a) && !IsNullish(a) <==> a == Bool(false) || a == Num(0) || a == Str("")
  {
  }

  /** `String(v)`. */
  function ToStr(v: JsVal): string {
    match v
    case Undefined => "undefined"
    case Null => "null"
    case Bool(b) => if b then "true" else "false"
    case Num(n) => JsNumber.ShowInt(n)
    case Str(s) => s
  }
}
