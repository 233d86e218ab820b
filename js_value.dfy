/**
 * The JavaScript values the relay handles: what `express.json()` and axios
 * hand it after parsing JSON, plus `undefined` for an absent property. JSON
 * numbers are modelled as integers.
 */
module JsValue {

  import Decimal

  datatype Value =
    | Undefined
    | Null
    | Bool(b: bool)
    | Number(n: int)
    | Str(s: string)
    | Arr(items: seq<Value>)
    | Obj(fields: map<string, Value>)

  /** JavaScript's falsy values among these: `undefined`, `null`, `false`, `0` and `''`. */
  predicate Falsy(v: Value) {
    match v
    case Undefined => true
    case Null => true
    case Bool(b) => !b
    case Number(n) => n == 0
    case Str(s) => s == ""
    case Arr(_) => false
    case Obj(_) => false
  }

  predicate Nullish(v: Value) {
    v == Undefined || v == Null
  }

  /**
   * `v.key` for a value that is neither null nor undefined: an own property
   * of an object, and `undefined` for anything else. Only the keys the relay
   * reads (`phone`, `amount`, `access_token`, `errorMessage`) are looked up,
   * and none of them is inherited from a prototype.
   */
  function Property(v: Value, key: string): Value {
    match v
    case Obj(fields) => if key in fields then fields[key] else Undefined
    case _ => Undefined
  }

  /** `v?.key`: optional chaining yields `undefined` on a nullish value instead of throwing. */
  function OptionalProperty(v: Value, key: string): Value {
    if Nullish(v) then Undefined else Property(v, key)
  }

  /** `a || b`: the left operand when it is truthy, the right one otherwise. */
  function Or(a: Value, b: Value): Value {
    if Falsy(a) then b else a
  }

  /**
   * The string a template literal `${v}` produces: `String(v)`. Arrays join
   * their elements with commas, printing null and undefined elements as
   * nothing; plain objects print as `[object Object]`.
   */
  function TemplateString(v: Value): string {
    match v
    case Undefined => "undefined"
    case Null => "null"
    case Bool(b) => if b then "true" else "false"
    case Number(n) => Decimal.IntString(n)
    case Str(s) => s
    case Arr(items) =>
      Join(seq(|items|, i requires 0 <= i < |items| =>
        if Nullish(items[i]) then "" else TemplateString(items[i])))
    case Obj(_) => "[object Object]"
  }

  function Join(parts: seq<string>): string {
    if |parts| == 0 then ""
    else if |parts| == 1 then parts[0]
    else parts[0] + "," + Join(parts[1..])
  }
}
