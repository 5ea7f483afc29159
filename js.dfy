/**
 * JavaScript values as the client code handles them: what `JSON.parse`
 * returns, `undefined`, and the few operators the client applies to
 * untyped values (truthiness, `typeof`, property access, `??`, `String`).
 *
 * Numbers are integers in this model (see README, "Left out").
 */
module Js {
  import opened Text

  datatype JsValue =
    | JUndefined
    | JNull
    | JBool(b: bool)
    | JNum(n: int)
    | JStr(s: string)
    | JArr(items: seq<JsValue>)
    | JObj(props: map<string, JsValue>)

  /** `Boolean(v)`: false exactly for undefined, null, false, 0 and "". */
  predicate Truthy(v: JsValue)
  {
    match v
    case JUndefined => false
    case JNull => false
    case JBool(b) => b
    case JNum(n) => n != 0
    case JStr(s) => s != ""
    case _ => true
  }

  /** `typeof v === "object"`, which holds of `null` and of arrays too. */
  predicate IsObjectType(v: JsValue) { v.JNull? || v.JArr? || v.JObj? }

  /** `v == null`: null or undefined. */
  predicate IsNullish(v: JsValue) { v.JUndefined? || v.JNull? }

  /**
   * `v?.[key]`: an object's own property, `undefined` when it has none.
   * Arrays and primitives carry none of the property names the client
   * reads, and optional chaining turns a read on null or undefined into
   * `undefined`.
   */
  function Get(v: JsValue, key: string): JsValue
  {
    if v.JObj? && key in v.props then v.props[key] else JUndefined
  }

  /** `Array.isArray(v) ? v[i] : undefined`. */
  function Index(v: JsValue, i: nat): JsValue
  {
    if v.JArr? && i < |v.items| then v.items[i] else JUndefined
  }

  /** `a ?? b`. */
  function Coalesce(a: JsValue, b: JsValue): (r: JsValue)
    ensures !IsNullish(a) ==> r == a
    ensures IsNullish(a) ==> r == b
  {
    if IsNullish(a) then b else a
  }

  /**
   * `String(v)`. An array prints its elements joined by ",", with null and
   * undefined elements printed as empty strings.
   */
  function ToJsString(v: JsValue): string
    decreases v
  {
    match v
    case JUndefined => "undefined"
    case JNull => "null"
    case JBool(b) => if b then "true" else "false"
    case JNum(n) => IntToString(n)
    case JStr(s) => s
    case JArr(items) =>
      Join(seq(|items|, i requires 0 <= i < |items| =>
        if IsNullish(items[i]) then "" else ToJsString(items[i])), ",")
    case JObj(_) => "[object Object]"
  }
}
