/**
 * JavaScript values as they arrive from `response.json()` and as the dashboard
 * inspects them: truthiness, property lookup and `String(v)`.
 * Objects keep their keys in insertion order, as JavaScript objects do.
 */
module Json {
  import Text
  import Objects

  datatype Value =
    | JUndefined
    | JNull
    | JBool(b: bool)
    | JNum(n: int)
    | JStr(s: string)
    | JArr(items: seq<Value>)
    | JObj(fields: seq<(string, Value)>)

  /** JavaScript truthiness: `undefined`, `null`, `false`, `0` and `""` are falsy;
      every array and object, even an empty one, is truthy. */
  predicate Truthy(v: Value) {
    match v
    case JUndefined => false
    case JNull => false
    case JBool(b) => b
    case JNum(n) => n != 0
    case JStr(s) => s != ""
    case JArr(_) => true
    case JObj(_) => true
  }

  /** `v[key]` on a value that is neither `null` nor `undefined`: an object's own
      property, `undefined` for a missing key or for an array or primitive. */
  function Get(v: Value, key: string): (r: Value)
    ensures !v.JObj? ==> r == JUndefined
    ensures v.JObj? && Objects.Find(v.fields, key).None? ==> r == JUndefined
  {
    if v.JObj? then Objects.Find(v.fields, key).GetOr(JUndefined) else JUndefined
  }

  /** `String(v)`: arrays join their elements with "," (null and undefined
      elements become ""), objects print as "[object Object]". */
  function ToJsString(v: Value): (r: string)
    ensures v.JStr? ==> r == v.s
    ensures v.JNum? ==> r == Text.IntToDecimal(v.n)
  {
    match v
    case JUndefined => "undefined"
    case JNull => "null"
    case JBool(b) => if b then "true" else "false"
    case JNum(n) => Text.IntToDecimal(n)
    case JStr(s) => s
    case JArr(items) => JoinElements(items)
    case JObj(_) => "[object Object]"
  }

  function JoinElements(items: seq<Value>): string
    decreases items, 0
  {
    if items == [] then ""
    else
      var head := if items[0].JNull? || items[0].JUndefined? then "" else ToJsString(items[0]);
      if |items| == 1 then head else head + "," + JoinElements(items[1..])
  }
}
