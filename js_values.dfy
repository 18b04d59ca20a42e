/**
 * The JavaScript values the envelope builder looks at.  A field of a payload or
 * of an order item is `undefined`, `null` or a string; a plain object is a map
 * from property name to value, and a property that is absent reads as `undefined`.
 */
module JsValues {

  datatype Value = Undefined | Null | Str(s: string)

  type Object = map<string, Value>

  /** `obj[key]`: an absent property reads as `undefined`. */
  function Get(obj: Object, key: string): (v: Value)
    ensures key !in obj ==> v == Undefined
    ensures key in obj ==> v == obj[key]
  {
    if key in obj then obj[key] else Undefined
  }

  /** `v === undefined || v === null`, the test both validators apply. */
  predicate IsNullish(v: Value) {
    v.Undefined? || v.Null?
  }

  /** `String(v ?? "")`: nullish values become the empty string. */
  function ToText(v: Value): (t: string)
    ensures IsNullish(v) ==> t == ""
    ensures v.Str? ==> t == v.s
  {
    match v
    case Str(s) => s
    case _ => ""
  }

  /** JavaScript falsiness of a value: `undefined`, `null` and `""`. */
  predicate IsFalsy(v: Value) {
    IsNullish(v) || v == Str("")
  }
}
