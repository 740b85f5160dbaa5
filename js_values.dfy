/**
 * Numbers as the JavaScript code sees them when it reads a field of a user document.
 * A missing field reads as `undefined`; finite numbers are modelled exactly by `real`
 * (no floating-point rounding); NaN and the two infinities are kept apart because the
 * source treats them differently (`|| 0`, `isFinite`, `Math.max`).
 */
module JsValues {

  datatype Value = Undefined | Num(x: real) | NaN | PosInf | NegInf

  /** `Number(v)`: `undefined` becomes NaN, every number stays as it is. */
  function ToNumber(v: Value): Value {
    if v == Undefined then NaN else v
  }

  /** JavaScript truthiness of a number: 0, NaN and `undefined` are falsy. */
  predicate Truthy(v: Value) {
    match v
    case Num(x) => x != 0.0
    case PosInf => true
    case NegInf => true
    case _ => false
  }

  /** `v || 0` */
  function OrZero(v: Value): Value {
    if Truthy(v) then v else Num(0.0)
  }

  /** `v > 0` (false for `undefined` and NaN). */
  predicate IsPositive(v: Value) {
    match v
    case Num(x) => x > 0.0
    case PosInf => true
    case _ => false
  }

  /** `v < p` for a finite `p` (false for `undefined` and NaN). */
  predicate LessThan(v: Value, p: real) {
    match v
    case Num(x) => x < p
    case NegInf => true
    case _ => false
  }

  /** `v + d` for a finite `d`. */
  function Plus(v: Value, d: real): Value {
    match v
    case Num(x) => Num(x + d)
    case Undefined => NaN
    case _ => v
  }

  /**
   * The document store's `increment(d)` applied to a stored field: a missing field is
   * set to `d`; a stored number has `d` added to it.
   */
  function Increment(v: Value, d: real): Value {
    match v
    case Num(x) => Num(x + d)
    case Undefined => Num(d)
    case _ => v
  }

  /** `Math.floor(v)` */
  function Floor(v: Value): Value {
    match v
    case Num(x) => Num(x.Floor as real)
    case Undefined => NaN
    case _ => v
  }

  /** `Math.max(0, v)` */
  function MaxZero(v: Value): Value {
    match v
    case Num(x) => if x < 0.0 then Num(0.0) else v
    case NegInf => Num(0.0)
    case Undefined => NaN
    case _ => v
  }

  /** A finite number with no fractional part. */
  predicate IsWhole(x: real) {
    x.Floor as real == x
  }

  /** The text `JSON.stringify` gives a number: NaN and both infinities all become `null`. */
  datatype JsonText = NoText | NumberText(x: real) | NullText

  function Stringify(v: Value): JsonText {
    match v
    case Undefined => NoText
    case Num(x) => NumberText(x)
    case _ => NullText
  }
}
