/**
 * The part of JavaScript's number semantics that the modelled code depends on:
 * NaN, the two infinities and `undefined` (a missing array slot read as a number).
 * Finite values are exact reals; IEEE rounding and the sign of zero are not modelled.
 */
module Js {
  datatype Num = Fin(v: real) | NaN | PosInf | NegInf | Undefined

  /** `Number.isNaN(x)`: true for NaN only, not for `undefined`. */
  predicate IsNaN(x: Num) { x.NaN? }

  /** `Number.isFinite(x)`. */
  predicate IsFinite(x: Num) { x.Fin? }

  /** Arithmetic reads `undefined` as NaN. */
  function ToNumber(x: Num): Num { if x.Undefined? then NaN else x }

  /** JavaScript truthiness of a number: 0, NaN and undefined are falsy. */
  predicate Truthy(x: Num) {
    match x
    case Fin(v) => v != 0.0
    case PosInf => true
    case NegInf => true
    case _ => false
  }

  /** `a || b` on numbers. */
  function Or(a: Num, b: Num): Num { if Truthy(a) then a else b }

  function Neg(a: Num): Num {
    match ToNumber(a)
    case Fin(v) => Fin(-v)
    case PosInf => NegInf
    case NegInf => PosInf
    case _ => NaN
  }

  /** `a + b`: NaN absorbs, opposite infinities give NaN, otherwise an infinity wins. */
  function Add(a: Num, b: Num): Num {
    var x, y := ToNumber(a), ToNumber(b);
    if x.Fin? && y.Fin? then Fin(x.v + y.v)
    else if x.NaN? || y.NaN? || (x.PosInf? && y.NegInf?) || (x.NegInf? && y.PosInf?) then NaN
    else if x.PosInf? || y.PosInf? then PosInf
    else NegInf
  }

  function Sub(a: Num, b: Num): Num { Add(a, Neg(b)) }

  /** -1, 0 or 1 for the sign of a non-NaN value. */
  function Sign(a: Num): int {
    match a
    case Fin(v) => if v > 0.0 then 1 else if v < 0.0 then -1 else 0
    case PosInf => 1
    case NegInf => -1
    case _ => 0
  }

  function Mul(a: Num, b: Num): Num {
    var x, y := ToNumber(a), ToNumber(b);
    if x.NaN? || y.NaN? then NaN
    else if x.Fin? && y.Fin? then Fin(x.v * y.v)
    else if Sign(x) * Sign(y) == 0 then NaN
    else if Sign(x) * Sign(y) > 0 then PosInf
    else NegInf
  }

  function Div(a: Num, b: Num): Num {
    var x, y := ToNumber(a), ToNumber(b);
    if x.NaN? || y.NaN? then NaN
    else if x.Fin? && y.Fin? then
      (if y.v != 0.0 then Fin(x.v / y.v)
       else if x.v > 0.0 then PosInf
       else if x.v < 0.0 then NegInf
       else NaN)
    else if x.Fin? then Fin(0.0)
    else if y.Fin? then (if Sign(x) * (if y.v < 0.0 then -1 else 1) > 0 then PosInf else NegInf)
    else NaN
  }

  /** `Math.floor`. */
  function Floor(a: Num): Num {
    match ToNumber(a)
    case Fin(v) => Fin(v.Floor as real)
    case other => other
  }

  /** `a > t` for a number and a finite bound: false when a is NaN or undefined. */
  predicate Gt(a: Num, t: real) {
    match a
    case Fin(v) => v > t
    case PosInf => true
    case _ => false
  }

  /** `a < t` for a number and a finite bound. */
  predicate Lt(a: Num, t: real) {
    match a
    case Fin(v) => v < t
    case NegInf => true
    case _ => false
  }

  /** `a >= t`. */
  predicate Ge(a: Num, t: real) {
    match a
    case Fin(v) => v >= t
    case PosInf => true
    case _ => false
  }

  /** `a <= t`. */
  predicate Le(a: Num, t: real) {
    match a
    case Fin(v) => v <= t
    case NegInf => true
    case _ => false
  }

  /** `Math.max(a, b)` for a number and a finite bound. */
  function Max(a: Num, b: real): Num {
    match ToNumber(a)
    case Fin(v) => Fin(if v >= b then v else b)
    case PosInf => PosInf
    case NegInf => Fin(b)
    case _ => NaN
  }

  /** `Math.round` on a finite value: halves round towards +Infinity. */
  function RoundReal(x: real): int {
    (x + 0.5).Floor
  }

  /** `Math.ceil` on a finite value. */
  function CeilReal(x: real): int {
    -((-x).Floor)
  }
}
