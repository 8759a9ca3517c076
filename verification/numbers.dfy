/** JavaScript numbers, abstracted as extended reals.

    Every finite value is an exact `real` (no rounding, no signed zero); the two
    infinities and NaN are kept because the tilt code divides by element sizes and
    by `2 * max`, which may be zero, and `Math.min`/`Math.max` then clamp or
    propagate the result. */
module Numbers {

  datatype Num = Fin(v: real) | PosInf | NegInf | NaN

  /** The sign of a non-NaN number: -1, 0 or 1. */
  function SignOf(a: Num): int
    requires !a.NaN?
  {
    match a
    case Fin(x) => if x > 0.0 then 1 else if x < 0.0 then -1 else 0
    case PosInf => 1
    case NegInf => -1
  }

  /** The infinity carrying sign `s`. */
  function Infinity(s: int): (r: Num)
    requires s != 0
    ensures !r.Fin? && !r.NaN? && SignOf(r) == (if s > 0 then 1 else -1)
  {
    if s > 0 then PosInf else NegInf
  }

  /** Unary minus. */
  function Neg(a: Num): (r: Num)
    ensures a.Fin? <==> r.Fin?
    ensures a.NaN? <==> r.NaN?
    ensures a.Fin? ==> r.v == -a.v
    ensures !a.NaN? ==> SignOf(r) == -SignOf(a)
  {
    match a
    case Fin(x) => Fin(-x)
    case PosInf => NegInf
    case NegInf => PosInf
    case NaN => NaN
  }

  /** `a + b`: opposite infinities give NaN, an infinity absorbs any finite value. */
  function Add(a: Num, b: Num): (r: Num)
    ensures a.Fin? && b.Fin? ==> r == Fin(a.v + b.v)
    ensures a.NaN? || b.NaN? ==> r.NaN?
    ensures a == PosInf && b != NegInf && !b.NaN? ==> r == PosInf
    ensures a == NegInf && b != PosInf && !b.NaN? ==> r == NegInf
  {
    match (a, b)
    case (NaN, _) => NaN
    case (_, NaN) => NaN
    case (PosInf, NegInf) => NaN
    case (NegInf, PosInf) => NaN
    case (PosInf, _) => PosInf
    case (NegInf, _) => NegInf
    case (_, PosInf) => PosInf
    case (_, NegInf) => NegInf
    case (Fin(x), Fin(y)) => Fin(x + y)
  }

  /** `a - b`. */
  function Sub(a: Num, b: Num): (r: Num)
    ensures a.Fin? && b.Fin? ==> r == Fin(a.v - b.v)
    ensures a.NaN? || b.NaN? ==> r.NaN?
  {
    Add(a, Neg(b))
  }

  /** `a * b`: zero times an infinity is NaN, otherwise signs multiply. */
  function Mul(a: Num, b: Num): (r: Num)
    ensures a.Fin? && b.Fin? ==> r == Fin(a.v * b.v)
    ensures a.NaN? || b.NaN? ==> r.NaN?
    ensures (a.Fin? && a.v == 0.0 && !b.Fin?) || (b.Fin? && b.v == 0.0 && !a.Fin?) ==> r.NaN?
  {
    if a.NaN? || b.NaN? then NaN
    else if a.Fin? && b.Fin? then Fin(a.v * b.v)
    else if SignOf(a) == 0 || SignOf(b) == 0 then NaN
    else Infinity(SignOf(a) * SignOf(b))
  }

  /** `a / b`, with the divisor zero taken as +0 (the only zero a size or a doubled
      non-negative maximum produces). */
  function Div(a: Num, b: Num): (r: Num)
    ensures a.Fin? && b.Fin? && b.v != 0.0 ==> r == Fin(a.v / b.v)
    ensures a.NaN? || b.NaN? ==> r.NaN?
    ensures a.Fin? && b.Fin? && b.v == 0.0 ==>
              (a.v > 0.0 ==> r == PosInf) && (a.v < 0.0 ==> r == NegInf) && (a.v == 0.0 ==> r.NaN?)
    ensures a.Fin? && !b.Fin? && !b.NaN? ==> r == Fin(0.0)
  {
    if a.NaN? || b.NaN? then NaN
    else if !a.Fin? && !b.Fin? then NaN
    else if !b.Fin? then Fin(0.0)
    else if b.v == 0.0 then (if SignOf(a) == 0 then NaN else Infinity(SignOf(a)))
    else if a.Fin? then Fin(a.v / b.v)
    else Infinity(SignOf(a) * SignOf(b))
  }

  /** The order of non-NaN numbers. */
  predicate AtMost(a: Num, b: Num)
    requires !a.NaN? && !b.NaN?
  {
    a == NegInf || b == PosInf || (a.Fin? && b.Fin? && a.v <= b.v)
  }

  /** `Math.max(a, b)`: NaN if either argument is NaN. */
  function Max(a: Num, b: Num): (r: Num)
    ensures a.NaN? || b.NaN? ==> r.NaN?
    ensures !a.NaN? && !b.NaN? ==> (r == a || r == b) && AtMost(a, r) && AtMost(b, r)
  {
    if a.NaN? || b.NaN? then NaN else if AtMost(a, b) then b else a
  }

  /** `Math.min(a, b)`: NaN if either argument is NaN. */
  function Min(a: Num, b: Num): (r: Num)
    ensures a.NaN? || b.NaN? ==> r.NaN?
    ensures !a.NaN? && !b.NaN? ==> (r == a || r == b) && AtMost(r, a) && AtMost(r, b)
  {
    if a.NaN? || b.NaN? then NaN else if AtMost(a, b) then a else b
  }

  /** `Math.min(Math.max(a, 0), 1)`: every number except NaN lands in the unit
      interval, values already inside it are kept, and the two sides saturate. */
  function Clamp01(a: Num): (r: Num)
    ensures a.NaN? <==> r.NaN?
    ensures !r.NaN? ==> r.Fin? && 0.0 <= r.v <= 1.0
    ensures a.Fin? && 0.0 <= a.v <= 1.0 ==> r == a
    ensures (a.Fin? && a.v < 0.0) || a == NegInf ==> r == Fin(0.0)
    ensures (a.Fin? && a.v > 1.0) || a == PosInf ==> r == Fin(1.0)
  {
    Min(Max(a, Fin(0.0)), Fin(1.0))
  }
}
