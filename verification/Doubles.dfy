/** Double-precision values as far as the model depends on them: exact reals
    with a sign, and the non-finite values. */
module Doubles {
  type Magnitude = r: real | r >= 0.0 witness 0.0

  datatype Double = NaN | Infinite(neg: bool) | Finite(neg: bool, mag: Magnitude) {
    /** The number a finite double denotes; both zeros denote 0. */
    function Value(): real
      requires Finite?
    {
      var m: real := mag;
      if neg then -m else m
    }
  }

  function Of(r: real): (d: Double)
    ensures d.Finite? && d.Value() == r
  {
    if r < 0.0 then Finite(true, -r) else Finite(false, r)
  }

  /** `a < b`; false as soon as one side is NaN. */
  predicate Lt(a: Double, b: Double) {
    match (a, b)
    case (NaN, _) => false
    case (_, NaN) => false
    case (Infinite(n), Infinite(m)) => n && !m
    case (Infinite(n), Finite(_, _)) => n
    case (Finite(_, _), Infinite(m)) => !m
    case (Finite(_, _), Finite(_, _)) => a.Value() < b.Value()
  }

  /** `a >= b`. */
  predicate Ge(a: Double, b: Double) {
    !a.NaN? && !b.NaN? && !Lt(a, b)
  }

  /** `std::max` and `std::min`: the first argument wins unless the comparison says otherwise. */
  function Max(a: Double, b: Double): Double { if Lt(a, b) then b else a }

  function Min(a: Double, b: Double): Double { if Lt(b, a) then b else a }

  /** `a - b`, exact on finite values. */
  function Sub(a: Double, b: Double): Double {
    match (a, b)
    case (NaN, _) => NaN
    case (_, NaN) => NaN
    case (Infinite(n), Infinite(m)) => if n == m then NaN else a
    case (Infinite(_), Finite(_, _)) => a
    case (Finite(_, _), Infinite(m)) => Infinite(!m)
    case (Finite(_, _), Finite(_, _)) => Of(a.Value() - b.Value())
  }

  /** `0.5 * (a + b)`, exact on finite values. */
  function Middle(a: Double, b: Double): Double {
    match (a, b)
    case (NaN, _) => NaN
    case (_, NaN) => NaN
    case (Infinite(n), Infinite(m)) => if n == m then a else NaN
    case (Infinite(_), Finite(_, _)) => a
    case (Finite(_, _), Infinite(_)) => b
    case (Finite(_, _), Finite(_, _)) => Of((a.Value() + b.Value()) / 2.0)
  }
}
