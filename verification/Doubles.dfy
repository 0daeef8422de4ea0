/** IEEE doubles as far as the controller can tell them apart: a finite value,
    the two infinities and NaN. Rounding is a parameter, so overflow, underflow
    and precision loss of every kind are covered by quantifying over it. */
module Doubles {

  datatype Double = Finite(value: real) | PosInf | NegInf | NaN

  type Rounding = real -> Double

  /** Rounding with unlimited range and precision. */
  const EXACT: Rounding := (x: real) => Finite(x)

  /** The one property of IEEE rounding the results need: rounding a number
      never yields NaN. */
  ghost predicate RoundsToNumbers(round: Rounding) {
    forall x :: round(x) != NaN
  }

  const ZERO: Double := Finite(0.0)

  predicate Less(a: Double, b: Double) {
    match (a, b)
    case (NaN, _) => false
    case (_, NaN) => false
    case (Finite(x), Finite(y)) => x < y
    case (NegInf, _) => b != NegInf
    case (_, PosInf) => a != PosInf
    case _ => false
  }

  predicate LessEq(a: Double, b: Double) {
    a != NaN && b != NaN && !Less(b, a)
  }

  function Negate(a: Double): Double {
    match a
    case Finite(x) => Finite(-x)
    case PosInf => NegInf
    case NegInf => PosInf
    case NaN => NaN
  }

  function Abs(a: Double): Double {
    match a
    case Finite(x) => Finite(if x < 0.0 then -x else x)
    case NaN => NaN
    case _ => PosInf
  }

  function Add(round: Rounding, a: Double, b: Double): Double {
    match (a, b)
    case (NaN, _) => NaN
    case (_, NaN) => NaN
    case (Finite(x), Finite(y)) => round(x + y)
    case (Finite(_), _) => b
    case (_, Finite(_)) => a
    case _ => if a == b then a else NaN
  }

  function Sub(round: Rounding, a: Double, b: Double): Double {
    Add(round, a, Negate(b))
  }

  /** Product with a finite factor that is greater than zero. */
  function Scale(round: Rounding, factor: real, a: Double): Double
    requires factor > 0.0
  {
    match a
    case Finite(x) => round(factor * x)
    case _ => a
  }

  /** Quotient by a finite divisor that is greater than zero. */
  function Quotient(round: Rounding, a: Double, divisor: real): Double
    requires divisor > 0.0
  {
    match a
    case Finite(x) => round(x / divisor)
    case _ => a
  }

  /** std::max: the first argument unless it is less than the second. */
  function Larger(a: Double, b: Double): Double {
    if Less(a, b) then b else a
  }

  /** std::min of three: the first one that no later one is less than. */
  function SmallestOf(a: Double, b: Double, c: Double): Double {
    var ab := if Less(b, a) then b else a;
    if Less(c, ab) then c else ab
  }

  // ----- the laws of IEEE 754 that the rest relies on -----

  /** Comparisons order the numbers with the infinities at the ends, and any
      comparison with NaN is false (sections 5.11 and 6.2 of IEEE 754). */
  lemma ComparisonsOrderTheNumbers(a: Double, b: Double)
    ensures Less(a, b) <==>
            && a != NaN && b != NaN && a != b
            && (a == NegInf || b == PosInf || (a.Finite? && b.Finite? && a.value < b.value))
    ensures LessEq(a, b) <==> a != NaN && b != NaN && (a == b || Less(a, b))
    ensures a != NaN && b != NaN ==> Less(a, b) || a == b || Less(b, a)
  {
  }

  /** Negation mirrors the order, and the absolute value is never negative. */
  lemma NegationMirrors(a: Double, b: Double)
    ensures Negate(Negate(a)) == a
    ensures Less(a, b) <==> Less(Negate(b), Negate(a))
    ensures Abs(a) == (if Less(a, ZERO) then Negate(a) else a)
  {
  }

  /** Sums of infinities (section 6.1 of IEEE 754) and of finite numbers. */
  lemma SumsOfInfinities(round: Rounding, a: Double, b: Double)
    ensures Add(round, a, b) == Add(round, b, a)
    ensures a.Finite? && b.Finite? ==> Add(round, a, b) == round(a.value + b.value)
    ensures a.Finite? && b.Finite? ==> Sub(round, a, b) == round(a.value - b.value)
    ensures a == PosInf && b != NaN && b != NegInf ==> Add(round, a, b) == PosInf
    ensures a == NegInf && b != NaN && b != PosInf ==> Add(round, a, b) == NegInf
    ensures Add(round, PosInf, NegInf) == NaN && Add(round, a, NaN) == NaN
  {
    if a.Finite? && b.Finite? {
      assert a.value + b.value == b.value + a.value;
    }
  }

  /** A positive finite factor or divisor keeps infinities and NaN. */
  lemma ScalingKeepsInfinities(round: Rounding, factor: real, a: Double)
    requires factor > 0.0
    ensures a.Finite? ==> Scale(round, factor, a) == round(factor * a.value)
    ensures a.Finite? ==> Quotient(round, a, factor) == round(a.value / factor)
    ensures !a.Finite? ==> Scale(round, factor, a) == a && Quotient(round, a, factor) == a
  {
  }

  /** std::max and std::min among numbers; a NaN in front stays, one behind is dropped. */
  lemma ExtremesAmongNumbers(a: Double, b: Double, c: Double)
    ensures Larger(a, b) in {a, b} && !Less(Larger(a, b), a) && !Less(Larger(a, b), b)
    ensures Larger(a, NaN) == a && Larger(NaN, b) == NaN
    ensures a != NaN && b != NaN && c != NaN ==>
              var m := SmallestOf(a, b, c);
              m in {a, b, c} && LessEq(m, a) && LessEq(m, b) && LessEq(m, c)
  {
  }
}
