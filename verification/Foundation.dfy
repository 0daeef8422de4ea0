/** Vocabulary shared by every other module: optional values, results with an
    error, and the real-number arithmetic of the plant model. */
module Foundation {

  datatype Option<+T> = None | Some(value: T)

  datatype Result<+T, +E> = Success(value: T) | Failure(error: E) {
    predicate IsFailure() {
      Failure?
    }

    function PropagateFailure<U>(): Result<U, E>
      requires Failure?
    {
      Failure(error)
    }

    function Extract(): T
      requires Success?
    {
      value
    }
  }

  /** A check that carries no value: it either passes or names the violation. */
  datatype Check<+E> = Pass | Fail(error: E) {
    predicate IsFailure() {
      Fail?
    }

    function PropagateFailure<U>(): Result<U, E>
      requires Fail?
    {
      Failure(error)
    }
  }

  function Min(a: real, b: real): real {
    if b < a then b else a
  }

  function Max(a: real, b: real): real {
    if b > a then b else a
  }

  function Abs(a: real): real {
    if a < 0.0 then -a else a
  }

  /** The energy of a constant power over an interval. */
  function Energy(power: real, hours: real): real {
    power * hours
  }

  lemma EnergyNotNegative(power: real, hours: real)
    requires power >= 0.0 && hours >= 0.0
    ensures Energy(power, hours) >= 0.0
  {
  }

  lemma EnergyOverTime(power: real, hours: real, moreHours: real)
    ensures Energy(power, hours + moreHours) == Energy(power, hours) + Energy(power, moreHours)
  {
  }

  function Init<T>(s: seq<T>): seq<T>
    requires s != []
  {
    s[..|s| - 1]
  }

  function Last<T>(s: seq<T>): T
    requires s != []
  {
    s[|s| - 1]
  }

  lemma ProductNonNegative(a: real, b: real)
    requires a >= 0.0 && b >= 0.0
    ensures a * b >= 0.0
  {
  }

  lemma EnergyMonotone(a: real, b: real, h: real)
    requires a <= b && h >= 0.0
    ensures Energy(a, h) <= Energy(b, h)
  {
    ProductNonNegative(b - a, h);
    assert (b - a) * h == b * h - a * h;
  }

  /** Dividing an energy by the interval and multiplying it back is exact. */
  lemma RateTimesHours(energy: real, h: real)
    requires h > 0.0
    ensures Energy(energy / h, h) == energy
  {
  }

  /** The minimum of two powers, times the interval, is the minimum of the energies. */
  lemma MinTimesHours(a: real, b: real, h: real)
    requires h > 0.0
    ensures Energy(Min(a, b), h) == Min(Energy(a, h), Energy(b, h))
  {
    if a <= b {
      EnergyMonotone(a, b, h);
    } else {
      EnergyMonotone(b, a, h);
    }
  }

  lemma InitOfSnoc<T>(s: seq<T>, x: T)
    ensures Init(s + [x]) == s && Last(s + [x]) == x
  {
  }
}
