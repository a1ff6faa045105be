/** The two Foundation value types the statistics store handles: `Date` and `Double`. */
module Foundation {

  /** `Int(v)` for a finite double: the integer part, rounding toward zero. */
  function Truncate(v: real): (n: int)
    ensures 0.0 <= v ==> n as real <= v < n as real + 1.0
    ensures v < 0.0 ==> n as real - 1.0 < v <= n as real
  {
    if v >= 0.0 then v.Floor else -((-v).Floor)
  }

  /** A point in time. Only equality matters to the model, so it is an opaque instant. */
  datatype Date = Date(instant: int)

  /** A Swift `Double` as the statistics code can produce it: an exact real for a finite
      value, or one of the special values an integer division by zero yields.
      Rounding of finite values is not modelled. */
  datatype Double = Finite(value: real) | PositiveInfinity | NegativeInfinity | NaN

  /** `Double(num) / Double(den)` under IEEE 754: exact when the divisor is non-zero,
      otherwise an infinity signed like the dividend, or NaN for 0/0. */
  function Quotient(num: int, den: int): (r: Double)
    ensures den != 0 ==> r == Finite(num as real / den as real)
    ensures den == 0 ==> (r == PositiveInfinity <==> num > 0)
    ensures den == 0 ==> (r == NegativeInfinity <==> num < 0)
    ensures den == 0 ==> (r == NaN <==> num == 0)
  {
    if den != 0 then Finite(num as real / den as real)
    else if num > 0 then PositiveInfinity
    else if num < 0 then NegativeInfinity
    else NaN
  }

  /** `d * 100.0`: scales a finite value and leaves the special values as they are. */
  function TimesHundred(d: Double): (r: Double)
    ensures r.Finite? <==> d.Finite?
    ensures d.Finite? ==> r.value == d.value * 100.0
  {
    match d
    case Finite(v) => Finite(v * 100.0)
    case _ => d
  }

  /** A finite quotient undoes the division: multiplied back by the divisor it gives the
      dividend. */
  lemma QuotientInverts(num: int, den: int)
    requires den != 0
    ensures Quotient(num, den).value * den as real == num as real
  {
  }

  /** `Double(num) / Double(den) * 100.0`, the accuracy formula of the statistics store:
      exact for a non-zero divisor; a division by zero keeps its infinity or NaN. */
  function Percentage(num: int, den: int): (r: Double)
    ensures den != 0 ==> r == Finite(num as real / den as real * 100.0)
    ensures den == 0 ==> r == Quotient(num, den)
  {
    TimesHundred(Quotient(num, den))
  }

  /** Nothing out of a non-zero whole is exactly 0%. */
  lemma PercentageOfNothing(den: int)
    requires den != 0
    ensures Percentage(0, den) == Finite(0.0)
  {
    assert 0 as real / den as real == 0.0;
  }

  /** A share of a positive whole is a finite percentage between 0 and 100. */
  lemma PercentageBounds(num: int, den: int)
    requires 0 <= num <= den
    requires den > 0
    ensures Percentage(num, den).Finite?
    ensures 0.0 <= Percentage(num, den).value <= 100.0
  {
    var q := num as real / den as real;
    assert q * den as real == num as real;
    assert (1.0 - q) * den as real == (den - num) as real;
  }
}
