/** `clamp` and `inRange` over inclusive numeric bounds. Numbers are reals:
    NaN, the infinities and -0 are outside this model. */
module NumberClamp {
  import opened JsValues

  const BoundsOrderMessage := "Lower bound must be less than or equal to upper bound"

  /** `Math.max` on two numbers. */
  function Max(a: real, b: real): (m: real)
    ensures m >= a && m >= b && (m == a || m == b)
  {
    if a >= b then a else b
  }

  /** `Math.min` on two numbers. */
  function Min(a: real, b: real): (m: real)
    ensures m <= a && m <= b && (m == a || m == b)
  {
    if a <= b then a else b
  }

  /** `clamp(number, lower, upper)`: throws when the bounds are out of order,
      otherwise `Math.min(Math.max(number, lower), upper)`. */
  function Clamp(number: real, lower: real, upper: real): (r: Result<real>)
    ensures r.Thrown? <==> lower > upper
    ensures r.Thrown? ==> r.message == BoundsOrderMessage
    ensures r.Ok? ==> lower <= r.value <= upper
    ensures r.Ok? && lower <= number <= upper ==> r.value == number
    ensures r.Ok? && number < lower ==> r.value == lower
    ensures r.Ok? && number > upper ==> r.value == upper
  {
    if lower > upper then Thrown(BoundsOrderMessage)
    else Ok(Min(Max(number, lower), upper))
  }

  /** `inRange(number, lower, upper)`: throws when the bounds are out of order,
      otherwise tests inclusive membership. */
  function InRange(number: real, lower: real, upper: real): (r: Result<bool>)
    ensures r.Thrown? <==> lower > upper
    ensures r.Thrown? ==> r.message == BoundsOrderMessage
  {
    if lower > upper then Thrown(BoundsOrderMessage)
    else Ok(number >= lower && number <= upper)
  }

  /** Clamping a clamped value changes nothing. */
  lemma ClampIdempotent(number: real, lower: real, upper: real)
    requires lower <= upper
    ensures Clamp(Clamp(number, lower, upper).value, lower, upper) == Clamp(number, lower, upper)
  {
  }

  /** `inRange` holds exactly for the numbers `clamp` leaves unchanged, which
      are exactly those between the bounds. */
  lemma InRangeIffClampFixes(number: real, lower: real, upper: real)
    ensures InRange(number, lower, upper).Ok? == Clamp(number, lower, upper).Ok?
    ensures lower <= upper ==>
              (InRange(number, lower, upper).value <==> Clamp(number, lower, upper).value == number)
    ensures lower <= upper ==>
              (InRange(number, lower, upper).value <==> lower <= number <= upper)
  {
  }

  /** Clamping is monotone: a larger input never yields a smaller result. */
  lemma ClampMonotone(a: real, b: real, lower: real, upper: real)
    requires lower <= upper && a <= b
    ensures Clamp(a, lower, upper).value <= Clamp(b, lower, upper).value
  {
  }

  /** `clamp(15, 0, 10)` is 10. */
  lemma ClampExample()
    ensures Clamp(15.0, 0.0, 10.0) == Ok(10.0)
  {
  }
}
