/**
  `round(x, 1)` applied to a `numpy.float64`, on exact reals: numpy scales
  by 10, rounds half to even and scales back, so the result is the multiple
  of 0.1 closest to `x`, and of two equally close multiples the even one.
  The binary representation of floats is not modelled.
 */
module Rounding {

  function Abs(x: real): (r: real)
    ensures r >= 0.0 && (r == x || r == -x)
  {
    if x < 0.0 then -x else x
  }

  /** The integer nearest to `y`; an exact tie goes to the even neighbour. */
  function RoundHalfEven(y: real): (k: int)
    ensures Abs(k as real - y) <= 0.5
    ensures Abs(k as real - y) == 0.5 ==> k % 2 == 0
  {
    var f := y.Floor;
    var d := y - f as real;
    if d < 0.5 then f
    else if d > 0.5 then f + 1
    else if f % 2 == 0 then f
    else f + 1
  }

  /** No integer is closer to `y` than `RoundHalfEven(y)`. */
  lemma RoundHalfEvenIsNearest(y: real, j: int)
    ensures Abs(RoundHalfEven(y) as real - y) <= Abs(j as real - y)
  {
    var f := y.Floor;
    if j <= f {
      assert y - j as real >= y - f as real;
    } else {
      assert j as real - y >= (f + 1) as real - y;
    }
  }

  /** `r` is a whole number of tenths. */
  predicate IsTenth(r: real) {
    (r * 10.0).Floor as real == r * 10.0
  }

  /** `round(x, 1)`: a whole number of tenths within a twentieth of `x`, an
      even number of tenths on an exact tie. */
  function RoundTenth(x: real): (r: real)
    ensures IsTenth(r)
    ensures -0.05 <= r - x <= 0.05
    ensures Abs(r - x) == 0.05 ==> (r * 10.0).Floor % 2 == 0
  {
    var k := RoundHalfEven(x * 10.0);
    assert (k as real / 10.0) * 10.0 == k as real;
    k as real / 10.0
  }

  /** No whole number of tenths is closer to `x` than `RoundTenth(x)`. */
  lemma RoundTenthIsNearest(x: real, j: int)
    ensures Abs(RoundTenth(x) - x) <= Abs(j as real / 10.0 - x)
  {
    var k := RoundHalfEven(x * 10.0);
    RoundHalfEvenIsNearest(x * 10.0, j);
    assert Abs(k as real / 10.0 - x) * 10.0 == Abs(k as real - x * 10.0);
    assert Abs(j as real / 10.0 - x) * 10.0 == Abs(j as real - x * 10.0);
  }

  /** Exact ties go to the even tenth: 0.25 rounds down to 0.2 and 0.75 up
      to 0.8. */
  lemma RoundTenthTiesToEven()
    ensures RoundTenth(0.25) == 0.2 && RoundTenth(0.75) == 0.8
  {
    assert RoundHalfEven(2.5) == 2;
    assert RoundHalfEven(7.5) == 8;
  }

  /** Rounding a non-negative value gives a non-negative value. */
  lemma RoundTenthNonNegative(x: real)
    ensures x >= 0.0 ==> RoundTenth(x) >= 0.0
  {
  }
}
