/** Real-number stand-ins for the parts of <cmath> the shape generator uses.
    Coordinates and angles are modelled as mathematical reals; double rounding
    is not modelled. */
module Numeric {

  /** The literal the source defines as M_PI. */
  const PI: real := 3.14159265358979323846
  const TWO_PI: real := 2.0 * PI

  /** The transcendental functions of <cmath>, supplied by the caller.  Only the
      facts collected in Valid() are assumed about them. */
  datatype Math = Math(
    sqrt: real -> real,
    atan2: (real, real) -> real,
    atan: real -> real,
    cos: real -> real,
    sin: real -> real)
  {
    /** sqrt is the non-negative square root on non-negative arguments, cos and
        sin lie on the unit circle, and atan maps into the open interval
        (-pi/2, pi/2) with atan(0) == 0. */
    ghost predicate Valid() {
      && (forall a :: a >= 0.0 ==> sqrt(a) >= 0.0 && sqrt(a) * sqrt(a) == a)
      && (forall a :: cos(a) * cos(a) + sin(a) * sin(a) == 1.0)
      && (forall v :: -PI / 2.0 < atan(v) < PI / 2.0)
      && atan(0.0) == 0.0
    }
  }

  function Abs(v: real): (r: real)
    ensures r >= 0.0 && (r == v || r == -v)
  {
    if v < 0.0 then -v else v
  }

  /** Truncation toward zero, as a C conversion of a quotient to an integer does. */
  function Trunc(q: real): (t: int)
    ensures q >= 0.0 ==> t as real <= q < t as real + 1.0
    ensures q < 0.0 ==> t as real - 1.0 < q <= t as real
  {
    if q >= 0.0 then q.Floor else -((-q).Floor)
  }

  /** std::fmod for a positive divisor: the remainder of x / y carrying the sign of x. */
  function Fmod(x: real, y: real): (r: real)
    requires y > 0.0
    ensures -y < r < y
    ensures x >= 0.0 ==> r >= 0.0
    ensures x < 0.0 ==> r <= 0.0
    ensures 0.0 <= x < y ==> r == x
  {
    var q := x / y;
    var t := Trunc(q);
    QuotientFacts(x, y);
    var f := q - t as real;
    assert -1.0 < f < 1.0;
    FractionTimesPositive(f, y);
    assert 0.0 <= x < y ==> t == 0 && f == q;
    // x - trunc(x / y) * y, written as the fraction of the quotient times y
    f * y
  }

  lemma QuotientFacts(x: real, y: real)
    requires y > 0.0
    ensures x == (x / y) * y
    ensures x >= 0.0 <==> x / y >= 0.0
    ensures 0.0 <= x < y ==> x / y < 1.0
  {
    var q := x / y;
    assert x == q * y;
    if q >= 1.0 {
      assert q * y >= 1.0 * y;
    }
  }

  lemma FractionTimesPositive(f: real, y: real)
    requires -1.0 < f < 1.0 && y > 0.0
    ensures -y < f * y < y
    ensures f >= 0.0 ==> f * y >= 0.0
    ensures f <= 0.0 ==> f * y <= 0.0
  {
  }

  /** normalize_angle_positive: wraps an angle into [0, 2*pi). */
  function NormalizeAnglePositive(angle: real): (r: real)
    ensures 0.0 <= r < TWO_PI
    ensures 0.0 <= angle < TWO_PI ==> r == angle
    ensures IsWholeTurns(r - angle)
  {
    var a := Fmod(angle, TWO_PI);
    var t := Trunc(angle / TWO_PI);
    assert a == angle - t as real * TWO_PI;
    if a < 0.0 then
      assert (a + TWO_PI) - angle == (1 - t) as real * TWO_PI;
      a + TWO_PI
    else
      assert a - angle == (-t) as real * TWO_PI;
      a
  }

  /** d is an integer number of full turns. */
  ghost predicate IsWholeTurns(d: real) {
    (d / TWO_PI).Floor as real == d / TWO_PI
  }

  /** std::pow with a non-negative integer exponent, which is exact on reals;
      pow(t, 0) == 1 for every t, pow(0, 0) included. */
  function Pow(t: real, k: nat): (r: real)
    ensures k == 0 ==> r == 1.0
    ensures t == 0.0 && k > 0 ==> r == 0.0
    ensures t == 1.0 ==> r == 1.0
  {
    if k == 0 then 1.0 else t * Pow(t, k - 1)
  }
}
