/** The parts of java.lang (and of the Android platform) that the step-navigation
    core relies on, stated over Dafny's `real`, which idealises IEEE doubles.

    - `JavaRem` is Java's `%` on doubles: it truncates the quotient toward zero,
      so the remainder takes the sign of the dividend.
    - `PI` is the exact value of the double `Math.PI`.
    - Square roots are never computed: every comparison the source makes against
      a square root is made against a square instead, and `RootExceeds` shows the
      two comparisons agree.
    - Trigonometry and the platform's sensor fusion are oracles passed in as
      function values. */
module JavaMath {

  /** A Java reference that may be null, or a double that may be NaN. */
  datatype Option<T> = None | Some(value: T)

  /** The double closest to pi, which is what `Math.PI` holds: 884279719003555 / 2^48. */
  const PI: real := 884279719003555.0 / 281474976710656.0

  /** The trigonometric functions of java.lang.Math, left uninterpreted. */
  datatype Trig = Trig(sin: real -> real, cos: real -> real, atan2: (real, real) -> real)

  predicate IsInteger(x: real) {
    x.Floor as real == x
  }

  /** The integer part of `x`, rounding toward zero. */
  function Trunc(x: real): (t: int)
    ensures x >= 0.0 ==> t as real <= x < t as real + 1.0
    ensures x < 0.0 ==> t as real - 1.0 < x <= t as real
  {
    if x >= 0.0 then x.Floor else -((-x).Floor)
  }

  /** Java's `x % m` for doubles with a positive divisor: the dividend minus
      the divisor times the quotient truncated toward zero, so the remainder
      differs from the dividend by a whole multiple of the divisor. */
  function JavaRem(x: real, m: real): (r: real)
    requires m > 0.0
    ensures IsInteger((x - r) / m)
  {
    var t := Trunc(x / m) as real;
    var r := x - t * m;
    assert (x - r) / m == t;
    r
  }

  lemma MulStrict(a: real, b: real, m: real)
    requires a < b && m > 0.0
    ensures a * m < b * m
  {
    assert b * m - a * m == (b - a) * m;
  }

  lemma MulMonotone(a: real, b: real, m: real)
    requires a <= b && m >= 0.0
    ensures a * m <= b * m
  {
    if a < b && m > 0.0 {
      MulStrict(a, b, m);
    }
  }

  lemma DivStrict(a: real, b: real, m: real)
    requires a < b && m > 0.0
    ensures a / m < b / m
  {
    assert b / m - a / m == (b - a) / m;
  }

  lemma QuotientSign(x: real, m: real)
    requires m > 0.0
    ensures x >= 0.0 ==> x / m >= 0.0
    ensures x <= 0.0 ==> x / m <= 0.0
  {
    if x > 0.0 { DivStrict(0.0, x, m); }
    if x < 0.0 { DivStrict(x, 0.0, m); }
  }

  lemma FractionSign(q: real)
    ensures q >= 0.0 ==> 0.0 <= q - Trunc(q) as real < 1.0
    ensures q <= 0.0 ==> -1.0 < q - Trunc(q) as real <= 0.0
  {
    if q == 0.0 { assert Trunc(q) == 0; }
  }

  /** Java's remainder written as the fractional part of the quotient, scaled. */
  lemma JavaRemAsFraction(x: real, m: real)
    requires m > 0.0
    ensures JavaRem(x, m) == (x / m - Trunc(x / m) as real) * m
  {
    var q := x / m;
    var t := Trunc(q) as real;
    assert q * m == x;
    assert (q - t) * m == q * m - t * m;
  }

  lemma JavaRemNonNegative(x: real, m: real)
    requires m > 0.0 && x >= 0.0
    ensures 0.0 <= JavaRem(x, m) < m
  {
    var q := x / m;
    var f := q - Trunc(q) as real;
    var r := JavaRem(x, m);
    JavaRemAsFraction(x, m);
    assert r == f * m;
    QuotientSign(x, m);
    FractionSign(q);
    assert 0.0 <= f < 1.0;
    MulStrict(f, 1.0, m);
    MulMonotone(0.0, f, m);
  }

  lemma JavaRemNonPositive(x: real, m: real)
    requires m > 0.0 && x <= 0.0
    ensures -m < JavaRem(x, m) <= 0.0
  {
    var q := x / m;
    var f := q - Trunc(q) as real;
    var r := JavaRem(x, m);
    JavaRemAsFraction(x, m);
    assert r == f * m;
    QuotientSign(x, m);
    FractionSign(q);
    assert -1.0 < f <= 0.0;
    MulStrict(-1.0, f, m);
    MulMonotone(f, 0.0, m);
  }

  /** The remainder has the sign of the dividend and is smaller than the divisor. */
  lemma JavaRemBounds(x: real, m: real)
    requires m > 0.0
    ensures x >= 0.0 ==> 0.0 <= JavaRem(x, m) < m
    ensures x <= 0.0 ==> -m < JavaRem(x, m) <= 0.0
  {
    if x >= 0.0 { JavaRemNonNegative(x, m); }
    if x <= 0.0 { JavaRemNonPositive(x, m); }
  }

  /** A dividend already strictly inside (-m, m) is returned unchanged. */
  lemma JavaRemSmall(x: real, m: real)
    requires m > 0.0 && -m < x < m
    ensures JavaRem(x, m) == x
  {
    DivStrict(x, m, m);
    DivStrict(-m, x, m);
    assert -1.0 < x / m < 1.0;
    assert Trunc(x / m) == 0;
  }

  /** The remainder is zero exactly on the multiples of the divisor. */
  lemma JavaRemZero(x: real, m: real)
    requires m > 0.0
    ensures JavaRem(x, m) == 0.0 <==> IsInteger(x / m)
  {
    var q := x / m;
    assert x == q * m;
    if JavaRem(x, m) == 0.0 {
      assert (q - Trunc(q) as real) * m == 0.0;
      assert q == Trunc(q) as real;
    }
  }

  /** `Math.toRadians`: half a turn is `Math.PI`, and the sign is kept. */
  function ToRadians(degrees: real): (r: real)
    ensures degrees == 180.0 ==> r == PI
    ensures r > 0.0 <==> degrees > 0.0
    ensures r < 0.0 <==> degrees < 0.0
  {
    degrees / 180.0 * PI
  }

  /** `Math.toDegrees`: `Math.PI` is half a turn, and the sign is kept. */
  function ToDegrees(radians: real): (r: real)
    ensures radians == PI ==> r == 180.0
    ensures r > 0.0 <==> radians > 0.0
    ensures r < 0.0 <==> radians < 0.0
  {
    radians * 180.0 / PI
  }

  /** Converting to radians and back gives the angle that went in, and the
      other way round. */
  lemma DegreesRadiansRoundTrip(x: real)
    ensures ToDegrees(ToRadians(x)) == x
    ensures ToRadians(ToDegrees(x)) == x
  {
    calc {
      ToDegrees(ToRadians(x));
      (x / 180.0 * PI) * 180.0 / PI;
      { assert (x / 180.0 * PI) * 180.0 == x * PI; }
      x * PI / PI;
      x;
    }
    calc {
      ToRadians(ToDegrees(x));
      (x * 180.0 / PI) / 180.0 * PI;
      { assert (x * 180.0 / PI) / 180.0 == x / PI; }
      x / PI * PI;
      x;
    }
  }

  lemma BelowSquare(a: real, b: real, bb: real)
    requires 0.0 <= a <= b && bb == b * b
    ensures a * a <= bb
    ensures a < b ==> a * a < bb
  {
    assert bb - a * a == (b - a) * (b + a);
    if a < b {
      MulStrict(0.0, b - a, b + a);
    }
  }

  /** For a non-negative `root` of `square`, testing `root > bound` is the same
      as testing `square > bound * bound`: this is how `Math.sqrt` comparisons
      are modelled. */
  lemma RootExceeds(root: real, square: real, bound: real)
    requires root >= 0.0 && bound >= 0.0 && root * root == square
    ensures root > bound <==> square > bound * bound
  {
    if root > bound {
      BelowSquare(bound, root, square);
    } else {
      BelowSquare(root, bound, bound * bound);
    }
  }
}
