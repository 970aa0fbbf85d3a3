/** AngleMath: wrapped angle differences and circular means, in radians or
    degrees as the caller's `angleType` says (src/com/zacharyliu/stepnavigation/AngleMath.java). */
module AngleMath {
  import opened JavaMath
  import Sums

  const RADIANS: int := 1
  const DEGREES: int := 2

  /** `x - h` wrapped with Java's `%`: the shape both branches of `difference` share,
      with `h` half a turn (180 degrees or `Math.PI` radians). */
  function Wrap(d: real, h: real): (r: real)
    requires h > 0.0
    ensures r < h
  {
    JavaRemBounds(d + h, 2.0 * h);
    JavaRem(d + h, 2.0 * h) - h
  }

  /** `AngleMath.difference`: `angle1 - angle2`, wrapped as the unit says; any
      other `angleType` passes the plain difference through. */
  function Difference(angleType: int, angle1: real, angle2: real): (r: real)
    ensures angleType == DEGREES ==> r < 180.0
    ensures angleType == RADIANS ==> r < PI
    ensures angleType != DEGREES && angleType != RADIANS ==> r == angle1 - angle2
  {
    var diff := angle1 - angle2;
    if angleType == DEGREES then Wrap(diff, 180.0)
    else if angleType == RADIANS then Wrap(diff, PI)
    else diff
  }

  /** What the truncating wrap does, for every input:
      - it moves `d` by whole turns only;
      - it leaves `d` alone on [-h, h);
      - it lands in [-h, h) whenever `d >= -h`;
      - below `-h` it does NOT wrap back into range: the result stays at or
        below `-h`, and reaches `-h` exactly when `d + h` is a whole number of turns. */
  lemma WrapFacts(d: real, h: real)
    requires h > 0.0
    ensures IsInteger((d - Wrap(d, h)) / (2.0 * h))
    ensures -h <= d < h ==> Wrap(d, h) == d
    ensures d >= -h ==> -h <= Wrap(d, h) < h
    ensures d < -h ==> Wrap(d, h) <= -h
    ensures d < -h ==> (Wrap(d, h) == -h <==> IsInteger((d + h) / (2.0 * h)))
  {
    var x := d + h;
    var m := 2.0 * h;
    assert d - Wrap(d, h) == x - JavaRem(x, m);
    JavaRemBounds(x, m);
    JavaRemZero(x, m);
    if -h <= d < h {
      JavaRemSmall(x, m);
    }
  }

  /** `difference` in DEGREES mode: a whole number of turns away from `a - b`,
      equal to it on [-180, 180), in [-180, 180) whenever `a - b >= -180`, and
      otherwise at or below -180 (exactly -180 when `a - b + 180` is a multiple of 360). */
  lemma DifferenceDegrees(a: real, b: real)
    ensures IsInteger((a - b - Difference(DEGREES, a, b)) / 360.0)
    ensures -180.0 <= a - b < 180.0 ==> Difference(DEGREES, a, b) == a - b
    ensures a - b >= -180.0 ==> -180.0 <= Difference(DEGREES, a, b) < 180.0
    ensures a - b < -180.0 ==> Difference(DEGREES, a, b) <= -180.0
    ensures a - b < -180.0 ==>
      (Difference(DEGREES, a, b) == -180.0 <==> IsInteger((a - b + 180.0) / 360.0))
  {
    WrapFacts(a - b, 180.0);
  }

  /** `difference` in RADIANS mode: the same facts with `Math.PI` for half a turn. */
  lemma DifferenceRadians(a: real, b: real)
    ensures IsInteger((a - b - Difference(RADIANS, a, b)) / (2.0 * PI))
    ensures -PI <= a - b < PI ==> Difference(RADIANS, a, b) == a - b
    ensures a - b >= -PI ==> -PI <= Difference(RADIANS, a, b) < PI
    ensures a - b < -PI ==> Difference(RADIANS, a, b) <= -PI
    ensures a - b < -PI ==>
      (Difference(RADIANS, a, b) == -PI <==> IsInteger((a - b + PI) / (2.0 * PI)))
  {
    WrapFacts(a - b, PI);
  }

  /** The truncating `%` leaves the difference from 350 to 10 degrees at -340
      instead of wrapping it to 20; the other direction gives -20. */
  lemma DifferenceBelowRange()
    ensures Difference(DEGREES, 10.0, 350.0) == -340.0
    ensures Difference(DEGREES, 350.0, 10.0) == -20.0
  {
    assert Trunc(-160.0 / 360.0) == 0;
    assert Trunc(520.0 / 360.0) == 1;
  }

  /** `x mod m` with the floor of the quotient: always in [0, m). */
  function FloorRem(x: real, m: real): (r: real)
    requires m > 0.0
    ensures 0.0 <= r < m
    ensures IsInteger((x - r) / m)
  {
    var q := x / m;
    var fl := q.Floor as real;
    var f := q - fl;
    var r := f * m;
    assert 0.0 <= f < 1.0;
    MulMonotone(0.0, f, m);
    MulStrict(f, 1.0, m);
    assert x - r == fl * m by {
      assert q * m == x;
      assert f * m == q * m - fl * m;
    }
    assert (x - r) / m == fl;
    r
  }

  /** The signed shortest turn from `b` to `a`, in degrees: the behaviour
      `difference` evidently intends, in [-180, 180) for every input. */
  function ShortestDifference(a: real, b: real): (r: real)
    ensures -180.0 <= r < 180.0
    ensures IsInteger((a - b - r) / 360.0)
  {
    var x := a - b + 180.0;
    assert (a - b - (FloorRem(x, 360.0) - 180.0)) / 360.0 == (x - FloorRem(x, 360.0)) / 360.0;
    FloorRem(x, 360.0) - 180.0
  }

  /** Where the truncating version stays in range it agrees with the shortest
      turn; in particular 350 to 10 degrees is 20. */
  lemma ShortestDifferenceAgrees(a: real, b: real)
    ensures a - b >= -180.0 ==> ShortestDifference(a, b) == Difference(DEGREES, a, b)
    ensures ShortestDifference(10.0, 350.0) == 20.0
    ensures ShortestDifference(350.0, 10.0) == -20.0
  {
    if a - b >= -180.0 {
      var r := ShortestDifference(a, b);
      var w := Difference(DEGREES, a, b);
      DifferenceDegrees(a, b);
      TurnsApartEqual(r, w, a - b);
    }
    assert (20.0 - (-340.0)) / 360.0 == 1.0;
    TurnsApartEqual(ShortestDifference(10.0, 350.0), 20.0, -340.0);
    assert (340.0 - (-20.0)) / 360.0 == 1.0;
    TurnsApartEqual(ShortestDifference(350.0, 10.0), -20.0, 340.0);
  }

  /** Two angles in the same half-open turn [-180, 180) that are each a whole
      number of turns from `d` are equal. */
  lemma TurnsApartEqual(r: real, w: real, d: real)
    requires -180.0 <= r < 180.0 && -180.0 <= w < 180.0
    requires IsInteger((d - r) / 360.0) && IsInteger((d - w) / 360.0)
    ensures r == w
  {
    var k1 := ((d - r) / 360.0).Floor;
    var k2 := ((d - w) / 360.0).Floor;
    var k := k1 - k2;
    assert w - r == k as real * 360.0;
    assert -360.0 < k as real * 360.0 < 360.0;
    assert k == 0;
  }

  // ---------------------------------------------------------------------------
  // average / weightedAverage

  /** Every angle of `s` converted from degrees to radians. */
  function AllToRadians(s: seq<real>): (r: seq<real>)
    ensures |r| == |s|
    ensures forall i :: 0 <= i < |s| ==> r[i] == ToRadians(s[i])
  {
    seq(|s|, i requires 0 <= i < |s| => ToRadians(s[i]))
  }

  function SumCos(s: seq<real>, trig: Trig): real {
    if s == [] then 0.0 else SumCos(s[..|s| - 1], trig) + trig.cos(s[|s| - 1])
  }

  function SumSin(s: seq<real>, trig: Trig): real {
    if s == [] then 0.0 else SumSin(s[..|s| - 1], trig) + trig.sin(s[|s| - 1])
  }

  function WeightedSumCos(s: seq<real>, w: seq<real>, trig: Trig): real
    requires |w| >= |s|
  {
    if s == [] then 0.0
    else WeightedSumCos(s[..|s| - 1], w, trig) + trig.cos(s[|s| - 1]) * w[|s| - 1]
  }

  function WeightedSumSin(s: seq<real>, w: seq<real>, trig: Trig): real
    requires |w| >= |s|
  {
    if s == [] then 0.0
    else WeightedSumSin(s[..|s| - 1], w, trig) + trig.sin(s[|s| - 1]) * w[|s| - 1]
  }

  /** The circular mean `average` computes from angles already in radians,
      reported in `angleType`'s unit; `None` stands for the NaN that an empty
      array produces. */
  function CircularMean(angleType: int, radians: seq<real>, trig: Trig): (mean: Option<real>)
    ensures mean.None? <==> radians == []
  {
    if radians == [] then None
    else
      var n := |radians| as real;
      var mean := trig.atan2(SumSin(radians, trig) / n, SumCos(radians, trig) / n);
      Some(if angleType == DEGREES then ToDegrees(mean) else mean)
  }

  /** The weighted circular mean `weightedAverage` computes; `None` when the
      weights sum to zero. */
  function WeightedCircularMean(angleType: int, radians: seq<real>, w: seq<real>, trig: Trig): (mean: Option<real>)
    requires |w| >= |radians|
    ensures mean.None? <==> Sums.Sum(w[..|radians|]) == 0.0
  {
    var total := Sums.Sum(w[..|radians|]);
    if total == 0.0 then None
    else
      var mean := trig.atan2(WeightedSumSin(radians, w, trig) / total, WeightedSumCos(radians, w, trig) / total);
      Some(if angleType == DEGREES then ToDegrees(mean) else mean)
  }

  /** The conversion loop both averages run in DEGREES mode: it overwrites the
      caller's array. */
  method ConvertToRadians(angles: array<real>)
    modifies angles
    ensures angles[..] == AllToRadians(old(angles[..]))
  {
    for i := 0 to angles.Length
      invariant forall k :: 0 <= k < i ==> angles[k] == ToRadians(old(angles[k]))
      invariant forall k :: i <= k < angles.Length ==> angles[k] == old(angles[k])
    {
      angles[i] := ToRadians(angles[i]);
    }
  }

  /** The summing loop of `average`. */
  method CircularSums(angles: array<real>, trig: Trig) returns (sumX: real, sumY: real)
    ensures sumX == SumCos(angles[..], trig)
    ensures sumY == SumSin(angles[..], trig)
  {
    sumX, sumY := 0.0, 0.0;
    for i := 0 to angles.Length
      invariant sumX == SumCos(angles[..i], trig)
      invariant sumY == SumSin(angles[..i], trig)
    {
      assert angles[..i + 1][..i] == angles[..i];
      sumX := sumX + trig.cos(angles[i]);
      sumY := sumY + trig.sin(angles[i]);
    }
    assert angles[..angles.Length] == angles[..];
  }

  /** The summing loop of `weightedAverage`: it reads `weights[i]` for every
      index of `angles`. */
  method WeightedCircularSums(angles: array<real>, weights: array<real>, trig: Trig)
    returns (sumX: real, sumY: real, sumWeights: real)
    requires weights.Length >= angles.Length
    ensures sumX == WeightedSumCos(angles[..], weights[..], trig)
    ensures sumY == WeightedSumSin(angles[..], weights[..], trig)
    ensures sumWeights == Sums.Sum(weights[..angles.Length])
  {
    sumX, sumY, sumWeights := 0.0, 0.0, 0.0;
    for i := 0 to angles.Length
      invariant sumX == WeightedSumCos(angles[..i], weights[..], trig)
      invariant sumY == WeightedSumSin(angles[..i], weights[..], trig)
      invariant sumWeights == Sums.Sum(weights[..i])
    {
      assert angles[..i + 1][..i] == angles[..i];
      assert weights[..i + 1][..i] == weights[..i];
      sumX := sumX + trig.cos(angles[i]) * weights[i];
      sumY := sumY + trig.sin(angles[i]) * weights[i];
      sumWeights := sumWeights + weights[i];
    }
    assert angles[..angles.Length] == angles[..];
  }

  /** `AngleMath.average`: in DEGREES mode the caller's array now holds radians;
      in any other mode it is untouched. */
  method Average(angleType: int, angles: array<real>, trig: Trig) returns (mean: Option<real>)
    modifies angles
    ensures angles[..] == if angleType == DEGREES then AllToRadians(old(angles[..])) else old(angles[..])
    ensures mean == CircularMean(angleType, angles[..], trig)
  {
    if angleType == DEGREES {
      ConvertToRadians(angles);
    }
    var sumX, sumY := CircularSums(angles, trig);
    if angles.Length == 0 {
      mean := None;
    } else {
      var n := angles.Length as real;
      var m := trig.atan2(sumY / n, sumX / n);
      if angleType == DEGREES {
        m := ToDegrees(m);
      }
      mean := Some(m);
    }
  }

  /** `AngleMath.weightedAverage`: the same side effect on `angles` as `average`. */
  method WeightedAverage(angleType: int, angles: array<real>, weights: array<real>, trig: Trig)
    returns (mean: Option<real>)
    requires weights.Length >= angles.Length
    modifies angles
    ensures angles[..] == if angleType == DEGREES then AllToRadians(old(angles[..])) else old(angles[..])
    ensures mean == WeightedCircularMean(angleType, angles[..], weights[..], trig)
  {
    if angleType == DEGREES {
      ConvertToRadians(angles);
    }
    var sumX, sumY, sumWeights := WeightedCircularSums(angles, weights, trig);
    if sumWeights == 0.0 {
      mean := None;
    } else {
      var m := trig.atan2(sumY / sumWeights, sumX / sumWeights);
      if angleType == DEGREES {
        m := ToDegrees(m);
      }
      mean := Some(m);
    }
  }

  lemma {:induction false} UnitWeightedSums(s: seq<real>, w: seq<real>, trig: Trig)
    requires |w| >= |s|
    requires forall i :: 0 <= i < |s| ==> w[i] == 1.0
    ensures WeightedSumCos(s, w, trig) == SumCos(s, trig)
    ensures WeightedSumSin(s, w, trig) == SumSin(s, trig)
  {
    if s != [] {
      UnitWeightedSums(s[..|s| - 1], w, trig);
    }
  }

  /** With every weight 1, `weightedAverage` gives what `average` gives. */
  lemma UnitWeightsGiveMean(angleType: int, s: seq<real>, w: seq<real>, trig: Trig)
    requires |w| >= |s|
    requires forall i :: 0 <= i < |s| ==> w[i] == 1.0
    ensures WeightedCircularMean(angleType, s, w, trig) == CircularMean(angleType, s, trig)
  {
    UnitWeightedSums(s, w, trig);
    Sums.SumConstant(w[..|s|], 1.0);
  }
}
