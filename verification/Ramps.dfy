/** What a ramp's value is, apart from how it is evaluated: it passes through its points and runs between them. */
module Ramps {
  import opened Wrappers
  import opened ExpressionProgram
  import opened ExpressionEmitter
  import opened Geometry

  /** The span behind a point holds everything up to the next point. */
  lemma SpanOf(points: seq<RampPoint>, k: nat, t: real)
    requires Increasing(points) && k + 1 < |points| && points[k].position <= t < points[k + 1].position
    ensures UpperPoint(points, t, 1) == k + 1
  {
    assert forall i :: 0 <= i <= k ==> points[i].position <= points[k].position;
    hide Increasing;
  }

  /** A cubic starts and ends at its end values, whatever its slopes. */
  lemma CubicEnds(k0: real, k1: real, d0: real, d1: real)
    ensures Cubic(k0, k1, d0, d1, 0.0) == k0 && Cubic(k0, k1, d0, d1, 1.0) == k1
    ensures HermiteBlend(k0, k1, 0.0) == k0 && HermiteBlend(k0, k1, 1.0) == k1
    ensures Mixed(k0, k1, 0.0) == k0 && Mixed(k0, k1, 1.0) == k1
  {
  }

  /** The value of a span at its two ends; only a step does not reach the next point. */
  lemma SpanEnds(points: seq<RampPoint>, upper: nat)
    requires Increasing(points) && 0 < upper < |points|
    ensures SpanValue(points, upper, 0.0) == Ok(Clamp(points[upper - 1].value, 0.0, 1.0))
    ensures points[upper - 1].interpolation != 0 ==> SpanValue(points, upper, 1.0) == Ok(Clamp(points[upper].value, 0.0, 1.0))
  {
    var k0, k1 := points[upper - 1].value, points[upper].value;
    forall d0: real, d1: real
      ensures Cubic(k0, k1, d0, d1, 0.0) == k0 && Cubic(k0, k1, d0, d1, 1.0) == k1
    {
      CubicEnds(k0, k1, d0, d1);
    }
    CubicEnds(k0, k1, 0.0, 0.0);
    SpanIsFinite(points, upper, 0.0);
    SpanIsFinite(points, upper, 1.0);
    hide Cubic, HermiteBlend, Mixed, Increasing;
  }

  /** On increasing points every span has a value. */
  lemma SpanIsFinite(points: seq<RampPoint>, upper: nat, u: real)
    requires Increasing(points) && 0 < upper < |points|
    ensures SpanValue(points, upper, u).Ok?
  {
    var width := points[upper].position - points[upper - 1].position;
    ScaledNonzero(width, 2.0 * width);
    if upper > 1 { ScaledNonzero(width, points[upper].position - points[upper - 2].position); }
    if upper + 1 < |points| { ScaledNonzero(width, points[upper + 1].position - points[upper - 1].position); }
    assert 2.0 * points[upper].position - 2.0 * points[upper - 1].position == 2.0 * width;
    hide Cubic, HermiteBlend, Clamp;
  }

  /** Between two points, a ramp is its span's value at the share of the way. */
  lemma RampInSpan(points: seq<RampPoint>, k: nat, t: real)
    requires Increasing(points) && k + 1 < |points| && points[k].position < t < points[k + 1].position
    ensures var u := (t - points[k].position) / (points[k + 1].position - points[k].position);
      0.0 < u < 1.0 && RampValue(points, t) == SpanValue(points, k + 1, u)
  {
    SpanOf(points, k, t);
    var a, width := t - points[k].position, points[k + 1].position - points[k].position;
    ShareInside(a, width);
    assert points[0].position <= points[k].position && points[k + 1].position <= points[|points| - 1].position;
    hide SpanValue, UpperPoint, Increasing;
  }

  lemma ShareInside(a: real, b: real)
    requires 0.0 < a < b
    ensures 0.0 < a / b < 1.0
  {
    QuotientProduct(a, b);
    ScaledOrder(0.0, a / b, b);
    ScaledOrder(a / b, 1.0, b);
  }

  /** A ramp passes through each of its points, whatever the interpolation on either side. */
  lemma RampAtPoint(points: seq<RampPoint>, k: nat)
    requires Increasing(points) && k < |points|
    ensures RampValue(points, points[k].position) == Ok(Clamp(points[k].value, 0.0, 1.0))
  {
    var t := points[k].position;
    if 0 < k < |points| - 1 {
      assert points[0].position < t < points[|points| - 1].position && t < points[k + 1].position;
      SpanOf(points, k, t);
      SpanEnds(points, k + 1);
      NoShare(points[k + 1].position - t);
      hide SpanValue, UpperPoint, Increasing;
    }
  }

  lemma NoShare(width: real)
    requires width > 0.0
    ensures 0.0 / width == 0.0
  {
  }

  /** The smooth blend weighs its two ends with shares that add up to one. */
  lemma BlendWeights(k0: real, k1: real, u: real)
    requires 0.0 <= u <= 1.0
    ensures 0.0 <= SmoothCurve(u) <= 1.0
    ensures HermiteBlend(k0, k1, u) == Mixed(k0, k1, SmoothCurve(u))
  {
    var v := 1.0 - u;
    NonNegativeProduct(u, u);
    NonNegativeProduct(u * u, 3.0 - 2.0 * u);
    NonNegativeProduct(v, v);
    NonNegativeProduct(v * v, 1.0 + 2.0 * u);
    assert 1.0 - SmoothCurve(u) == v * v * (1.0 + 2.0 * u);
  }

  lemma MixedBetween(k0: real, k1: real, s: real)
    requires 0.0 <= s <= 1.0
    ensures k0 <= k1 ==> k0 <= Mixed(k0, k1, s) <= k1
    ensures k1 <= k0 ==> k1 <= Mixed(k0, k1, s) <= k0
  {
    if k0 <= k1 {
      NonNegativeProduct(s, k1 - k0);
      NonNegativeProduct(1.0 - s, k1 - k0);
    } else {
      NonNegativeProduct(s, k0 - k1);
      NonNegativeProduct(1.0 - s, k0 - k1);
    }
  }

  /** Stepped, linear and smooth spans stay between the values of their two points. */
  lemma SpanBetween(points: seq<RampPoint>, upper: nat, u: real)
    requires Increasing(points) && 0 < upper < |points| && 0.0 <= u <= 1.0 && points[upper - 1].interpolation <= 2
    ensures var (a, b) := (Clamp(points[upper - 1].value, 0.0, 1.0), Clamp(points[upper].value, 0.0, 1.0));
      var v := SpanValue(points, upper, u);
      v.Ok? && (a <= b ==> a <= v.value <= b) && (b <= a ==> b <= v.value <= a)
  {
    hide HermiteBlend, SmoothCurve, Mixed, Clamp, Increasing, Cubic;
    var k0, k1 := points[upper - 1].value, points[upper].value;
    var kind := points[upper - 1].interpolation;
    var x := if kind == 0 then k0 else if kind == 1 then Mixed(k0, k1, u) else HermiteBlend(k0, k1, u);
    BlendWeights(k0, k1, u);
    MixedBetween(k0, k1, u);
    MixedBetween(k0, k1, SmoothCurve(u));
    ClampOrder(k0, x);
    ClampOrder(x, k1);
    ClampOrder(k1, x);
    ClampOrder(x, k0);
    ClampOrder(k0, k1);
    ClampOrder(k1, k0);
  }

  lemma ClampOrder(a: real, b: real)
    ensures a <= b ==> Clamp(a, 0.0, 1.0) <= Clamp(b, 0.0, 1.0)
    ensures a == b ==> Clamp(a, 0.0, 1.0) == Clamp(b, 0.0, 1.0)
  {
  }
}
