/** The slopes of cubic ramp spans: where two of them meet, the ramp has one slope. */
module RampSlopes {
  import opened Wrappers
  import opened ExpressionProgram
  import opened ExpressionEmitter
  import opened Geometry

  function Ratio(a: real, b: real): real
    requires b != 0.0
  {
    a / b
  }

  /** The slope of the line through two points of a ramp. */
  function LineSlope(points: seq<RampPoint>, i: nat, j: nat): real
    requires Increasing(points) && i < j < |points|
  {
    Ratio(points[j].value - points[i].value, points[j].position - points[i].position)
  }

  /** The slope of a ramp at a point: that of the line through its neighbours, and at an end half that of its only line. */
  function SlopeAt(points: seq<RampPoint>, k: nat): real
    requires Increasing(points) && k < |points| && |points| >= 2
  {
    if k == 0 then LineSlope(points, 0, 1) / 2.0
    else if k + 1 == |points| then LineSlope(points, k - 1, k) / 2.0
    else LineSlope(points, k - 1, k + 1)
  }

  function Width(points: seq<RampPoint>, upper: nat): (w: real)
    requires Increasing(points) && 0 < upper < |points|
    ensures w > 0.0
  {
    points[upper].position - points[upper - 1].position
  }

  /** A cubic span before it is cut off, as a function of the place on the ramp. */
  function CubicSpan(points: seq<RampPoint>, upper: nat, t: real): real
    requires Increasing(points) && 0 < upper < |points|
  {
    var w := Width(points, upper);
    Cubic(points[upper - 1].value, points[upper].value, Product(w, SlopeAt(points, upper - 1)), Product(w, SlopeAt(points, upper)),
          Ratio(t - points[upper - 1].position, w))
  }

  function Far(x: real): real { if x < 0.0 then -x else x }

  /** What is left beside the line of a slope is a share of the square. */
  ghost predicate LeavesLittle(f: real -> real, at: real, value: real, slope: real, most: real, h: real) {
    Far(f(at + h) - value - Product(slope, h)) <= Product(most, Product(h, h))
  }

  ghost predicate LeavesShare(f: real -> real, at: real, value: real, slope: real, most: real) {
    forall h: real | Far(h) <= 1.0 :: LeavesLittle(f, at, value, slope, most, h)
  }

  /** A function goes through a value with a slope. */
  ghost predicate Touches(f: real -> real, at: real, value: real, slope: real) {
    exists most :: LeavesShare(f, at, value, slope, most)
  }

  // ---------------------------------------------------------------- the evaluator's cubic

  /** On a cubic span the ramp is the cubic with the slopes of its two points, cut off to 0 and 1. */
  lemma SpanIsCubic(points: seq<RampPoint>, upper: nat, t: real)
    requires Increasing(points) && 0 < upper < |points| && points[upper - 1].interpolation == 3
    ensures SpanValue(points, upper, Ratio(t - points[upper - 1].position, Width(points, upper)))
         == Ok(Clamp(CubicSpan(points, upper, t), 0.0, 1.0))
  {
    hide Cubic, Clamp, SlopeAt, Ratio, Product, Increasing, Quotient;
    var w := Width(points, upper);
    var rise := points[upper].value - points[upper - 1].value;
    Inverted(w);
    if upper == 1 {
      HalfSlope(w, rise, 2.0 * points[upper].position - 2.0 * points[upper - 1].position);
    } else {
      Before(points, upper - 2, upper);
      EndSlope(w, points[upper].value - points[upper - 2].value, points[upper].position - points[upper - 2].position);
    }
    if upper + 1 == |points| {
      HalfSlope(w, rise, 2.0 * points[upper].position - 2.0 * points[upper - 1].position);
    } else {
      Before(points, upper - 1, upper + 1);
      EndSlope(w, points[upper + 1].value - points[upper - 1].value, points[upper + 1].position - points[upper - 1].position);
    }
    hide Far, Touches;
    SlopesAre(points, upper);
  }

  lemma SlopesAre(points: seq<RampPoint>, upper: nat)
    requires Increasing(points) && 0 < upper < |points|
    ensures Width(points, upper) == points[upper].position - points[upper - 1].position
    ensures SlopeAt(points, upper - 1) == if upper == 1 then LineSlope(points, 0, 1) / 2.0 else LineSlope(points, upper - 2, upper)
    ensures SlopeAt(points, upper) == if upper + 1 == |points| then LineSlope(points, upper - 1, upper) / 2.0
                                      else LineSlope(points, upper - 1, upper + 1)
  {
    hide LineSlope;
  }

  lemma Inverted(width: real)
    requires width > 0.0
    ensures Quotient(1.0, width) == Ok(Ratio(1.0, width)) && Product(Ratio(1.0, width), width) == 1.0
  {
    QuotientProduct(1.0, width);
  }

  lemma Before(points: seq<RampPoint>, i: nat, j: nat)
    requires Increasing(points) && i < j < |points|
    ensures points[i].position < points[j].position
  {
  }

  lemma EndSlope(width: real, rise: real, run: real)
    requires width > 0.0 && run > 0.0
    ensures Quotient(rise, Product(Ratio(1.0, width), run)) == Ok(Product(width, Ratio(rise, run)))
  {
    var scale, q := Ratio(1.0, width), Ratio(rise, run);
    Inverted(width);
    QuotientProduct(rise, run);
    assert Product(q, run) == rise;
    hide Ratio, Quotient;
    Exchanged(scale, run, width, q);
    QuotientOf(rise, Product(scale, run), Product(width, q));
  }

  lemma Exchanged(scale: real, run: real, width: real, q: real)
    requires Product(scale, width) == 1.0 && run > 0.0
    ensures Product(Product(scale, run), Product(width, q)) == Product(q, run) && Product(scale, run) != 0.0
  {
    assert (scale * run) * (width * q) == (scale * width) * (q * run);
    assert (scale * run) * width == (scale * width) * run;
    NonZeroFactor(scale * run, width);
  }

  lemma NonZeroFactor(x: real, y: real)
    requires x * y != 0.0
    ensures x != 0.0
  {
  }

  lemma QuotientOf(a: real, b: real, q: real)
    requires b != 0.0 && Product(b, q) == a
    ensures Quotient(a, b) == Ok(q)
  {
    QuotientIs(a, b, q);
  }

  lemma QuotientIs(a: real, b: real, q: real)
    requires b != 0.0 && b * q == a
    ensures a / b == q
  {
    QuotientProduct(a, b);
    assert (a / b - q) * b == 0.0;
  }

  lemma HalfSlope(width: real, rise: real, run: real)
    requires width > 0.0 && run == 2.0 * width
    ensures Quotient(rise, Product(Ratio(1.0, width), run)) == Ok(Product(width, Ratio(rise, width) / 2.0))
  {
    var q := Ratio(rise, width);
    Inverted(width);
    QuotientProduct(rise, width);
    Halved(Ratio(1.0, width), width, run, q, rise);
    hide Ratio, Quotient;
    QuotientOf(rise, Product(Ratio(1.0, width), run), Product(width, q / 2.0));
  }

  lemma Halved(scale: real, width: real, run: real, q: real, rise: real)
    requires Product(scale, width) == 1.0 && run == 2.0 * width && q * width == rise
    ensures Product(scale, run) == 2.0 && Product(2.0, Product(width, q / 2.0)) == rise
  {
    assert scale * (2.0 * width) == 2.0 * (scale * width);
    assert 2.0 * (width * (q / 2.0)) == q * width;
  }

  // ---------------------------------------------------------------- slopes of a cubic

  /** What a cubic leaves beside the line of its slope at its start. */
  function Rest(k0: real, k1: real, d0: real, d1: real, u: real): real {
    (u * u) * (3.0 * (k1 - k0) - 2.0 * d0 - d1 + u * (2.0 * (k0 - k1) + d0 + d1))
  }

  lemma CubicRests(k0: real, k1: real, d0: real, d1: real, u: real)
    ensures Cubic(k0, k1, d0, d1, u) - k0 - Product(d0, u) == Rest(k0, k1, d0, d1, u)
  {
  }

  lemma CubicMirrored(k0: real, k1: real, d0: real, d1: real, u: real)
    ensures Cubic(k0, k1, d0, d1, 1.0 + u) == Cubic(k1, k0, -d1, -d0, -u)
  {
  }

  /** A bound for the rest, as a share of the square of the way. */
  function Most(k0: real, k1: real, d0: real, d1: real, width: real): real
    requires width > 0.0
  {
    var scale := Ratio(1.0, width);
    Product(Product(scale, scale), Far(3.0 * (k1 - k0) - 2.0 * d0 - d1) + Product(scale, Far(2.0 * (k0 - k1) + d0 + d1)))
  }

  /** A cubic of a span's share starts with its first slope. */
  lemma CubicTouches(k0: real, k1: real, m0: real, m1: real, width: real, h: real)
    requires width > 0.0 && Far(h) <= 1.0
    ensures var d0, d1 := Product(width, m0), Product(width, m1);
      Far(Cubic(k0, k1, d0, d1, Ratio(h, width)) - k0 - Product(m0, h)) <= Product(Most(k0, k1, d0, d1, width), Product(h, h))
  {
    hide *;
    var d0, d1, u := Product(width, m0), Product(width, m1), Ratio(h, width);
    CubicRests(k0, k1, d0, d1, u);
    SlopeShare(width, m0, h);
    RestBound(k0, k1, d0, d1, h, width);
  }

  lemma SlopeShare(width: real, m: real, h: real)
    requires width > 0.0
    ensures Product(Product(width, m), Ratio(h, width)) == Product(m, h)
  {
    QuotientProduct(h, width);
    var u := h / width;
    assert (width * m) * u == m * (u * width);
  }

  lemma RestBound(k0: real, k1: real, d0: real, d1: real, h: real, width: real)
    requires width > 0.0 && Far(h) <= 1.0
    ensures Far(Rest(k0, k1, d0, d1, Ratio(h, width))) <= Product(Most(k0, k1, d0, d1, width), Product(h, h))
  {
    hide *;
    var u, scale := Ratio(h, width), Ratio(1.0, width);
    var a, b := 3.0 * (k1 - k0) - 2.0 * d0 - d1, 2.0 * (k0 - k1) + d0 + d1;
    ShareOf(width, h);
    RestIs(k0, k1, d0, d1, u, a, b);
    MostIs(k0, k1, d0, d1, width, a, b);
    InnerBound(a, b, u, scale, h);
    NotNegativeSquare(u);
    FarProduct(Product(u, u), a + Product(u, b));
    FarScale(Product(u, u));
    ScaledFar(Far(a + Product(u, b)), Far(a) + Product(scale, Far(b)), Product(u, u));
    Reordered(scale, h, u, Far(a) + Product(scale, Far(b)));
  }

  lemma RestIs(k0: real, k1: real, d0: real, d1: real, u: real, a: real, b: real)
    requires a == 3.0 * (k1 - k0) - 2.0 * d0 - d1 && b == 2.0 * (k0 - k1) + d0 + d1
    ensures Rest(k0, k1, d0, d1, u) == Product(Product(u, u), a + Product(u, b))
  {
  }

  lemma MostIs(k0: real, k1: real, d0: real, d1: real, width: real, a: real, b: real)
    requires width > 0.0 && a == 3.0 * (k1 - k0) - 2.0 * d0 - d1 && b == 2.0 * (k0 - k1) + d0 + d1
    ensures var scale := Ratio(1.0, width);
      Most(k0, k1, d0, d1, width) == Product(Product(scale, scale), Far(a) + Product(scale, Far(b)))
  {
    hide Product, Ratio, Far;
  }

  lemma NotNegativeSquare(u: real)
    ensures Product(u, u) >= 0.0
  {
    Square(u);
  }

  lemma ShareOf(width: real, h: real)
    requires width > 0.0
    ensures Ratio(h, width) == Product(Ratio(1.0, width), h) && Ratio(1.0, width) > 0.0
  {
    var scale := 1.0 / width;
    QuotientProduct(1.0, width);
    assert width * (scale * h) == (scale * width) * h;
    QuotientIs(h, width, scale * h);
    RatioUp(width);
  }

  lemma RatioUp(width: real)
    requires width > 0.0
    ensures 1.0 / width > 0.0
  {
  }

  lemma InnerBound(a: real, b: real, u: real, scale: real, h: real)
    requires scale > 0.0 && u == Product(scale, h) && Far(h) <= 1.0
    ensures Far(a + Product(u, b)) <= Far(a) + Product(scale, Far(b))
  {
    hide Product;
    FarProduct(scale, h);
    FarProduct(u, b);
    FarSum(a, Product(u, b));
    ScaledFar(Far(h), 1.0, scale);
    WholeProduct(scale);
    ScaledFar(Far(u), scale, Far(b));
  }

  lemma WholeProduct(x: real)
    ensures Product(x, 1.0) == x
  {
  }

  lemma Reordered(s: real, h: real, u: real, x: real)
    requires u == Product(s, h)
    ensures Product(x, Product(u, u)) == Product(Product(Product(s, s), x), Product(h, h))
  {
    assert u * u == (s * s) * (h * h);
    assert x * ((s * s) * (h * h)) == (s * s) * x * (h * h);
  }

  lemma FarProduct(x: real, y: real)
    ensures Far(Product(x, y)) == Product(Far(x), Far(y))
  {
    if x >= 0.0 {
      if y >= 0.0 { NonNegativeProduct(x, y); } else { NegativeProduct(x, -y); }
    } else if y >= 0.0 {
      NegativeProduct(-x, y);
    } else {
      NonNegativeProduct(-x, -y);
    }
  }

  lemma NegativeProduct(x: real, y: real)
    requires x >= 0.0 && y >= 0.0
    ensures (-x) * y == -(x * y) && x * (-y) == -(x * y) && x * y >= 0.0
  {
  }

  lemma FarScale(x: real)
    ensures x >= 0.0 ==> Far(x) == x
  {
  }

  lemma FarSum(x: real, y: real)
    ensures Far(x + y) <= Far(x) + Far(y)
  {
  }

  lemma ScaledFar(x: real, y: real, z: real)
    requires x <= y && z >= 0.0
    ensures Product(x, z) <= Product(y, z) && Product(z, x) <= Product(z, y) && Product(z, x) == Product(x, z)
  {
    NonNegativeProduct(y - x, z);
  }

  /** A cubic of a span's share ends with its second slope. */
  lemma BackTouches(k0: real, k1: real, m0: real, m1: real, width: real, h: real)
    requires width > 0.0 && Far(h) <= 1.0
    ensures var d0, d1 := Product(width, m0), Product(width, m1);
      Far(Cubic(k0, k1, d0, d1, 1.0 + Ratio(h, width)) - k1 - Product(m1, h))
      <= Product(Most(k1, k0, Product(width, -m1), Product(width, -m0), width), Product(h, h))
  {
    hide *;
    var d0, d1 := Product(width, m0), Product(width, m1);
    Backwards(width, m0, m1, h);
    CubicMirrored(k0, k1, d0, d1, Ratio(h, width));
    FarBack(h);
    CubicTouches(k1, k0, -m1, -m0, width, -h);
  }

  lemma Backwards(width: real, m0: real, m1: real, h: real)
    requires width > 0.0
    ensures Product(width, -m1) == -Product(width, m1) && Product(width, -m0) == -Product(width, m0)
    ensures Ratio(-h, width) == -Ratio(h, width) && Product(-m1, -h) == Product(m1, h) && Product(-h, -h) == Product(h, h)
  {
    QuotientProduct(h, width);
    QuotientIs(-h, width, -(h / width));
  }

  lemma FarBack(h: real)
    ensures Far(-h) == Far(h)
  {
  }

  lemma MirroredShare(a: real, b: real, h: real)
    requires a < b
    ensures Ratio(b + h - a, b - a) == 1.0 + Ratio(h, b - a)
  {
    var w := b - a;
    QuotientProduct(h, w);
    QuotientIs(b + h - a, w, 1.0 + h / w);
  }

  // ---------------------------------------------------------------- the slopes of the spans

  /** At its first point a cubic span has that point's slope. */
  lemma TouchesFirst(points: seq<RampPoint>, upper: nat)
    requires Increasing(points) && 0 < upper < |points|
    ensures Touches((t: real) => CubicSpan(points, upper, t), points[upper - 1].position, points[upper - 1].value, SlopeAt(points, upper - 1))
  {
    hide Cubic, SlopeAt, Far, Most, Product, Ratio, Increasing;
    var a, b, w := points[upper - 1], points[upper], Width(points, upper);
    var m0, m1 := SlopeAt(points, upper - 1), SlopeAt(points, upper);
    var d0, d1 := Product(w, m0), Product(w, m1);
    var most := Most(a.value, b.value, d0, d1, w);
    var f := (t: real) => CubicSpan(points, upper, t);
    forall h: real | Far(h) <= 1.0 ensures LeavesLittle(f, a.position, a.value, m0, most, h) {
      assert a.position + h - a.position == h;
      assert f(a.position + h) == Cubic(a.value, b.value, d0, d1, Ratio(h, w));
      CubicTouches(a.value, b.value, m0, m1, w, h);
    }
    assert LeavesShare(f, a.position, a.value, m0, most);
  }

  /** And at its second point it has that one's. */
  lemma TouchesSecond(points: seq<RampPoint>, upper: nat)
    requires Increasing(points) && 0 < upper < |points|
    ensures Touches((t: real) => CubicSpan(points, upper, t), points[upper].position, points[upper].value, SlopeAt(points, upper))
  {
    hide Cubic, SlopeAt, Far, Most, Product, Ratio, Increasing;
    var a, b, w := points[upper - 1], points[upper], Width(points, upper);
    var m0, m1 := SlopeAt(points, upper - 1), SlopeAt(points, upper);
    var d0, d1 := Product(w, m0), Product(w, m1);
    var most := Most(b.value, a.value, Product(w, -m1), Product(w, -m0), w);
    var f := (t: real) => CubicSpan(points, upper, t);
    forall h: real | Far(h) <= 1.0 ensures LeavesLittle(f, b.position, b.value, m1, most, h) {
      MirroredShare(a.position, b.position, h);
      assert f(b.position + h) == Cubic(a.value, b.value, d0, d1, 1.0 + Ratio(h, w));
      BackTouches(a.value, b.value, m0, m1, w, h);
    }
    assert LeavesShare(f, b.position, b.value, m1, most);
  }

  /** Two neighbouring cubic spans go through their common point with one slope, that of the line past it. */
  lemma CubicSpansSmooth(points: seq<RampPoint>, k: nat)
    requires Increasing(points) && 0 < k < |points| - 1
    ensures Touches((t: real) => CubicSpan(points, k, t), points[k].position, points[k].value, SlopeAt(points, k))
    ensures Touches((t: real) => CubicSpan(points, k + 1, t), points[k].position, points[k].value, SlopeAt(points, k))
    ensures SlopeAt(points, k) * (points[k + 1].position - points[k - 1].position) == points[k + 1].value - points[k - 1].value
  {
    hide Touches, CubicSpan;
    TouchesSecond(points, k);
    TouchesFirst(points, k + 1);
    Before(points, k - 1, k + 1);
    QuotientProduct(points[k + 1].value - points[k - 1].value, points[k + 1].position - points[k - 1].position);
  }
}
