/** The cubic curve through a guide: a uniform spline whose ends are continued by reflection. */
module SplineCurve {
  import opened Geometry

  function Plus(a: Vec3, b: Vec3): Vec3 { Vec3(a.x + b.x, a.y + b.y, a.z + b.z) }

  // ---------------------------------------------------------------- evaluating the curve

  function Squared(f: real): real { f * f }

  function Cubed(f: real): real { f * (f * f) }

  function Weight0(f: real): real { Cubed(1.0 - f) }

  function Weight1(f: real): real { 3.0 * Cubed(f) - 6.0 * Squared(f) + 4.0 }

  function Weight2(f: real): real { -3.0 * Cubed(f) + 3.0 * Squared(f) + 3.0 * f + 1.0 }

  function Weight3(f: real): real { Cubed(f) }

  function Blend(p0: Vec3, p1: Vec3, p2: Vec3, p3: Vec3, f: real): Vec3 {
    Scaled(Plus(Plus(Plus(Scaled(p0, Weight0(f)), Scaled(p1, Weight1(f))), Scaled(p2, Weight2(f))), Scaled(p3, Weight3(f))),
           1.0 / 6.0)
  }

  /** The curve over one span of the control polygon; beyond either end it is continued by reflection. */
  function SpanAt(points: seq<Vec3>, span: nat, f: real): Vec3
    requires span + 1 < |points|
  {
    var n := |points|;
    var p0 := if span == 0 then Minus(Scaled(points[0], 2.0), points[1]) else points[span - 1];
    var p3 := if span + 2 == n then Minus(Scaled(points[n - 1], 2.0), points[n - 2]) else points[span + 2];
    Blend(p0, points[span], points[span + 1], p3, f)
  }

  const EPSILON: real := 0.0000001

  /** The curve at a parameter from 0 to 1. */
  function CurveAt(points: seq<Vec3>, t: real): Vec3
    requires |points| >= 2
  {
    if t < EPSILON then points[0]
    else if t > 1.0 - EPSILON then points[|points| - 1]
    else
      var scaled := t * (|points| - 1) as real;
      SpanInside(t, |points| - 1);
      SpanAt(points, scaled.Floor, scaled - scaled.Floor as real)
  }

  /** Between the cut-offs the parameter falls inside a span. */
  lemma SpanInside(t: real, spans: nat)
    requires EPSILON <= t <= 1.0 - EPSILON && spans >= 1
    ensures 0 <= (t * spans as real).Floor < spans
  {
    var s := spans as real;
    NonNegativeProduct(t, s);
    NonNegativeProduct(1.0 - EPSILON - t, s);
    assert t * s <= (1.0 - EPSILON) * s < s;
  }

  /** The weights are not negative and add up to six. */
  lemma WeightsConvex(f: real)
    requires 0.0 <= f <= 1.0
    ensures Weight0(f) >= 0.0 && Weight1(f) >= 0.0 && Weight2(f) >= 0.0 && Weight3(f) >= 0.0
    ensures Weight0(f) + Weight1(f) + Weight2(f) + Weight3(f) == 6.0
  {
    PowersInOrder(f);
    PowersInOrder(1.0 - f);
    PowersOfRest(f);
    hide Squared, Cubed;
  }

  lemma PowersOfRest(f: real)
    ensures Squared(1.0 - f) == 1.0 - 2.0 * f + Squared(f)
    ensures Cubed(1.0 - f) == 1.0 - 3.0 * f + 3.0 * Squared(f) - Cubed(f)
  {
    var f2, g := f * f, 1.0 - f;
    assert g * g == 1.0 - 2.0 * f + f2;
    var g2 := 1.0 - 2.0 * f + f2;
    assert g * g2 == g2 - f * g2;
    assert f * g2 == f - 2.0 * (f * f) + f * f2;
  }

  lemma PowersInOrder(f: real)
    requires 0.0 <= f <= 1.0
    ensures 0.0 <= Cubed(f) <= Squared(f) <= f
  {
    NonNegativeProduct(f, f);
    NonNegativeProduct(1.0 - f, f);
    NonNegativeProduct(1.0 - f, f * f);
    NonNegativeProduct(f, f * f);
  }

  /** What a span gives at its start and at its end. */
  lemma BlendAtEnds(p0: Vec3, p1: Vec3, p2: Vec3, p3: Vec3)
    ensures Blend(p0, p1, p2, p3, 0.0) == Third(p0, p1, p2) && Blend(p0, p1, p2, p3, 1.0) == Third(p1, p2, p3)
  {
    WeightsAtEnds();
    hide Weight0, Weight1, Weight2, Weight3;
    Coordinate(p0.x, p1.x, p2.x, p3.x);
    Coordinate(p0.y, p1.y, p2.y, p3.y);
    Coordinate(p0.z, p1.z, p2.z, p3.z);
  }

  /** One part of each neighbour and four of the middle. */
  function Third(a: Vec3, b: Vec3, c: Vec3): Vec3 {
    Vec3((a.x + 4.0 * b.x + c.x) / 6.0, (a.y + 4.0 * b.y + c.y) / 6.0, (a.z + 4.0 * b.z + c.z) / 6.0)
  }

  lemma Coordinate(a: real, b: real, c: real, d: real)
    ensures (a * 1.0 + b * 4.0 + c * 1.0 + d * 0.0) * (1.0 / 6.0) == (a + 4.0 * b + c) / 6.0
    ensures (a * 0.0 + b * 1.0 + c * 4.0 + d * 1.0) * (1.0 / 6.0) == (b + 4.0 * c + d) / 6.0
  {
  }

  lemma WeightsAtEnds()
    ensures Weight0(0.0) == 1.0 && Weight1(0.0) == 4.0 && Weight2(0.0) == 1.0 && Weight3(0.0) == 0.0
    ensures Weight0(1.0) == 0.0 && Weight1(1.0) == 1.0 && Weight2(1.0) == 4.0 && Weight3(1.0) == 1.0
  {
    PowersAtEnds();
    hide Squared, Cubed;
  }

  lemma PowersAtEnds()
    ensures Squared(0.0) == 0.0 && Cubed(0.0) == 0.0 && Squared(1.0) == 1.0 && Cubed(1.0) == 1.0
  {
  }

  /** Neighbouring spans meet: the end of one is the start of the next. */
  lemma SpansMeet(points: seq<Vec3>, span: nat)
    requires span + 2 < |points|
    ensures SpanAt(points, span, 1.0) == SpanAt(points, span + 1, 0.0)
  {
    hide Blend, Third;
    var n := |points|;
    var p0 := if span == 0 then Minus(Scaled(points[0], 2.0), points[1]) else points[span - 1];
    var p4 := if span + 3 == n then Minus(Scaled(points[n - 1], 2.0), points[n - 2]) else points[span + 3];
    BlendAtEnds(p0, points[span], points[span + 1], points[span + 2]);
    BlendAtEnds(points[span], points[span + 1], points[span + 2], p4);
  }

  /** Thanks to the reflection, the curve starts at the first point. */
  lemma CurveStart(points: seq<Vec3>)
    requires |points| >= 2
    ensures SpanAt(points, 0, 0.0) == points[0]
  {
    hide Blend, Third, Minus, Scaled;
    var n := |points|;
    var a, b := Minus(Scaled(points[0], 2.0), points[1]), Minus(Scaled(points[n - 1], 2.0), points[n - 2]);
    BlendAtEnds(a, points[0], points[1], if n == 2 then b else points[2]);
    Reflected(points[0], points[1]);
  }

  /** And ends at the last. */
  lemma CurveEnd(points: seq<Vec3>)
    requires |points| >= 2
    ensures SpanAt(points, |points| - 2, 1.0) == points[|points| - 1]
  {
    hide Blend, Third, Minus, Scaled;
    var n := |points|;
    var a, b := Minus(Scaled(points[0], 2.0), points[1]), Minus(Scaled(points[n - 1], 2.0), points[n - 2]);
    BlendAtEnds(if n == 2 then a else points[n - 3], points[n - 2], points[n - 1], b);
    Reflected(points[n - 1], points[n - 2]);
  }

  lemma Reflected(p: Vec3, q: Vec3)
    ensures Third(Minus(Scaled(p, 2.0), q), p, q) == p && Third(q, p, Minus(Scaled(p, 2.0), q)) == p
  {
  }

  // ---------------------------------------------------------------- the curve as a whole

  /** The parameter at the share f of a span. */
  function SpanParameter(span: nat, f: real, spans: nat): real
    requires spans > 0
  {
    (span as real + f) / spans as real
  }

  /** Between the cut-offs the curve runs through its spans, one after the other, each at its own share. */
  lemma CurveInSpan(points: seq<Vec3>, span: nat, f: real)
    requires span + 1 < |points| && 0.0 <= f <= 1.0 && EPSILON <= SpanParameter(span, f, |points| - 1) <= 1.0 - EPSILON
    ensures CurveAt(points, SpanParameter(span, f, |points| - 1)) == SpanAt(points, span, f)
  {
    hide *;
    var spans := |points| - 1;
    var t := SpanParameter(span, f, spans);
    ScaledBack(span, f, spans);
    if f == 1.0 {
      CurveIs(points, t, span + 1, 0.0);
      SpansMeet(points, span);
    } else {
      CurveIs(points, t, span, f);
    }
  }

  lemma CurveIs(points: seq<Vec3>, t: real, span: nat, f: real)
    requires |points| >= 2 && EPSILON <= t <= 1.0 - EPSILON
    requires var scaled := t * (|points| - 1) as real; scaled.Floor == span && scaled - scaled.Floor as real == f
    ensures span + 1 < |points| && CurveAt(points, t) == SpanAt(points, span, f)
  {
    SpanInside(t, |points| - 1);
    hide SpanAt;
  }

  lemma ScaledBack(span: nat, f: real, spans: nat)
    requires spans > 0 && 0.0 <= f <= 1.0
    ensures var scaled := SpanParameter(span, f, spans) * spans as real;
      && scaled == span as real + f
      && (f < 1.0 ==> scaled.Floor == span && scaled - scaled.Floor as real == f)
      && (f == 1.0 ==> scaled.Floor == span + 1 && scaled - scaled.Floor as real == 0.0)
  {
    QuotientProduct(span as real + f, spans as real);
  }

  // ---------------------------------------------------------------- what the weights reproduce

  /**
   The weights reproduce polynomials: over the places -1, 0, 1 and 2 of the four points they give six times the value
   at f of 1, of f, of f squared and a third, and of f cubed and f. There are no other such weights.
   */
  lemma WeightMoments(f: real)
    ensures Weight0(f) + Weight1(f) + Weight2(f) + Weight3(f) == 6.0
    ensures -Weight0(f) + Weight2(f) + 2.0 * Weight3(f) == 6.0 * f
    ensures Weight0(f) + Weight2(f) + 4.0 * Weight3(f) == 6.0 * (f * f) + 2.0
    ensures -Weight0(f) + Weight2(f) + 8.0 * Weight3(f) == 6.0 * (f * f * f) + 6.0 * f
  {
    PowersOfRest(f);
    assert Cubed(f) == f * f * f && Squared(f) == f * f;
    hide Squared, Cubed;
  }

  /** Four numbers with these sums are the weights. */
  lemma MomentsDetermine(f: real, a: real, b: real, c: real, d: real)
    requires a + b + c + d == 6.0 && -a + c + 2.0 * d == 6.0 * f && a + c + 4.0 * d == 6.0 * (f * f) + 2.0
    requires -a + c + 8.0 * d == 6.0 * (f * f * f) + 6.0 * f
    ensures a == Weight0(f) && b == Weight1(f) && c == Weight2(f) && d == Weight3(f)
  {
    WeightMoments(f);
    hide Weight0, Weight1, Weight2, Weight3;
  }

  /** Evenly spaced points on a line. */
  ghost predicate OnLine(points: seq<Vec3>, a: Vec3, d: Vec3) {
    forall k :: 0 <= k < |points| ==> points[k] == Plus(a, Scaled(d, k as real))
  }

  function Mixed(a: real, b: real, c: real, d: real, f: real): real {
    (a * Weight0(f) + b * Weight1(f) + c * Weight2(f) + d * Weight3(f)) * (1.0 / 6.0)
  }

  lemma BlendMixes(p0: Vec3, p1: Vec3, p2: Vec3, p3: Vec3, f: real)
    ensures Blend(p0, p1, p2, p3, f)
         == Vec3(Mixed(p0.x, p1.x, p2.x, p3.x, f), Mixed(p0.y, p1.y, p2.y, p3.y, f), Mixed(p0.z, p1.z, p2.z, p3.z, f))
  {
    hide Weight0, Weight1, Weight2, Weight3, Minus;
  }

  function Along(a: real, d: real, s: real): real { a + d * s }

  lemma LineCoordinate(a: real, d: real, s: real, f: real)
    ensures Mixed(Along(a, d, s - 1.0), Along(a, d, s), Along(a, d, s + 1.0), Along(a, d, s + 2.0), f) == Along(a, d, s + f)
  {
    WeightMoments(f);
    hide Weight0, Weight1, Weight2, Weight3;
    LineSum(Along(a, d, s), d, f, Weight0(f), Weight1(f), Weight2(f), Weight3(f));
    Further(a, d, s, -1.0);
    Further(a, d, s, 1.0);
    Further(a, d, s, 2.0);
    Further(a, d, s, f);
    hide Along;
  }

  lemma Further(a: real, d: real, s: real, f: real)
    ensures Along(a, d, s + f) == Along(a, d, s) + d * f
  {
  }

  lemma LineSum(b: real, d: real, f: real, w0: real, w1: real, w2: real, w3: real)
    requires w0 + w1 + w2 + w3 == 6.0 && -w0 + w2 + 2.0 * w3 == 6.0 * f
    ensures ((b - d) * w0 + b * w1 + (b + d) * w2 + (b + 2.0 * d) * w3) * (1.0 / 6.0) == b + d * f
  {
    var sum := (b - d) * w0 + b * w1 + (b + d) * w2 + (b + 2.0 * d) * w3;
    assert sum == b * (w0 + w1 + w2 + w3) + d * (-w0 + w2 + 2.0 * w3);
    assert d * (6.0 * f) == 6.0 * (d * f);
  }

  lemma LineBlend(a: Vec3, d: Vec3, s: real, f: real)
    ensures Blend(Plus(a, Scaled(d, s - 1.0)), Plus(a, Scaled(d, s)), Plus(a, Scaled(d, s + 1.0)), Plus(a, Scaled(d, s + 2.0)), f)
         == Plus(a, Scaled(d, s + f))
  {
    hide *;
    BlendMixes(Plus(a, Scaled(d, s - 1.0)), Plus(a, Scaled(d, s)), Plus(a, Scaled(d, s + 1.0)), Plus(a, Scaled(d, s + 2.0)), f);
    Place(a, d, s - 1.0);
    Place(a, d, s);
    Place(a, d, s + 1.0);
    Place(a, d, s + 2.0);
    Place(a, d, s + f);
    LineCoordinate(a.x, d.x, s, f);
    LineCoordinate(a.y, d.y, s, f);
    LineCoordinate(a.z, d.z, s, f);
  }

  lemma Place(a: Vec3, d: Vec3, s: real)
    ensures Plus(a, Scaled(d, s)) == Vec3(Along(a.x, d.x, s), Along(a.y, d.y, s), Along(a.z, d.z, s))
  {
    var v := Scaled(d, s);
    assert v == Vec3(d.x * s, d.y * s, d.z * s);
  }

  /** A span of a line is a piece of the line, at even speed; the reflected ends continue it. */
  lemma LineSpan(points: seq<Vec3>, a: Vec3, d: Vec3, span: nat, f: real)
    requires OnLine(points, a, d) && span + 1 < |points|
    ensures SpanAt(points, span, f) == Plus(a, Scaled(d, span as real + f))
  {
    var s := span as real;
    hide Blend, Plus, Scaled, Minus;
    LineBlend(a, d, s, f);
    LineEnds(points, a, d);
    assert points[span] == Plus(a, Scaled(d, s)) && points[span + 1] == Plus(a, Scaled(d, (span + 1) as real));
    if span > 0 { assert points[span - 1] == Plus(a, Scaled(d, (span - 1) as real)); }
    if span + 2 < |points| { assert points[span + 2] == Plus(a, Scaled(d, (span + 2) as real)); }
  }

  lemma LineEnds(points: seq<Vec3>, a: Vec3, d: Vec3)
    requires OnLine(points, a, d) && |points| >= 2
    ensures Minus(Scaled(points[0], 2.0), points[1]) == Plus(a, Scaled(d, -1.0))
    ensures Minus(Scaled(points[|points| - 1], 2.0), points[|points| - 2]) == Plus(a, Scaled(d, |points| as real))
  {
    hide Plus, Scaled, Minus;
    var n := |points|;
    LineReflected(a, d, 0.0, 1.0);
    LineReflected(a, d, (n - 1) as real, (n - 2) as real);
    assert points[0] == Plus(a, Scaled(d, 0 as real)) && points[1] == Plus(a, Scaled(d, 1 as real));
    assert points[n - 1] == Plus(a, Scaled(d, (n - 1) as real)) && points[n - 2] == Plus(a, Scaled(d, (n - 2) as real));
    assert 2.0 * (n - 1) as real - (n - 2) as real == n as real;
  }

  lemma LineReflected(a: Vec3, d: Vec3, s: real, t: real)
    ensures Minus(Scaled(Plus(a, Scaled(d, s)), 2.0), Plus(a, Scaled(d, t))) == Plus(a, Scaled(d, 2.0 * s - t))
  {
    ReflectedCoordinate(a.x, d.x, s, t);
    ReflectedCoordinate(a.y, d.y, s, t);
    ReflectedCoordinate(a.z, d.z, s, t);
  }

  lemma ReflectedCoordinate(a: real, d: real, s: real, t: real)
    ensures (a + d * s) * 2.0 - (a + d * t) == a + d * (2.0 * s - t)
  {
  }

  /** The curve of evenly spaced points on a line is the line itself, between the cut-offs. */
  lemma LineCurve(points: seq<Vec3>, a: Vec3, d: Vec3, t: real)
    requires |points| >= 2 && OnLine(points, a, d) && EPSILON <= t <= 1.0 - EPSILON
    ensures CurveAt(points, t) == Plus(a, Scaled(d, t * (|points| - 1) as real))
  {
    var scaled := t * (|points| - 1) as real;
    SpanInside(t, |points| - 1);
    LineSpan(points, a, d, scaled.Floor, scaled - scaled.Floor as real);
    hide SpanAt;
  }
}
