/** Rebuilding a guide with points evenly spaced along its control polygon. */
module CurveRebuild {
  import opened Geometry
  import opened Wrappers
  import opened SplineCurve

  // ---------------------------------------------------------------- arc length

  function Prefix(lengths: seq<real>, k: nat): real
    requires k <= |lengths|
  {
    if k == 0 then 0.0 else Prefix(lengths, k - 1) + lengths[k - 1]
  }

  ghost predicate NonNegative(lengths: seq<real>) {
    forall k | 0 <= k < |lengths| :: lengths[k] >= 0.0
  }

  /** The first segment from `from` on that reaches the distance, or the last one. */
  function SegmentAt(lengths: seq<real>, distance: real, from: nat): (s: nat)
    requires from < |lengths|
    ensures from <= s < |lengths|
    decreases |lengths| - from
  {
    if from + 1 < |lengths| && distance > Prefix(lengths, from + 1) then SegmentAt(lengths, distance, from + 1) else from
  }

  function FractionAt(lengths: seq<real>, distance: real): real
    requires lengths != []
  {
    var s := SegmentAt(lengths, distance, 0);
    if lengths[s] > 0.0 then (distance - Prefix(lengths, s)) / lengths[s] else 0.0
  }

  /** The curve parameter of a distance along the polygon. */
  function ParameterAt(lengths: seq<real>, distance: real): real
    requires lengths != []
  {
    (SegmentAt(lengths, distance, 0) as real + FractionAt(lengths, distance)) / |lengths| as real
  }

  lemma {:induction false} PrefixMonotone(lengths: seq<real>, a: nat, b: nat)
    requires NonNegative(lengths) && a <= b <= |lengths|
    ensures Prefix(lengths, a) <= Prefix(lengths, b)
  {
    if a < b { PrefixMonotone(lengths, a, b - 1); }
  }

  /** The segment of a distance inside the polygon really contains it. */
  lemma {:induction false} SegmentContains(lengths: seq<real>, distance: real, from: nat)
    requires NonNegative(lengths) && from < |lengths| && Prefix(lengths, from) < distance <= Prefix(lengths, |lengths|)
    ensures var s := SegmentAt(lengths, distance, from);
      Prefix(lengths, s) < distance <= Prefix(lengths, s + 1)
    decreases |lengths| - from
  {
    if from + 1 < |lengths| && distance > Prefix(lengths, from + 1) { SegmentContains(lengths, distance, from + 1); }
  }

  /** Starting the search at any segment not beyond the answer finds the same answer. */
  lemma {:induction false} SearchFrom(lengths: seq<real>, distance: real, from: nat, to: nat)
    requires NonNegative(lengths) && from <= to < |lengths| && (from == to || distance > Prefix(lengths, to))
    ensures SegmentAt(lengths, distance, from) == SegmentAt(lengths, distance, to)
    decreases |lengths| - from
  {
    if from < to {
      PrefixMonotone(lengths, from + 1, to);
      SearchFrom(lengths, distance, from + 1, to);
    }
  }

  /** The walk: a distance inside the polygon lies on a segment of positive length, at a fraction in (0, 1]. */
  lemma FractionInside(lengths: seq<real>, distance: real)
    requires NonNegative(lengths) && lengths != [] && 0.0 < distance <= Prefix(lengths, |lengths|)
    ensures var s := SegmentAt(lengths, distance, 0);
      && lengths[s] > 0.0 && 0.0 < FractionAt(lengths, distance) <= 1.0
      && Prefix(lengths, s) + FractionAt(lengths, distance) * lengths[s] == distance
  {
    SegmentContains(lengths, distance, 0);
    var s := SegmentAt(lengths, distance, 0);
    assert Prefix(lengths, s + 1) == Prefix(lengths, s) + lengths[s];
    hide Prefix, SegmentAt;
    RatioInside(distance - Prefix(lengths, s), lengths[s]);
  }

  lemma RatioInside(a: real, b: real)
    requires 0.0 < a <= b
    ensures 0.0 < a / b <= 1.0 && a / b * b == a
  {
    var q := a / b;
    QuotientProduct(a, b);
    ScaledOrder(0.0, q, b);
    ScaledOrder(q, 1.0, b);
  }

  /** A larger distance never has a smaller parameter, and parameters lie in [0, 1]. */
  lemma ParameterMonotone(lengths: seq<real>, a: real, b: real)
    requires NonNegative(lengths) && lengths != [] && 0.0 < a <= b <= Prefix(lengths, |lengths|)
    ensures 0.0 <= ParameterAt(lengths, a) <= ParameterAt(lengths, b) <= 1.0
  {
    hide FractionAt, SegmentAt, Prefix, NonNegative;
    var s, t := SegmentAt(lengths, a, 0), SegmentAt(lengths, b, 0);
    var f, g := FractionAt(lengths, a), FractionAt(lengths, b);
    FractionInside(lengths, a);
    FractionInside(lengths, b);
    SegmentsMonotone(lengths, a, b, 0);
    if s == t { FractionsMonotone(f, g, lengths[s], a, b, Prefix(lengths, s)); }
    PositionsMonotone(s, t, f, g, |lengths|);
  }

  lemma PositionsMonotone(s: nat, t: nat, f: real, g: real, n: nat)
    requires s <= t < n && 0.0 < f <= 1.0 && 0.0 < g <= 1.0 && (s == t ==> f <= g)
    ensures 0.0 <= (s as real + f) / n as real <= (t as real + g) / n as real <= 1.0
  {
    QuotientMonotone(s as real + f, t as real + g, n as real);
  }

  lemma {:induction false} SegmentsMonotone(lengths: seq<real>, a: real, b: real, from: nat)
    requires from < |lengths| && a <= b
    ensures SegmentAt(lengths, a, from) <= SegmentAt(lengths, b, from)
    decreases |lengths| - from
  {
    if from + 1 < |lengths| && a > Prefix(lengths, from + 1) { SegmentsMonotone(lengths, a, b, from + 1); }
  }

  lemma FractionsMonotone(f: real, g: real, length: real, a: real, b: real, before: real)
    requires length > 0.0 && before + f * length == a && before + g * length == b && a <= b
    ensures f <= g
  {
    ScaledOrder(f, g, length);
  }

  lemma QuotientMonotone(u: real, v: real, n: real)
    requires 0.0 <= u <= v <= n && n > 0.0
    ensures 0.0 <= u / n <= v / n <= 1.0
  {
    var p, q := u / n, v / n;
    QuotientProduct(u, n);
    QuotientProduct(v, n);
    ScaledOrder(0.0, p, n);
    ScaledOrder(p, q, n);
    ScaledOrder(q, 1.0, n);
  }

  // ---------------------------------------------------------------- the rebuild

  function SegmentLength(root: real -> real, a: Vec3, b: Vec3): real {
    root(Dot(Minus(b, a), Minus(b, a)))
  }

  function Lengths(root: real -> real, points: seq<Vec3>): (r: seq<real>)
    requires points != []
    ensures |r| == |points| - 1
  {
    seq(|points| - 1, k requires 0 <= k < |points| - 1 => SegmentLength(root, points[k], points[k + 1]))
  }

  lemma LengthsNonNegative(root: real -> real, points: seq<Vec3>)
    requires points != [] && IsRoot(root)
    ensures NonNegative(Lengths(root, points))
  {
    hide Dot;
    forall k | 0 <= k < |points| - 1 ensures Lengths(root, points)[k] >= 0.0 {
      SquareSum(Minus(points[k + 1], points[k]));
    }
  }

  /** The distance of output point k of n. */
  function EvenStep(total: real, n: nat): real
    requires n >= 2
  {
    total / (n - 1) as real
  }

  function Spaced(total: real, k: nat, n: nat): real
    requires n >= 2
  {
    k as real * EvenStep(total, n)
  }

  /** Where output point k of n lies, strictly between the ends. */
  function InnerPoint(root: real -> real, points: seq<Vec3>, k: nat, n: nat): Vec3
    requires |points| >= 2 && n >= 2
  {
    var lengths := Lengths(root, points);
    var total := Prefix(lengths, |lengths|);
    CurveAt(points, if total < EPSILON then k as real / (n - 1) as real else ParameterAt(lengths, Spaced(total, k, n)))
  }

  lemma SpacedInside(total: real, k: nat, n: nat)
    requires total > 0.0 && 0 < k < n - 1
    ensures 0.0 < Spaced(total, k, n) < total
    ensures Spaced(total, k - 1, n) + EvenStep(total, n) == Spaced(total, k, n)
  {
    var step, m := total / (n - 1) as real, (n - 1) as real;
    QuotientProduct(total, m);
    ScaledOrder(0.0, step, m);
    ScaledOrder(0.0, k as real, step);
    ScaledOrder(k as real, m, step);
    DifferenceProduct(k as real, 1.0, step);
    assert (k - 1) as real == k as real - 1.0;
  }

  lemma PrefixStep(lengths: seq<real>, k: nat)
    requires 0 < k <= |lengths|
    ensures Prefix(lengths, k) == Prefix(lengths, k - 1) + lengths[k - 1] && Prefix(lengths, 0) == 0.0
  {
  }

  /** The lengths of the segments, taken from the last to the first, and their sum. */
  method MeasureLengths(root: real -> real, points: seq<Vec3>) returns (lengths: array<real>, total: real)
    requires |points| >= 2
    ensures fresh(lengths) && lengths[..] == Lengths(root, points)
    ensures total == Prefix(lengths[..], lengths.Length)
  {
    hide SegmentLength, Prefix;
    var n := |points| - 1;
    ghost var all := Lengths(root, points);
    lengths := new real[n];
    total := 0.0;
    var index := n;
    while index > 0
      invariant 0 <= index <= n
      invariant forall k | index <= k < n :: lengths[k] == all[k]
      invariant Prefix(all, index) + total == Prefix(all, n)
    {
      var length := SegmentLength(root, points[index - 1], points[index]);
      PrefixStep(all, index);
      lengths[index - 1] := length;
      total := total + length;
      index := index - 1;
    }
    assert lengths[..] == all;
    PrefixStep(all, n);
  }

  /** Walks on from a segment until it contains the distance; `steps` counts the segments it leaves behind. */
  method Advance(lengths: seq<real>, ghost distance: real, from: nat, rest: real)
    returns (segment: nat, remaining: real, ghost steps: nat)
    requires NonNegative(lengths) && from < |lengths|
    requires rest == distance - Prefix(lengths, from) && SegmentAt(lengths, distance, from) == SegmentAt(lengths, distance, 0)
    ensures segment == SegmentAt(lengths, distance, 0) && remaining == distance - Prefix(lengths, segment)
    ensures segment == from + steps < |lengths|
  {
    segment, remaining, steps := from, rest, 0;
    while segment + 1 < |lengths| && remaining > lengths[segment]
      invariant segment == from + steps < |lengths| && remaining == distance - Prefix(lengths, segment)
      invariant SegmentAt(lengths, distance, segment) == SegmentAt(lengths, distance, 0)
    {
      assert Prefix(lengths, segment + 1) == Prefix(lengths, segment) + lengths[segment];
      remaining := remaining - lengths[segment];
      segment := segment + 1;
      steps := steps + 1;
    }
    assert segment + 1 < |lengths| ==> Prefix(lengths, segment + 1) == Prefix(lengths, segment) + lengths[segment];
  }

  /** The next distance is searched from the segment that holds the previous one. */
  lemma ContinueSearch(lengths: seq<real>, before: real, distance: real)
    requires NonNegative(lengths) && lengths != [] && 0.0 <= before <= distance && Prefix(lengths, |lengths|) >= distance
    ensures SegmentAt(lengths, distance, SegmentAt(lengths, before, 0)) == SegmentAt(lengths, distance, 0)
  {
    var s := SegmentAt(lengths, before, 0);
    if s > 0 {
      Reached(lengths, before, 0);
      SearchFrom(lengths, distance, 0, s);
    }
  }

  lemma {:induction false} Reached(lengths: seq<real>, distance: real, from: nat)
    requires NonNegative(lengths) && from < |lengths| && SegmentAt(lengths, distance, from) > from
    ensures distance > Prefix(lengths, SegmentAt(lengths, distance, from))
    decreases |lengths| - from
  {
    if SegmentAt(lengths, distance, from + 1) > from + 1 { Reached(lengths, distance, from + 1); }
  }

  // ---------------------------------------------------------------- a straight guide

  lemma {:induction false} EqualPrefix(lengths: seq<real>, length: real, k: nat)
    requires k <= |lengths| && forall i | 0 <= i < |lengths| :: lengths[i] == length
    ensures Prefix(lengths, k) == k as real * length
  {
    if k > 0 {
      EqualPrefix(lengths, length, k - 1);
      Distributed((k - 1) as real, length);
    }
  }

  lemma Distributed(k: real, length: real)
    ensures k * length + length == (k + 1.0) * length
  {
  }

  lemma LineLengths(root: real -> real, points: seq<Vec3>, a: Vec3, d: Vec3)
    requires points != [] && OnLine(points, a, d)
    ensures forall k | 0 <= k < |points| - 1 :: Lengths(root, points)[k] == root(Dot(d, d))
  {
    hide Dot;
    forall k | 0 <= k < |points| - 1 ensures Lengths(root, points)[k] == root(Dot(d, d)) {
      assert points[k] == Plus(a, Scaled(d, k as real)) && points[k + 1] == Plus(a, Scaled(d, (k + 1) as real));
      StepIs(a, d, k as real);
    }
  }

  lemma StepIs(a: Vec3, d: Vec3, s: real)
    ensures Minus(Plus(a, Scaled(d, s + 1.0)), Plus(a, Scaled(d, s))) == d
  {
  }

  /** Between segments of one length, parameter and distance are proportional. */
  lemma EvenParameter(lengths: seq<real>, length: real, distance: real)
    requires lengths != [] && length > 0.0 && (forall i | 0 <= i < |lengths| :: lengths[i] == length)
    requires 0.0 < distance <= Prefix(lengths, |lengths|)
    ensures ParameterAt(lengths, distance) * (|lengths| as real * length) == distance
  {
    hide Prefix, SegmentAt, FractionAt;
    var s, n := SegmentAt(lengths, distance, 0), |lengths| as real;
    FractionInside(lengths, distance);
    EqualPrefix(lengths, length, s);
    Proportional(s as real, FractionAt(lengths, distance), n, length);
  }

  lemma Proportional(s: real, f: real, n: real, length: real)
    requires n > 0.0
    ensures (s + f) / n * (n * length) == s * length + f * length
  {
    QuotientProduct(s + f, n);
    var q := (s + f) / n;
    assert q * (n * length) == (q * n) * length;
  }

  /** The parameter of an output point of a straight guide is its even share. */
  lemma LineParameter(root: real -> real, points: seq<Vec3>, a: Vec3, d: Vec3, k: nat, n: nat)
    requires IsRoot(root) && |points| >= 2 && 0 < k < n - 1 && OnLine(points, a, d)
    ensures InnerPoint(root, points, k, n) == CurveAt(points, k as real / (n - 1) as real)
  {
    hide *;
    var lengths, length := Lengths(root, points), root(Dot(d, d));
    LineLengths(root, points, a, d);
    var total := Prefix(lengths, |lengths|);
    if total >= EPSILON {
      PositiveTotal(total);
      EqualPrefix(lengths, length, |lengths|);
      RootLength(root, d);
      EvenShares(lengths, length, total, k, n);
      InnerPointIs(root, points, k, n);
    } else {
      InnerPointEven(root, points, k, n);
    }
  }

  lemma RootLength(root: real -> real, d: Vec3)
    requires IsRoot(root)
    ensures root(Dot(d, d)) >= 0.0
  {
    SquareSum(d);
    hide Dot;
  }

  lemma InnerPointEven(root: real -> real, points: seq<Vec3>, k: nat, n: nat)
    requires |points| >= 2 && n >= 2 && Prefix(Lengths(root, points), |Lengths(root, points)|) < EPSILON
    ensures InnerPoint(root, points, k, n) == CurveAt(points, k as real / (n - 1) as real)
  {
    hide CurveAt, Lengths, Prefix;
  }

  lemma EvenShares(lengths: seq<real>, length: real, total: real, k: nat, n: nat)
    requires lengths != [] && length >= 0.0 && (forall i | 0 <= i < |lengths| :: lengths[i] == length) && 0 < k < n - 1
    requires total == Prefix(lengths, |lengths|) == |lengths| as real * length && total > 0.0
    ensures ParameterAt(lengths, Spaced(total, k, n)) == k as real / (n - 1) as real
  {
    hide Prefix, ParameterAt, Spaced;
    LengthPositive(|lengths| as real, length, total);
    SpacedInside(total, k, n);
    EvenParameter(lengths, length, Spaced(total, k, n));
    SpacedIs(total, k, n);
    EvenShare(ParameterAt(lengths, Spaced(total, k, n)), total, k as real, (n - 1) as real);
  }

  lemma SpacedIs(total: real, k: nat, n: nat)
    requires n >= 2
    ensures Spaced(total, k, n) == k as real * (total / (n - 1) as real)
  {
  }

  lemma LengthPositive(count: real, length: real, total: real)
    requires length >= 0.0 && total == count * length && total > 0.0
    ensures length > 0.0
  {
    if length == 0.0 { assert count * length == count * 0.0; }
  }

  lemma EvenShare(parameter: real, total: real, k: real, m: real)
    requires total > 0.0 && m > 0.0 && parameter * total == k * (total / m)
    ensures parameter == k / m
  {
    var q := k / m;
    QuotientProduct(k, m);
    QuotientProduct(total, m);
    var step := total / m;
    assert q * total == q * (step * m) == (q * m) * step == k * step;
    assert (parameter - q) * total == 0.0;
  }

  /** An output point that the curve's cut-offs leave alone. */
  predicate InsideCuts(k: nat, n: nat) {
    n >= 2 && EPSILON <= k as real / (n - 1) as real <= 1.0 - EPSILON
  }

  /** Up to ten million and one output points, the cut-offs catch none but the ends. */
  lemma CutsCatchEnds(k: nat, n: nat)
    requires 0 < k < n - 1 && n <= 10_000_001
    ensures InsideCuts(k, n)
  {
    var m, x := (n - 1) as real, k as real;
    assert 1.0 <= x <= m - 1.0 && m <= 10_000_000.0 && EPSILON * 10_000_000.0 == 1.0;
    ShareInside(x, m, EPSILON);
  }

  lemma ShareInside(x: real, m: real, e: real)
    requires 1.0 <= x <= m - 1.0 && m <= 10_000_000.0 && e > 0.0 && e * 10_000_000.0 == 1.0
    ensures e <= x / m <= 1.0 - e
  {
    var cut := e * m;
    ScaledOrder(m, 10_000_000.0, e);
    Commuted(e, m);
    QuotientProduct(x, m);
    Share(x / m, x, m, e, cut);
  }

  lemma Commuted(a: real, b: real)
    ensures a * b == b * a
  {
  }

  lemma Share(q: real, x: real, m: real, e: real, cut: real)
    requires m > 0.0 && q * m == x && cut == e * m && cut <= x <= m - cut
    ensures e <= q <= 1.0 - e
  {
    ScaledOrder(e, q, m);
    DifferenceProduct(1.0, e, m);
    ScaledOrder(q, 1.0 - e, m);
  }

  /** A straight guide with even points stays one: output point k of n is k shares of n - 1 along it. */
  ghost predicate StaysStraight(points: seq<Vec3>, r: seq<Vec3>) {
    forall a, d, k | OnLine(points, a, d) && 0 < k < |r| - 1 && InsideCuts(k, |r|) ::
      r[k] == Plus(a, Scaled(d, k as real / (|r| - 1) as real * (|points| - 1) as real))
  }

  lemma RebuiltLine(root: real -> real, points: seq<Vec3>, r: seq<Vec3>)
    requires IsRoot(root) && |points| >= 2 && forall k | 0 < k < |r| - 1 :: r[k] == InnerPoint(root, points, k, |r|)
    ensures StaysStraight(points, r)
  {
    hide InnerPoint, CurveAt, OnLine;
    forall a, d, k | OnLine(points, a, d) && 0 < k < |r| - 1 && InsideCuts(k, |r|)
      ensures r[k] == Plus(a, Scaled(d, k as real / (|r| - 1) as real * (|points| - 1) as real))
    {
      LineParameter(root, points, a, d, k, |r|);
      LineCurve(points, a, d, k as real / (|r| - 1) as real);
    }
  }

  /**
   Rebuilds a guide with evenly spaced points. The ends are kept, and every inner point is the curve at
   the parameter whose distance along the control polygon is its even share; a polygon without length
   falls back to even parameters.
   */
  method RebuildUniform(root: real -> real, points: seq<Vec3>, count: nat) returns (r: Option<seq<Vec3>>, ghost steps: nat)
    requires IsRoot(root)
    ensures steps == 0 || steps <= |points| - 2
    ensures r.None? <==> points == []
    ensures r.Some? ==> var n := if count < 3 then 3 else count;
      |r.value| == n && r.value[0] == points[0] && r.value[n - 1] == points[|points| - 1]
    ensures r.Some? && |points| == 1 ==> forall k | 0 <= k < |r.value| :: r.value[k] == points[0]
    ensures r.Some? && |points| >= 2 ==> forall k | 0 < k < |r.value| - 1 :: r.value[k] == InnerPoint(root, points, k, |r.value|)
    ensures r.Some? && |points| >= 2 ==> StaysStraight(points, r.value)
  {
    hide *;
    steps := 0;
    if points == [] { return None, 0; }
    var n := if count < 3 then 3 else count;
    if |points| == 1 { return Some(seq(n, _ => points[0])), 0; }
    var lengths, total := MeasureLengths(root, points);
    LengthsNonNegative(root, points);
    var result := new Vec3[n](_ => points[0]);
    if total < EPSILON {
      for k := 0 to n
        invariant forall i | 0 <= i < k :: result[i] == CurveAt(points, i as real / (n - 1) as real)
      {
        result[k] := CurveAt(points, k as real / (n - 1) as real);
      }
      EvenEnds(points, n);
      forall i | 0 < i < n - 1 ensures result[i] == InnerPoint(root, points, i, n) { InnerPointEven(root, points, i, n); }
    } else {
      steps := WalkSegments(root, points, lengths[..], total, result);
      result[n - 1] := points[|points| - 1];
    }
    r := Some(result[..]);
    RebuiltLine(root, points, r.value);
  }

  lemma EvenEnds(points: seq<Vec3>, n: nat)
    requires |points| >= 2 && n >= 3
    ensures CurveAt(points, 0 as real / (n - 1) as real) == points[0]
    ensures CurveAt(points, (n - 1) as real / (n - 1) as real) == points[|points| - 1]
  {
    var m := (n - 1) as real;
    assert 0.0 / m == 0.0 && m / m == 1.0;
  }

  /**
   Fills in the inner points. The walk over the segments only ever moves forward: in all it leaves each
   segment but the last behind at most once.
   */
  method WalkSegments(root: real -> real, points: seq<Vec3>, lengths: seq<real>, total: real, result: array<Vec3>)
    returns (ghost steps: nat)
    requires |points| >= 2 && result.Length >= 3 && lengths == Lengths(root, points) && NonNegative(lengths)
    requires total == Prefix(lengths, |lengths|) && total >= EPSILON
    modifies result
    ensures result[0] == old(result[0])
    ensures forall k | 0 < k < result.Length - 1 :: result[k] == InnerPoint(root, points, k, result.Length)
    ensures steps <= |lengths| - 1
  {
    hide *;
    var n := result.Length;
    var step := EvenStep(total, n);
    var remaining := 0.0;
    var segment: nat := 0;
    steps := 0;
    PositiveTotal(total);
    WalkStart(root, points, total, n);
    for k := 1 to n - 1
      invariant result[0] == old(result[0])
      invariant segment == SegmentAt(lengths, Spaced(total, k - 1, n), 0)
      invariant remaining == Spaced(total, k - 1, n) - Prefix(lengths, segment)
      invariant forall i | 0 < i < k :: result[i] == InnerPoint(root, points, i, n)
      invariant steps == segment < |lengths|
    {
      ghost var more;
      var point;
      segment, remaining, point, more := WalkOn(root, points, lengths, total, n, k, segment, remaining + step);
      steps := steps + more;
      result[k] := point;
    }
  }

  /** The walk begins on the first segment. */
  lemma WalkStart(root: real -> real, points: seq<Vec3>, total: real, n: nat)
    requires |points| >= 2 && n >= 3 && NonNegative(Lengths(root, points))
    ensures var lengths := Lengths(root, points);
      && lengths != [] && SegmentAt(lengths, Spaced(total, 0, n), 0) == 0
      && Spaced(total, 0, n) - Prefix(lengths, 0) == 0.0
  {
    NoDistance(Lengths(root, points));
    assert Spaced(total, 0, n) == 0.0;
    hide Lengths, SegmentAt, Prefix, NonNegative;
  }

  /** Walks on to the next evenly spaced distance, and takes the curve's point there. */
  method WalkOn(ghost root: real -> real, points: seq<Vec3>, lengths: seq<real>, ghost total: real, ghost n: nat, ghost k: nat,
                from: nat, rest: real)
    returns (segment: nat, remaining: real, point: Vec3, ghost steps: nat)
    requires |points| >= 2 && n >= 3 && 0 < k < n - 1 && lengths == Lengths(root, points) && NonNegative(lengths)
    requires total == Prefix(lengths, |lengths|) >= EPSILON
    requires from == SegmentAt(lengths, Spaced(total, k - 1, n), 0) < |lengths|
    requires rest == Spaced(total, k - 1, n) - Prefix(lengths, from) + EvenStep(total, n)
    ensures segment == SegmentAt(lengths, Spaced(total, k, n), 0) == from + steps < |lengths|
    ensures remaining == Spaced(total, k, n) - Prefix(lengths, segment)
    ensures point == InnerPoint(root, points, k, n)
  {
    hide *;
    PositiveTotal(total);
    StepOn(total, k, n);
    ContinueSearch(lengths, Spaced(total, k - 1, n), Spaced(total, k, n));
    segment, remaining, steps := Advance(lengths, Spaced(total, k, n), from, rest);
    WalkedPoint(root, points, lengths, total, k, n);
    point := CurveAt(points, Parameter(lengths, segment, remaining));
  }

  lemma PositiveTotal(total: real)
    requires total >= EPSILON
    ensures total > 0.0
  {
  }

  lemma WalkedPoint(root: real -> real, points: seq<Vec3>, lengths: seq<real>, total: real, k: nat, n: nat)
    requires |points| >= 2 && n >= 3 && lengths == Lengths(root, points) && total == Prefix(lengths, |lengths|) >= EPSILON
    ensures var distance := Spaced(total, k, n);
      var s := SegmentAt(lengths, distance, 0);
      InnerPoint(root, points, k, n) == CurveAt(points, Parameter(lengths, s, distance - Prefix(lengths, s)))
  {
    hide Lengths, CurveAt, SegmentAt, Prefix, InnerPoint, Spaced, ParameterAt, Parameter;
    ParameterOfWalk(lengths, Spaced(total, k, n));
    InnerPointIs(root, points, k, n);
  }

  function Parameter(lengths: seq<real>, segment: nat, remaining: real): real
    requires segment < |lengths|
  {
    (segment as real + if lengths[segment] > 0.0 then remaining / lengths[segment] else 0.0) / |lengths| as real
  }

  lemma ParameterOfWalk(lengths: seq<real>, distance: real)
    requires lengths != []
    ensures var s := SegmentAt(lengths, distance, 0);
      ParameterAt(lengths, distance) == Parameter(lengths, s, distance - Prefix(lengths, s))
  {
  }

  lemma InnerPointIs(root: real -> real, points: seq<Vec3>, k: nat, n: nat)
    requires |points| >= 2 && n >= 2
    ensures var lengths := Lengths(root, points);
      var total := Prefix(lengths, |lengths|);
      total >= EPSILON ==> InnerPoint(root, points, k, n) == CurveAt(points, ParameterAt(lengths, Spaced(total, k, n)))
  {
    hide CurveAt, ParameterAt, Spaced;
  }

  lemma StepOn(total: real, k: nat, n: nat)
    requires total > 0.0 && 0 < k < n - 1
    ensures 0.0 <= Spaced(total, k - 1, n) <= Spaced(total, k, n) <= total
    ensures Spaced(total, k, n) == Spaced(total, k - 1, n) + EvenStep(total, n)
  {
    SpacedInside(total, k, n);
    if k > 1 { SpacedInside(total, k - 1, n); }
    RatioPositive(total, (n - 1) as real);
  }

  lemma RatioPositive(a: real, b: real)
    requires a > 0.0 && b > 0.0
    ensures a / b > 0.0
  {
    QuotientProduct(a, b);
    ScaledOrder(0.0, a / b, b);
  }

  lemma NoDistance(lengths: seq<real>)
    requires NonNegative(lengths) && lengths != []
    ensures SegmentAt(lengths, 0.0, 0) == 0 && Prefix(lengths, 0) == 0.0
  {
    PrefixMonotone(lengths, 0, 1);
  }
}
