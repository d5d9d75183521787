/** The support of one guide: the weight it has at a root, by distance, direction and alignment. */
module GuideSupport {
  import opened Geometry

  /** A guide's support: the broad radius and one more radius for each angle. */
  datatype Guide = Guide(root: Vec3, normal: Vec3, tangent: Vec3, radii: seq<real>, angles: seq<real>)

  /** What the import makes of support metadata: no sign or order is asked of the numbers. */
  predicate ValidSupport(g: Guide) {
    |g.radii| == |g.angles| + 1
  }

  // ---------------------------------------------------------------- the weight of one guide

  /** The first angle greater than the given one. */
  function UpperBound(angles: seq<real>, angle: real, from: nat): (k: nat)
    requires from <= |angles|
    ensures from <= k <= |angles|
    decreases |angles| - from
  {
    if from == |angles| || angles[from] > angle then from else UpperBound(angles, angle, from + 1)
  }

  function Clamp(x: real, low: real, high: real): real {
    if x < low then low else if x > high then high else x
  }

  /** The angle on a turn of length four, from a cosine and the side. */
  function AngleOf(cosine: real, side: real): real {
    var angle := 1.0 - cosine * (if cosine < 0.0 then -cosine else cosine);
    if side < 0.0 then 4.0 - angle else angle
  }

  /** The angle of a direction around the guide. */
  function TurnOf(root: real -> real, g: Guide, direction: Vec3): real {
    var length := root(Dot(direction, direction));
    var unit := if length == 0.0 then direction else Scaled(direction, 1.0 / length);
    var cosine := Clamp(Dot(unit, g.tangent), -1.0, 1.0);
    AngleOf(cosine, Dot(Cross(unit, g.tangent), g.normal))
  }

  /** The radius at an angle, blended between the two neighbouring angles around the turn. */
  function RadiusAt(g: Guide, angle: real): real
    requires ValidSupport(g) && g.angles != []
  {
    var n := |g.angles|;
    var upper := UpperBound(g.angles, angle, 0);
    var wraps := upper == 0 || upper == n;
    var lower, next := if wraps then n - 1 else upper - 1, if wraps then 0 else upper;
    var lowAngle := g.angles[lower] - if upper == 0 then 4.0 else 0.0;
    var nextAngle := g.angles[next] + if upper == n then 4.0 else 0.0;
    var denominator := nextAngle - lowAngle;
    if !(denominator > 0.0) then g.radii[next + 1]
    else
      var blend := Clamp((angle - lowAngle) / denominator, 0.0, 1.0);
      g.radii[lower + 1] * (1.0 - blend) + g.radii[next + 1] * blend
  }

  function DirectionalRadius(root: real -> real, g: Guide, direction: Vec3): real
    requires ValidSupport(g)
  {
    if g.angles == [] || !(Dot(direction, direction) > 0.00000000000000000001) then g.radii[0]
    else RadiusAt(g, TurnOf(root, g, direction))
  }

  const COS_EIGHTY_DEGREES: real := 0.1736481785774230957

  function GuideWeight(root: real -> real, g: Guide, position: Vec3, normal: Vec3): real
    requires ValidSupport(g)
  {
    var alignment := Dot(normal, g.normal);
    var offset := Minus(position, g.root);
    var squared := Dot(offset, offset);
    if !(alignment >= 0.0) then 0.0
    else if !(squared < g.radii[0] * g.radii[0]) then 0.0
    else
      var projected := Minus(offset, Scaled(g.normal, Dot(offset, g.normal)));
      var radius := DirectionalRadius(root, g, projected);
      if !(radius > 0.0) then 0.0
      else
        var fall := 1.0 - root(squared) / radius;
        (if fall > 0.0 then fall else 0.0)
        * (if alignment < COS_EIGHTY_DEGREES then alignment / COS_EIGHTY_DEGREES else 1.0)
  }

  /** A blend of two radii lies between them. */
  lemma BlendBounds(a: real, b: real, t: real, low: real, high: real)
    requires low <= a <= high && low <= b <= high && 0.0 <= t <= 1.0
    ensures low <= a * (1.0 - t) + b * t <= high
  {
    NonNegativeProduct(a - low, 1.0 - t);
    NonNegativeProduct(b - low, t);
    NonNegativeProduct(high - a, 1.0 - t);
    NonNegativeProduct(high - b, t);
  }

  /** A directional radius lies between the guide's smallest and largest radius. */
  lemma RadiusBounds(root: real -> real, g: Guide, direction: Vec3, low: real, high: real)
    requires ValidSupport(g) && forall k | 0 <= k < |g.radii| :: low <= g.radii[k] <= high
    ensures low <= DirectionalRadius(root, g, direction) <= high
  {
    hide Dot, RadiusAt, TurnOf;
    if g.angles != [] && Dot(direction, direction) > 0.00000000000000000001 {
      BetweenRadii(g, TurnOf(root, g, direction), low, high);
    }
  }

  /** Towards any angle, only the radii of the angles count. */
  lemma BetweenRadii(g: Guide, angle: real, low: real, high: real)
    requires ValidSupport(g) && g.angles != [] && forall k | 1 <= k < |g.radii| :: low <= g.radii[k] <= high
    ensures low <= RadiusAt(g, angle) <= high
  {
    hide UpperBound;
    var n := |g.angles|;
    var upper := UpperBound(g.angles, angle, 0);
    var wraps := upper == 0 || upper == n;
    var lower, next := if wraps then n - 1 else upper - 1, if wraps then 0 else upper;
    var lowAngle := g.angles[lower] - if upper == 0 then 4.0 else 0.0;
    var nextAngle := g.angles[next] + if upper == n then 4.0 else 0.0;
    var denominator := nextAngle - lowAngle;
    var a, b := g.radii[lower + 1], g.radii[next + 1];
    assert low <= a <= high && low <= b <= high;
    if denominator > 0.0 {
      var blend := Clamp((angle - lowAngle) / denominator, 0.0, 1.0);
      BlendBounds(a, b, blend, low, high);
      assert RadiusAt(g, angle) == a * (1.0 - blend) + b * blend;
    } else {
      assert RadiusAt(g, angle) == b;
    }
  }

  /** A weight lies between zero and one, and it is zero at or beyond the broad radius. */
  lemma WeightBounds(root: real -> real, g: Guide, position: Vec3, normal: Vec3)
    requires ValidSupport(g) && IsRoot(root)
    ensures 0.0 <= GuideWeight(root, g, position, normal) <= 1.0
    ensures var offset := Minus(position, g.root);
      Dot(offset, offset) >= g.radii[0] * g.radii[0] ==> GuideWeight(root, g, position, normal) == 0.0
  {
    var alignment := Dot(normal, g.normal);
    var offset := Minus(position, g.root);
    var squared := Dot(offset, offset);
    hide Dot, DirectionalRadius;
    if alignment >= 0.0 && squared < g.radii[0] * g.radii[0] {
      var radius := DirectionalRadius(root, g, Minus(offset, Scaled(g.normal, Dot(offset, g.normal))));
      if radius > 0.0 {
        SquareSum(offset);
        FallBounds(root(squared), radius);
        var fall := 1.0 - root(squared) / radius;
        var fade := if alignment < COS_EIGHTY_DEGREES then alignment / COS_EIGHTY_DEGREES else 1.0;
        UnitProduct(if fall > 0.0 then fall else 0.0, fade);
      }
    }
  }

  lemma FallBounds(distance: real, radius: real)
    requires distance >= 0.0 && radius > 0.0
    ensures 1.0 - distance / radius <= 1.0
  {
    var q := distance / radius;
    assert q * radius == distance;
    if q < 0.0 { NonNegativeProduct(-q, radius); }
  }

  lemma UnitProduct(a: real, b: real)
    requires 0.0 <= a <= 1.0 && 0.0 <= b <= 1.0
    ensures 0.0 <= a * b <= 1.0
  {
    NonNegativeProduct(1.0 - a, b);
    NonNegativeProduct(a, b);
  }

  // ---------------------------------------------------------------- the direction around the guide

  function Abs(x: real): real { if x < 0.0 then -x else x }

  /**
   The turn of a direction, without a root: a full turn is 4. On the side of the normal it runs from 0 along the tangent
   to 2 against it, and on the other side on from 2 to 4; in between, its distance from the quarter is the signed square
   of the cosine. A tangent longer than one cannot take the cosine beyond one.
   */
  ghost predicate IsTurn(g: Guide, d: Vec3, turn: real) {
    var p, squared, back := Dot(d, g.tangent), Dot(d, d), Dot(Cross(d, g.tangent), g.normal) < 0.0;
    if p * p <= squared then (if back then turn - 3.0 else 1.0 - turn) * squared == p * Abs(p)
    else turn == (if p > 0.0 then (if back then 4.0 else 0.0) else 2.0)
  }

  lemma TurnMeans(root: real -> real, g: Guide, d: Vec3)
    requires IsRoot(root) && Dot(d, d) > 0.0
    ensures IsTurn(g, d, TurnOf(root, g, d)) && 0.0 <= TurnOf(root, g, d) <= 4.0
  {
    hide Dot, Cross, TurnOf, AngleOf, Clamp;
    var squared := Dot(d, d);
    var length := root(squared);
    PositiveRoot(length, squared);
    var f := 1.0 / length;
    Inverse(length);
    var p, side := Dot(d, g.tangent), Dot(Cross(d, g.tangent), g.normal);
    TurnIs(root, g, d, length, f, p * f, side * f);
    SignKept(side, f);
    AngleMeans(p, side * f, length, f, squared, p * f);
  }

  lemma TurnIs(root: real -> real, g: Guide, d: Vec3, length: real, f: real, c: real, side: real)
    requires length == root(Dot(d, d)) && length > 0.0 && f == 1.0 / length
    requires c == Dot(d, g.tangent) * f && side == Dot(Cross(d, g.tangent), g.normal) * f
    ensures TurnOf(root, g, d) == AngleOf(Clamp(c, -1.0, 1.0), side)
  {
    hide Dot, Cross, Scaled, AngleOf, Clamp;
    ScaledDot(d, g.tangent, f);
    ScaledSide(d, g.tangent, g.normal, f);
  }

  lemma PositiveRoot(length: real, squared: real)
    requires length >= 0.0 && length * length == squared && squared > 0.0
    ensures length > 0.0
  {
    if length == 0.0 { assert length * length == 0.0 * length; }
  }

  lemma Inverse(length: real)
    requires length > 0.0
    ensures 1.0 / length > 0.0 && (1.0 / length) * length == 1.0
  {
  }

  lemma AngleMeans(p: real, side: real, length: real, f: real, squared: real, c: real)
    requires length > 0.0 && f > 0.0 && f * length == 1.0 && length * length == squared && c == p * f
    ensures var turn := AngleOf(Clamp(c, -1.0, 1.0), side);
      && 0.0 <= turn <= 4.0
      && if p * p <= squared then (if side < 0.0 then turn - 3.0 else 1.0 - turn) * squared == p * Abs(p)
         else turn == (if p > 0.0 then (if side < 0.0 then 4.0 else 0.0) else 2.0)
  {
    hide AngleOf, Abs, Signed;
    CosineSquare(p, length, f);
    AngleBounds(Clamp(c, -1.0, 1.0), side);
    if p * p <= squared { CosineLaw(p, length, f); }
  }

  lemma ScaledDot(a: Vec3, b: Vec3, f: real)
    ensures Dot(Scaled(a, f), b) == Dot(a, b) * f
  {
  }

  lemma ScaledSide(a: Vec3, b: Vec3, n: Vec3, f: real)
    ensures Dot(Cross(Scaled(a, f), b), n) == Dot(Cross(a, b), n) * f
  {
    var c := Cross(a, b);
    ScaledDifference(a.y, b.z, a.z, b.y, f);
    ScaledDifference(a.z, b.x, a.x, b.z, f);
    ScaledDifference(a.x, b.y, a.y, b.x, f);
    assert Cross(Scaled(a, f), b) == Scaled(c, f);
    hide Cross;
    ScaledDot(c, n, f);
  }

  lemma ScaledDifference(a: real, b: real, c: real, d: real, f: real)
    ensures (a * f) * b - (c * f) * d == (a * b - c * d) * f
  {
  }

  lemma SignKept(x: real, f: real)
    requires f > 0.0
    ensures x * f < 0.0 <==> x < 0.0
  {
    if x < 0.0 { StrictProduct(-x, f); } else { NonNegativeProduct(x, f); }
  }

  /** The cosine stays within one exactly as long as the projection stays within the length. */
  lemma CosineSquare(p: real, length: real, f: real)
    requires length > 0.0 && f > 0.0 && f * length == 1.0
    ensures p * p <= length * length <==> -1.0 <= p * f <= 1.0
    ensures p * p > length * length ==> (p > 0.0 <==> p * f > 1.0) && (p <= 0.0 <==> p * f < -1.0)
  {
    ScaledOrder(p, length, f);
    ScaledOrder(-length, p, f);
    ScaledOrder(length, p, f);
    ScaledOrder(p, -length, f);
    Within(p, length);
  }

  lemma Within(p: real, length: real)
    requires length > 0.0
    ensures p * p <= length * length <==> -length <= p <= length
  {
    var d := (length - p) * (length + p);
    assert d == length * length - p * p;
    if -length <= p <= length { NonNegativeProduct(length - p, length + p); }
    else if p > length { StrictProduct(p - length, length + p); }
    else { StrictProduct(length - p, -length - p); }
  }

  /** The signed square of a number. */
  function Signed(c: real): real { c * Abs(c) }

  lemma AngleBounds(c: real, side: real)
    requires -1.0 <= c <= 1.0
    ensures -1.0 <= Signed(c) <= 1.0 && (c == 1.0 || c == -1.0 ==> Signed(c) == c)
    ensures AngleOf(c, side) == if side < 0.0 then 3.0 + Signed(c) else 1.0 - Signed(c)
  {
    NonNegativeProduct(Abs(c), Abs(c));
    NonNegativeProduct(Abs(c), 1.0 - Abs(c));
  }

  lemma CosineLaw(p: real, length: real, f: real)
    requires length > 0.0 && f > 0.0 && f * length == 1.0
    ensures Signed(p * f) * (length * length) == p * Abs(p)
  {
    var c := p * f;
    SignKept(p, f);
    Regrouped(p, f, length);
    var m := Abs(c);
    assert m * length == Abs(p);
    Products(c, m, length, length);
  }

  lemma Regrouped(p: real, f: real, length: real)
    requires f * length == 1.0
    ensures p * f * length == p
  {
    assert p * f * length == p * (f * length);
  }

  // ---------------------------------------------------------------- between two angles

  /** The value on the straight line from (a, r) to (b, s). */
  ghost predicate OnLine(a: real, r: real, b: real, s: real, x: real, value: real) {
    value * (b - a) == r * (b - x) + s * (x - a)
  }

  /** The angles up to k are not beyond x, and the next one, if there is one, is. */
  ghost predicate FallsBehind(angles: seq<real>, k: int, x: real) {
    && -1 <= k < |angles| && (forall i :: 0 <= i <= k ==> angles[i] <= x) && (k + 1 < |angles| ==> x < angles[k + 1])
  }

  lemma {:induction false} UpperIs(angles: seq<real>, x: real, k: nat, from: nat)
    requires from <= k <= |angles| && (forall i :: from <= i < k ==> angles[i] <= x) && (k < |angles| ==> x < angles[k])
    ensures UpperBound(angles, x, from) == k
    decreases k - from
  {
    if from < k { UpperIs(angles, x, k, from + 1); }
  }

  /**
   The radius at a turn, without a blend: the two angles around it, the last and the first one a full turn apart where
   it lies outside all of them; the radii of the two joined by a straight line; and beyond a line the nearer end.
   */
  ghost predicate IsRadius(g: Guide, x: real, radius: real)
    requires ValidSupport(g) && g.angles != []
  {
    var n := |g.angles|;
    var first, last, r, s := g.angles[0], g.angles[n - 1], g.radii[n], g.radii[1];
    && (forall k :: 0 <= k < n - 1 && FallsBehind(g.angles, k, x) ==>
          OnLine(g.angles[k], g.radii[k + 1], g.angles[k + 1], g.radii[k + 2], x, radius))
    && (FallsBehind(g.angles, n - 1, x) ==> Joined(last, r, first + 4.0, s, x, radius))
    && (FallsBehind(g.angles, -1, x) ==> Joined(last - 4.0, r, first, s, x, radius))
  }

  ghost predicate Joined(a: real, r: real, b: real, s: real, x: real, radius: real) {
    if a >= b then radius == s
    else if x <= a then radius == r
    else if x >= b then radius == s
    else OnLine(a, r, b, s, x, radius)
  }

  function Blended(a: real, r: real, b: real, s: real, x: real): real {
    if !(b - a > 0.0) then s
    else
      var blend := Clamp((x - a) / (b - a), 0.0, 1.0);
      r * (1.0 - blend) + s * blend
  }

  lemma BlendedJoins(a: real, r: real, b: real, s: real, x: real)
    ensures Joined(a, r, b, s, x, Blended(a, r, b, s, x))
  {
    var d := b - a;
    if d > 0.0 {
      var q := (x - a) / d;
      QuotientProduct(x - a, d);
      if x <= a {
        if q > 0.0 { StrictProduct(q, d); }
      } else if x >= b {
        if q < 1.0 { StrictProduct(1.0 - q, d); }
      } else {
        if q <= 0.0 { NonNegativeProduct(-q, d); }
        if q >= 1.0 { NonNegativeProduct(q - 1.0, d); }
        LineOf(a, r, b, s, x, q);
      }
    }
  }

  lemma LineOf(a: real, r: real, b: real, s: real, x: real, q: real)
    requires q * (b - a) == x - a
    ensures OnLine(a, r, b, s, x, r * (1.0 - q) + s * q)
  {
    var d := b - a;
    var v := r * (1.0 - q) + s * q;
    assert v * d == r * (d - q * d) + s * (q * d);
  }

  lemma JoinedLine(a: real, r: real, b: real, s: real, x: real, radius: real)
    requires a < b && a <= x <= b && Joined(a, r, b, s, x, radius)
    ensures OnLine(a, r, b, s, x, radius)
  {
  }

  lemma RadiusBetween(g: Guide, x: real, k: nat)
    requires ValidSupport(g) && k + 1 < |g.angles| && FallsBehind(g.angles, k, x)
    ensures OnLine(g.angles[k], g.radii[k + 1], g.angles[k + 1], g.radii[k + 2], x, RadiusAt(g, x))
  {
    UpperIs(g.angles, x, k + 1, 0);
    var a, b, r, s := g.angles[k], g.angles[k + 1], g.radii[k + 1], g.radii[k + 2];
    hide UpperBound;
    assert RadiusAt(g, x) == Blended(a, r, b, s, x);
    hide RadiusAt, Blended;
    BlendedJoins(a, r, b, s, x);
    JoinedLine(a, r, b, s, x, RadiusAt(g, x));
  }

  lemma RadiusBehind(g: Guide, x: real)
    requires ValidSupport(g) && g.angles != [] && FallsBehind(g.angles, |g.angles| - 1, x)
    ensures Joined(g.angles[|g.angles| - 1], g.radii[|g.angles|], g.angles[0] + 4.0, g.radii[1], x, RadiusAt(g, x))
  {
    var n := |g.angles|;
    UpperIs(g.angles, x, n, 0);
    hide UpperBound;
    assert RadiusAt(g, x) == Blended(g.angles[n - 1], g.radii[n], g.angles[0] + 4.0, g.radii[1], x);
    BlendedJoins(g.angles[n - 1], g.radii[n], g.angles[0] + 4.0, g.radii[1], x);
  }

  lemma RadiusBefore(g: Guide, x: real)
    requires ValidSupport(g) && g.angles != [] && FallsBehind(g.angles, -1, x)
    ensures Joined(g.angles[|g.angles| - 1] - 4.0, g.radii[|g.angles|], g.angles[0], g.radii[1], x, RadiusAt(g, x))
  {
    var n := |g.angles|;
    UpperIs(g.angles, x, 0, 0);
    hide UpperBound;
    assert RadiusAt(g, x) == Blended(g.angles[n - 1] - 4.0, g.radii[n], g.angles[0], g.radii[1], x);
    BlendedJoins(g.angles[n - 1] - 4.0, g.radii[n], g.angles[0], g.radii[1], x);
  }

  lemma RadiusMeans(g: Guide, x: real)
    requires ValidSupport(g) && g.angles != []
    ensures IsRadius(g, x, RadiusAt(g, x))
  {
    hide RadiusAt, OnLine, Joined, FallsBehind;
    forall k | 0 <= k < |g.angles| - 1 && FallsBehind(g.angles, k, x)
      ensures OnLine(g.angles[k], g.radii[k + 1], g.angles[k + 1], g.radii[k + 2], x, RadiusAt(g, x))
    {
      RadiusBetween(g, x, k);
    }
    if FallsBehind(g.angles, |g.angles| - 1, x) { RadiusBehind(g, x); }
    if FallsBehind(g.angles, -1, x) { RadiusBefore(g, x); }
  }

  /** Angles of one turn in increasing order. */
  ghost predicate Ordered(angles: seq<real>) {
    && (forall k :: 0 <= k < |angles| ==> 0.0 <= angles[k] < 4.0)
    && (forall i, j :: 0 <= i < j < |angles| ==> angles[i] < angles[j])
  }

  lemma SameLine(a: real, r: real, b: real, s: real, x: real, v: real, w: real)
    requires a != b && OnLine(a, r, b, s, x, v) && OnLine(a, r, b, s, x, w)
    ensures v == w
  {
    assert (v - w) * (b - a) == 0.0;
  }

  lemma LineEnds(a: real, r: real, b: real, s: real)
    ensures OnLine(a, r, b, s, a, r) && OnLine(a, r, b, s, b, s)
  {
  }

  /** A full turn further it is the same line. */
  lemma LineShifted(a: real, r: real, b: real, s: real, x: real, v: real)
    ensures OnLine(a - 4.0, r, b, s, x, v) <==> OnLine(a, r, b + 4.0, s, x + 4.0, v)
  {
    assert b - (a - 4.0) == b + 4.0 - a && b - x == b + 4.0 - (x + 4.0) && x - (a - 4.0) == x + 4.0 - a;
  }

  /** At the angles themselves the radius is theirs. */
  lemma RadiusAtAngle(g: Guide, k: nat)
    requires ValidSupport(g) && Ordered(g.angles) && k < |g.angles|
    ensures RadiusAt(g, g.angles[k]) == g.radii[k + 1]
  {
    hide RadiusAt, OnLine;
    var x := g.angles[k];
    assert FallsBehind(g.angles, k, x);
    if k + 1 < |g.angles| {
      RadiusBetween(g, x, k);
      LineEnds(x, g.radii[k + 1], g.angles[k + 1], g.radii[k + 2]);
      SameLine(x, g.radii[k + 1], g.angles[k + 1], g.radii[k + 2], x, RadiusAt(g, x), g.radii[k + 1]);
    } else {
      RadiusBehind(g, x);
    }
  }

  /** The line from the last angle over the full turn to the first. */
  ghost predicate OverTurn(g: Guide, x: real, radius: real)
    requires ValidSupport(g) && g.angles != []
  {
    OnLine(g.angles[|g.angles| - 1], g.radii[|g.angles|], g.angles[0] + 4.0, g.radii[1], x, radius)
  }

  /**
   Around the turn the radius has no jumps: between neighbouring angles, both included, it follows the straight line
   of their radii, and so it does from the last angle over the full turn to the first.
   */
  lemma RadiusContinuous(g: Guide, x: real)
    requires ValidSupport(g) && Ordered(g.angles) && g.angles != []
    ensures forall k :: 0 <= k < |g.angles| - 1 && g.angles[k] <= x <= g.angles[k + 1] ==>
      OnLine(g.angles[k], g.radii[k + 1], g.angles[k + 1], g.radii[k + 2], x, RadiusAt(g, x))
    ensures g.angles[|g.angles| - 1] <= x <= 4.0 ==> OverTurn(g, x, RadiusAt(g, x))
    ensures 0.0 <= x <= g.angles[0] ==> OverTurn(g, x + 4.0, RadiusAt(g, x))
    ensures RadiusAt(g, 4.0) == RadiusAt(g, 0.0)
  {
    hide RadiusAt, OnLine, OverTurn;
    forall k | 0 <= k < |g.angles| - 1 && g.angles[k] <= x <= g.angles[k + 1]
      ensures OnLine(g.angles[k], g.radii[k + 1], g.angles[k + 1], g.radii[k + 2], x, RadiusAt(g, x))
    {
      Inside(g, k, x);
    }
    if g.angles[|g.angles| - 1] <= x <= 4.0 { Behind(g, x); }
    if 0.0 <= x <= g.angles[0] { Before(g, x); }
    Behind(g, 4.0);
    Before(g, 0.0);
    SameTurn(g, 4.0, RadiusAt(g, 4.0), RadiusAt(g, 0.0));
  }

  lemma SameTurn(g: Guide, x: real, v: real, w: real)
    requires ValidSupport(g) && Ordered(g.angles) && g.angles != [] && OverTurn(g, x, v) && OverTurn(g, x, w)
    ensures v == w
  {
    hide OnLine;
    SameLine(g.angles[|g.angles| - 1], g.radii[|g.angles|], g.angles[0] + 4.0, g.radii[1], x, v, w);
  }

  lemma Inside(g: Guide, k: nat, x: real)
    requires ValidSupport(g) && Ordered(g.angles) && k + 1 < |g.angles| && g.angles[k] <= x <= g.angles[k + 1]
    ensures OnLine(g.angles[k], g.radii[k + 1], g.angles[k + 1], g.radii[k + 2], x, RadiusAt(g, x))
  {
    hide RadiusAt, OnLine;
    if x == g.angles[k + 1] {
      RadiusAtAngle(g, k + 1);
      LineEnds(g.angles[k], g.radii[k + 1], g.angles[k + 1], g.radii[k + 2]);
    } else {
      assert FallsBehind(g.angles, k, x);
      RadiusBetween(g, x, k);
    }
  }

  lemma Behind(g: Guide, x: real)
    requires ValidSupport(g) && Ordered(g.angles) && g.angles != [] && g.angles[|g.angles| - 1] <= x <= 4.0
    ensures OverTurn(g, x, RadiusAt(g, x))
  {
    hide RadiusAt, OnLine;
    var n := |g.angles|;
    assert FallsBehind(g.angles, n - 1, x);
    RadiusBehind(g, x);
    JoinedLine(g.angles[n - 1], g.radii[n], g.angles[0] + 4.0, g.radii[1], x, RadiusAt(g, x));
  }

  lemma Before(g: Guide, x: real)
    requires ValidSupport(g) && Ordered(g.angles) && g.angles != [] && 0.0 <= x <= g.angles[0]
    ensures OverTurn(g, x + 4.0, RadiusAt(g, x))
  {
    hide RadiusAt, OnLine;
    var n := |g.angles|;
    if x == g.angles[0] {
      RadiusAtAngle(g, 0);
      LineEnds(g.angles[n - 1], g.radii[n], g.angles[0] + 4.0, g.radii[1]);
    } else {
      assert FallsBehind(g.angles, -1, x);
      RadiusBefore(g, x);
      JoinedLine(g.angles[n - 1] - 4.0, g.radii[n], g.angles[0], g.radii[1], x, RadiusAt(g, x));
      LineShifted(g.angles[n - 1], g.radii[n], g.angles[0], g.radii[1], x, RadiusAt(g, x));
    }
  }

  // ---------------------------------------------------------------- the weight as a value

  /** The radius towards a direction: the broad one where there are no angles or no direction. */
  ghost predicate IsRadiusTowards(g: Guide, d: Vec3, radius: real)
    requires ValidSupport(g)
  {
    if g.angles == [] || Dot(d, d) <= 0.00000000000000000001 then radius == g.radii[0]
    else exists turn :: IsTurn(g, d, turn) && IsRadius(g, turn, radius)
  }

  function Least(a: real, b: real): real { if a < b then a else b }

  function Part(x: real): real { if x > 0.0 then x else 0.0 }

  /**
   A weight, without quotients: nothing against the normal, at the broad radius or beyond, and towards a radius that is
   not positive; otherwise the share of the radius that is left beyond the distance, faded by the alignment below the
   cosine of eighty degrees.
   */
  ghost predicate Weighs(root: real -> real, g: Guide, position: Vec3, normal: Vec3, weight: real)
    requires ValidSupport(g)
  {
    var alignment, offset := Dot(normal, g.normal), Minus(position, g.root);
    var squared := Dot(offset, offset);
    var projected := Minus(offset, Scaled(g.normal, Dot(offset, g.normal)));
    if alignment < 0.0 || squared >= g.radii[0] * g.radii[0] then weight == 0.0
    else
      exists radius :: IsRadiusTowards(g, projected, radius)
        && if radius <= 0.0 then weight == 0.0
           else weight * (radius * COS_EIGHTY_DEGREES) == Part(radius - root(squared)) * Least(alignment, COS_EIGHTY_DEGREES)
  }

  lemma RadiusTowardsMeans(root: real -> real, g: Guide, d: Vec3)
    requires ValidSupport(g) && IsRoot(root)
    ensures IsRadiusTowards(g, d, DirectionalRadius(root, g, d))
  {
    hide Dot, TurnOf, RadiusAt, IsTurn, IsRadius;
    if g.angles != [] && Dot(d, d) > 0.00000000000000000001 {
      TurnMeans(root, g, d);
      RadiusMeans(g, TurnOf(root, g, d));
    }
  }

  lemma WeightMeans(root: real -> real, g: Guide, position: Vec3, normal: Vec3)
    requires ValidSupport(g) && IsRoot(root)
    ensures Weighs(root, g, position, normal, GuideWeight(root, g, position, normal))
  {
    hide Dot, DirectionalRadius, IsRadiusTowards;
    var alignment, offset := Dot(normal, g.normal), Minus(position, g.root);
    var squared := Dot(offset, offset);
    var projected := Minus(offset, Scaled(g.normal, Dot(offset, g.normal)));
    RadiusTowardsMeans(root, g, projected);
    var radius := DirectionalRadius(root, g, projected);
    if alignment >= 0.0 && squared < g.radii[0] * g.radii[0] && radius > 0.0 {
      FallAndFade(root(squared), radius, alignment);
    }
  }

  /** These conditions leave one weight only. */
  lemma WeighsOnce(root: real -> real, g: Guide, position: Vec3, normal: Vec3, v: real, w: real)
    requires ValidSupport(g) && Weighs(root, g, position, normal, v) && Weighs(root, g, position, normal, w)
    ensures v == w
  {
    hide Dot, IsRadiusTowards, Minus, Scaled, Part, Least;
    var alignment, offset := Dot(normal, g.normal), Minus(position, g.root);
    var squared := Dot(offset, offset);
    var d := Minus(offset, Scaled(g.normal, Dot(offset, g.normal)));
    if !(alignment < 0.0 || squared >= g.radii[0] * g.radii[0]) {
      var a :| IsRadiusTowards(g, d, a)
        && if a <= 0.0 then v == 0.0
           else v * (a * COS_EIGHTY_DEGREES) == Part(a - root(squared)) * Least(alignment, COS_EIGHTY_DEGREES);
      var b :| IsRadiusTowards(g, d, b)
        && if b <= 0.0 then w == 0.0
           else w * (b * COS_EIGHTY_DEGREES) == Part(b - root(squared)) * Least(alignment, COS_EIGHTY_DEGREES);
      TowardsOnce(g, d, a, b);
      if a > 0.0 { SameFactor(v, w, a * COS_EIGHTY_DEGREES); }
    }
  }

  lemma SameFactor(v: real, w: real, d: real)
    requires d != 0.0 && v * d == w * d
    ensures v == w
  {
    assert (v - w) * d == 0.0;
  }

  lemma TowardsOnce(g: Guide, d: Vec3, a: real, b: real)
    requires ValidSupport(g) && IsRadiusTowards(g, d, a) && IsRadiusTowards(g, d, b)
    ensures a == b
  {
    hide Dot, IsTurn, IsRadius;
    if g.angles != [] && Dot(d, d) > 0.00000000000000000001 {
      var s :| IsTurn(g, d, s) && IsRadius(g, s, a);
      var t :| IsTurn(g, d, t) && IsRadius(g, t, b);
      TurnOnce(g, d, s, t);
      RadiusOnce(g, s, a, b);
    }
  }

  lemma TurnOnce(g: Guide, d: Vec3, s: real, t: real)
    requires Dot(d, d) > 0.0 && IsTurn(g, d, s) && IsTurn(g, d, t)
    ensures s == t
  {
    var p, squared, back := Dot(d, g.tangent), Dot(d, d), Dot(Cross(d, g.tangent), g.normal) < 0.0;
    hide Dot, Cross;
    if p * p <= squared {
      SameFactor(if back then s - 3.0 else 1.0 - s, if back then t - 3.0 else 1.0 - t, squared);
    }
  }

  lemma RadiusOnce(g: Guide, x: real, a: real, b: real)
    requires ValidSupport(g) && g.angles != [] && IsRadius(g, x, a) && IsRadius(g, x, b)
    ensures a == b
  {
    var n := |g.angles|;
    var k := UpperBound(g.angles, x, 0) - 1;
    UpperFalls(g.angles, x, 0);
    if k == n - 1 {
      JoinedOnce(g.angles[n - 1], g.radii[n], g.angles[0] + 4.0, g.radii[1], x, a, b);
    } else if k == -1 {
      JoinedOnce(g.angles[n - 1] - 4.0, g.radii[n], g.angles[0], g.radii[1], x, a, b);
    } else {
      hide OnLine, Joined;
      assert FallsBehind(g.angles, k, x);
      SameLine(g.angles[k], g.radii[k + 1], g.angles[k + 1], g.radii[k + 2], x, a, b);
    }
  }

  lemma JoinedOnce(a: real, r: real, b: real, s: real, x: real, v: real, w: real)
    requires Joined(a, r, b, s, x, v) && Joined(a, r, b, s, x, w)
    ensures v == w
  {
    hide OnLine;
    if a < b && a < x < b { SameLine(a, r, b, s, x, v, w); }
  }

  lemma {:induction false} UpperFalls(angles: seq<real>, x: real, from: nat)
    requires from <= |angles| && forall i :: 0 <= i < from ==> angles[i] <= x
    ensures FallsBehind(angles, UpperBound(angles, x, from) - 1, x)
    decreases |angles| - from
  {
    if from < |angles| && angles[from] <= x { UpperFalls(angles, x, from + 1); }
  }

  lemma FallAndFade(distance: real, radius: real, alignment: real)
    requires radius > 0.0
    ensures var fall := 1.0 - distance / radius;
      (if fall > 0.0 then fall else 0.0)
      * (if alignment < COS_EIGHTY_DEGREES then alignment / COS_EIGHTY_DEGREES else 1.0) * (radius * COS_EIGHTY_DEGREES)
      == Part(radius - distance) * Least(alignment, COS_EIGHTY_DEGREES)
  {
    var fall := 1.0 - distance / radius;
    QuotientProduct(distance, radius);
    assert fall * radius == radius - distance;
    if fall > 0.0 { StrictProduct(fall, radius); } else { NonNegativeProduct(-fall, radius); }
    var x := if fall > 0.0 then fall else 0.0;
    var y := if alignment < COS_EIGHTY_DEGREES then alignment / COS_EIGHTY_DEGREES else 1.0;
    QuotientProduct(alignment, COS_EIGHTY_DEGREES);
    assert x * radius == Part(radius - distance);
    assert y * COS_EIGHTY_DEGREES == Least(alignment, COS_EIGHTY_DEGREES);
    Products(x, y, radius, COS_EIGHTY_DEGREES);
  }

  lemma Products(x: real, y: real, a: real, b: real)
    ensures x * y * (a * b) == (x * a) * (y * b)
  {
  }
}
