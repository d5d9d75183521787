/** The spatial index over guides: which guides influence a root, found through a grid of cells. */
module GuideIndex {
  import opened Geometry
  import opened Wrappers
  import opened Sorting
  import opened GuideSupport

  datatype Cell = Cell(x: int, y: int, z: int)

  datatype Box = Box(low: Vec3, high: Vec3)

  datatype Influence = Influence(index: nat, weight: real)

  // ---------------------------------------------------------------- the cells

  /** One coordinate of a cell, if it is a 32-bit integer. */
  function Coordinate(size: real, value: real): Option<int>
    requires size > 0.0
  {
    var scaled := (value / size).Floor;
    if scaled < -0x8000_0000 || scaled > 0x7fff_ffff then None else Some(scaled)
  }

  function CellOf(size: real, p: Vec3): Option<Cell>
    requires size > 0.0
  {
    var x :- Coordinate(size, p.x);
    var y :- Coordinate(size, p.y);
    var z :- Coordinate(size, p.z);
    Some(Cell(x, y, z))
  }

  predicate InFaceBox(g: Guide, box: Box)
    requires g.radii != []
  {
    var r := g.radii[0];
    && box.low.x - r < g.root.x < box.high.x + r
    && box.low.y - r < g.root.y < box.high.y + r
    && box.low.z - r < g.root.z < box.high.z + r
  }

  /**
   For a proper box and a positive radius the box test asks whether some point of the box is nearer than the radius in
   every coordinate.
   */
  lemma BoxMeans(g: Guide, box: Box)
    requires g.radii != [] && g.radii[0] > 0.0 && box.low.x <= box.high.x && box.low.y <= box.high.y && box.low.z <= box.high.z
    ensures InFaceBox(g, box) <==>
      exists p: Vec3 ::
        && box.low.x <= p.x <= box.high.x && box.low.y <= p.y <= box.high.y && box.low.z <= p.z <= box.high.z
        && Abs(p.x - g.root.x) < g.radii[0] && Abs(p.y - g.root.y) < g.radii[0] && Abs(p.z - g.root.z) < g.radii[0]
  {
    if InFaceBox(g, box) {
      var p := Vec3(Clamp(g.root.x, box.low.x, box.high.x), Clamp(g.root.y, box.low.y, box.high.y),
                    Clamp(g.root.z, box.low.z, box.high.z));
      assert box.low.x <= p.x <= box.high.x;
    }
  }

  /** A root on the surface: where it is, and the bounds of its face. */
  datatype Query = Query(position: Vec3, normal: Vec3, box: Box)

  ghost predicate ValidGuides(guides: seq<Guide>) {
    forall k | 0 <= k < |guides| :: ValidSupport(guides[k])
  }

  /** The scaled weight of a guide at a root; `scale` is the region map's factor. */
  function WeightOf(root: real -> real, scale: nat -> real, guides: seq<Guide>, q: Query, k: nat): real
    requires k < |guides| && ValidSupport(guides[k])
  {
    GuideWeight(root, guides[k], q.position, q.normal) * scale(k)
  }

  const THRESHOLD: real := 0.00001

  predicate Influences(root: real -> real, scale: nat -> real, guides: seq<Guide>, q: Query, k: nat)
    requires k < |guides| && ValidSupport(guides[k])
  {
    Reached(root, scale(k), guides[k], q)
  }

  /** Whether a guide passes the box test with enough weight, scaled by a factor. */
  predicate Reached(root: real -> real, factor: real, g: Guide, q: Query)
    requires ValidSupport(g)
  {
    InFaceBox(g, q.box) && GuideWeight(root, g, q.position, q.normal) * factor > THRESHOLD
  }

  /** Brute force: every guide in turn, kept when it passes the box test with enough weight. */
  function AllInfluences(root: real -> real, scale: nat -> real, guides: seq<Guide>, q: Query, n: nat): seq<Influence>
    requires n <= |guides| && forall k | 0 <= k < |guides| :: ValidSupport(guides[k])
  {
    if n == 0 then []
    else
      AllInfluences(root, scale, guides, q, n - 1)
      + if Influences(root, scale, guides, q, n - 1)
        then [Influence(n - 1, WeightOf(root, scale, guides, q, n - 1))] else []
  }

  /** The cells of two points closer than a cell size differ by at most one in each coordinate. */
  lemma NearFloor(size: real, a: real, b: real)
    requires size > 0.0 && -size < a - b < size
    ensures -1 <= (a / size).Floor - (b / size).Floor <= 1
  {
    var u, v := a / size, b / size;
    assert u * size == a && v * size == b;
    if u - v >= 1.0 { NonNegativeProduct(u - v - 1.0, size); }
    if v - u >= 1.0 { NonNegativeProduct(v - u - 1.0, size); }
    assert (u - v) * size == a - b;
  }

  lemma SmallSquare(d: real, r: real)
    requires r >= 0.0 && d * d < r * r
    ensures -r < d < r
  {
    if d >= r { SquareMonotone(r, d); }
    if -d >= r { SquareMonotone(r, -d); }
  }

  lemma SquareMonotone(a: real, b: real)
    requires 0.0 <= a <= b
    ensures a * a <= b * b
  {
    NonNegativeProduct(b - a, b + a);
    assert (b - a) * (b + a) == b * b - a * a;
  }

  predicate Adjacent(a: Cell, b: Cell) {
    -1 <= a.x - b.x <= 1 && -1 <= a.y - b.y <= 1 && -1 <= a.z - b.z <= 1
  }

  /**
   Whether a guide's weight cannot reach beyond one cell. Only a guide whose broad radius is below minus the
   cell size can fail this, by a radius of one of its angles.
   */
  predicate WithinReach(radii: seq<real>, size: real)
    requires radii != []
  {
    radii[0] <= size && (-radii[0] <= size || forall k :: 1 <= k < |radii| ==> radii[k] * (1.0 - THRESHOLD) <= size)
  }

  /** A guide that is reached is closer than its directional radius by the threshold's share. */
  lemma ReachedDistance(root: real -> real, factor: real, g: Guide, q: Query)
    requires ValidSupport(g) && IsRoot(root) && 0.0 <= factor <= 1.0 && Reached(root, factor, g, q)
    ensures var offset := Minus(q.position, g.root);
      var radius := DirectionalRadius(root, g, Minus(offset, Scaled(g.normal, Dot(offset, g.normal))));
      && Dot(offset, offset) < g.radii[0] * g.radii[0]
      && radius > 0.0 && root(Dot(offset, offset)) < radius * (1.0 - THRESHOLD)
  {
    hide Dot, DirectionalRadius, InFaceBox;
    var alignment := Dot(q.normal, g.normal);
    var offset := Minus(q.position, g.root);
    var radius := DirectionalRadius(root, g, Minus(offset, Scaled(g.normal, Dot(offset, g.normal))));
    var distance := root(Dot(offset, offset));
    assert radius > 0.0;
    var fall := 1.0 - distance / radius;
    var fade := if alignment < COS_EIGHTY_DEGREES then alignment / COS_EIGHTY_DEGREES else 1.0;
    var reached := (if fall > 0.0 then fall else 0.0) * fade;
    var weight := GuideWeight(root, g, q.position, q.normal);
    assert weight != 0.0;
    assert weight == reached;
    SmallerProduct(if fall > 0.0 then fall else 0.0, fade);
    SmallerProduct(reached, factor);
    assert fall > THRESHOLD;
    ScaledQuotient(distance, radius, 1.0 - THRESHOLD);
  }

  /** A quotient is below a bound exactly when the dividend is below that share of the divisor. */
  lemma ScaledQuotient(a: real, b: real, bound: real)
    requires b > 0.0
    ensures a / b < bound <==> a < b * bound
  {
    QuotientProduct(a, b);
    ScaledOrder(a / b, bound, b);
    Commuted(b, bound);
  }

  lemma Commuted(a: real, b: real)
    ensures a * b == b * a
  {
  }

  lemma SmallerProduct(a: real, b: real)
    requires 0.0 <= a && 0.0 <= b <= 1.0
    ensures 0.0 <= a * b <= a
  {
    NonNegativeProduct(a, b);
    NonNegativeProduct(a, 1.0 - b);
  }

  /** A reached guide within its reach is closer than the cell size. */
  lemma ReachedIsClose(root: real -> real, factor: real, g: Guide, q: Query, size: real)
    requires ValidSupport(g) && IsRoot(root) && 0.0 <= factor <= 1.0 && Reached(root, factor, g, q)
    requires size > 0.0 && WithinReach(g.radii, size)
    ensures var offset := Minus(q.position, g.root); Dot(offset, offset) < size * size
  {
    var broad := g.radii[0];
    hide *;
    var offset := Minus(q.position, g.root);
    var direction := Minus(offset, Scaled(g.normal, Dot(offset, g.normal)));
    ReachedDistance(root, factor, g, q);
    ReachBounds(root, g, direction, size);
    SquareSum(offset);
    RootBelow(root, Dot(offset, offset), broad, DirectionalRadius(root, g, direction), size);
  }

  /** A guide within its reach either has no large broad radius, or no large radius in a direction. */
  lemma ReachBounds(root: real -> real, g: Guide, direction: Vec3, size: real)
    requires ValidSupport(g) && size > 0.0 && WithinReach(g.radii, size) && DirectionalRadius(root, g, direction) > 0.0
    ensures -size <= g.radii[0] <= size || DirectionalRadius(root, g, direction) * (1.0 - THRESHOLD) <= size
  {
    if g.radii[0] < -size { ReachingRadius(root, g, direction, size); }
  }

  lemma RootBelow(root: real -> real, squared: real, broad: real, radius: real, size: real)
    requires IsRoot(root) && 0.0 <= squared < broad * broad && size > 0.0 && root(squared) < radius * (1.0 - THRESHOLD)
    requires -size <= broad <= size || radius * (1.0 - THRESHOLD) <= size
    ensures squared < size * size
  {
    var reach := radius * (1.0 - THRESHOLD);
    if -size <= broad <= size {
      SquareMonotone(if broad < 0.0 then -broad else broad, size);
    } else {
      SquareLess(root(squared), size);
    }
  }

  /** With a negative broad radius, a positive radius in some direction is one of the angles'. */
  lemma ReachingRadius(root: real -> real, g: Guide, direction: Vec3, size: real)
    requires ValidSupport(g) && size > 0.0 && g.radii[0] < 0.0 && DirectionalRadius(root, g, direction) > 0.0
    requires forall k | 1 <= k < |g.radii| :: g.radii[k] * (1.0 - THRESHOLD) <= size
    ensures DirectionalRadius(root, g, direction) * (1.0 - THRESHOLD) <= size
  {
    hide Dot, RadiusAt, TurnOf;
    var high := size / (1.0 - THRESHOLD);
    QuotientProduct(size, 1.0 - THRESHOLD);
    forall k | 1 <= k < |g.radii| ensures g.radii[k] <= high {
      ScaledOrder(g.radii[k], high, 1.0 - THRESHOLD);
    }
    BetweenRadii(g, TurnOf(root, g, direction), LeastRadius(g.radii), high);
    ScaledOrder(DirectionalRadius(root, g, direction), high, 1.0 - THRESHOLD);
  }

  function LeastRadius(radii: seq<real>): (low: real)
    requires radii != []
    ensures forall k | 0 <= k < |radii| :: low <= radii[k]
  {
    if |radii| == 1 then radii[0]
    else
      var rest := LeastRadius(radii[1..]);
      assert forall k | 1 <= k < |radii| :: radii[k] == radii[1..][k - 1];
      if radii[0] < rest then radii[0] else rest
  }

  lemma SquareLess(a: real, b: real)
    requires 0.0 <= a < b
    ensures a * a < b * b
  {
    StrictProduct(b - a, b + a);
    assert (b - a) * (b + a) == b * b - a * a;
  }

  /** A guide within its reach that has some weight at a root lies in one of the 27 cells around it. */
  lemma InfluenceIsNear(root: real -> real, factor: real, g: Guide, q: Query, size: real)
    requires ValidSupport(g) && IsRoot(root) && 0.0 <= factor <= 1.0 && Reached(root, factor, g, q)
    requires size > 0.0 && WithinReach(g.radii, size)
    requires CellOf(size, q.position).Some? && CellOf(size, g.root).Some?
    ensures Adjacent(CellOf(size, g.root).value, CellOf(size, q.position).value)
  {
    ReachedIsClose(root, factor, g, q, size);
    hide Reached, Dot, CellOf;
    CloseCells(size, q.position, g.root);
  }

  /** Points closer than the cell size lie in adjacent cells. */
  lemma CloseCells(size: real, p: Vec3, g: Vec3)
    requires size > 0.0 && Dot(Minus(p, g), Minus(p, g)) < size * size
    requires CellOf(size, p).Some? && CellOf(size, g).Some?
    ensures Adjacent(CellOf(size, g).value, CellOf(size, p).value)
  {
    hide Dot, Coordinate;
    var d, far := Minus(p, g), size * size;
    SquareSum(d);
    assert d.x * d.x < far && d.y * d.y < far && d.z * d.z < far;
    CloseCoordinate(size, p.x, g.x, d.x);
    CloseCoordinate(size, p.y, g.y, d.y);
    CloseCoordinate(size, p.z, g.z, d.z);
  }

  lemma CloseCoordinate(size: real, a: real, b: real, d: real)
    requires size > 0.0 && d == a - b && d * d < size * size
    ensures Coordinate(size, a).Some? && Coordinate(size, b).Some? ==>
      -1 <= Coordinate(size, b).value - Coordinate(size, a).value <= 1
  {
    SmallSquare(d, size);
    NearFloor(size, a, b);
  }

  // ---------------------------------------------------------------- guides beyond their reach

  /** Wherever a guide with this support stands, every root it reaches is in a cell next to its own. */
  ghost predicate AlwaysNear(root: real -> real, radii: seq<real>, angles: seq<real>, size: real)
    requires |radii| == |angles| + 1 && size > 0.0
  {
    forall g: Guide, q: Query, factor: real ::
      g.radii == radii && g.angles == angles && 0.0 <= factor <= 1.0 && Reached(root, factor, g, q)
      && CellOf(size, q.position).Some? && CellOf(size, g.root).Some?
      ==> Adjacent(CellOf(size, g.root).value, CellOf(size, q.position).value)
  }

  /** Angles of one turn in strictly increasing order. */
  predicate ProperAngles(angles: seq<real>) {
    && (forall k | 0 <= k < |angles| :: 0.0 <= angles[k] < 4.0)
    && (forall i, k | 0 <= i < k < |angles| :: angles[i] < angles[k])
  }

  /** At one of its own angles a guide has that angle's radius. */
  lemma RadiusAtAngle(g: Guide, k: nat)
    requires ValidSupport(g) && ProperAngles(g.angles) && k < |g.angles|
    ensures RadiusAt(g, g.angles[k]) == g.radii[k + 1]
  {
    UpperBoundNext(g.angles, k, 0);
    hide UpperBound;
    var n := |g.angles|;
    var next, nextAngle := if k + 1 == n then 0 else k + 1, if k + 1 == n then g.angles[0] + 4.0 else g.angles[k + 1];
    assert 0.0 <= g.angles[0] && g.angles[k] < 4.0 && nextAngle - g.angles[k] > 0.0;
    NoPart(nextAngle - g.angles[k]);
  }

  lemma NoPart(denominator: real)
    requires denominator > 0.0
    ensures 0.0 / denominator == 0.0
  {
    var q := 0.0 / denominator;
    QuotientProduct(0.0, denominator);
    ScaledOrder(q, 0.0, denominator);
    ScaledOrder(0.0, q, denominator);
  }

  lemma {:induction false} UpperBoundNext(angles: seq<real>, k: nat, from: nat)
    requires ProperAngles(angles) && from <= k < |angles|
    ensures UpperBound(angles, angles[k], from) == k + 1
    decreases k - from
  {
    if from < k {
      UpperBoundNext(angles, k, from + 1);
    } else if k + 1 < |angles| {
      assert angles[k + 1] > angles[k];
    }
  }

  lemma RootUnique(root: real -> real, d: real)
    requires IsRoot(root) && d >= 0.0
    ensures root(d * d) == d
  {
    NonNegativeProduct(d, d);
    var e := root(d * d);
    if e < d { SquareLess(e, d); }
    if d < e { SquareLess(d, e); }
  }

  /** A unit tangent for which the direction along x has a given angle of the turn. */
  lemma TangentFor(root: real -> real, a: real) returns (c: real, s: real)
    requires IsRoot(root) && 0.0 <= a < 4.0
    ensures -1.0 <= c <= 1.0 && c * c + s * s == 1.0
    ensures AngleOf(c, s) == a
  {
    var x := if a <= 2.0 then 1.0 - a else a - 3.0;
    var y := 1.0 - if x < 0.0 then -x else x;
    c := SignedRoot(root, x);
    s := SignedRoot(root, if a <= 2.0 then y else -y);
    hide IsRoot;
    assert c * c == 1.0 - y && s * s == y;
  }

  /** The number whose square is the size of x, with the sign of x. */
  lemma SignedRoot(root: real -> real, x: real) returns (c: real)
    requires IsRoot(root) && -1.0 <= x <= 1.0
    ensures -1.0 <= c <= 1.0 && c * (if c < 0.0 then -c else c) == x
    ensures c * c == if x < 0.0 then -x else x
    ensures x < 0.0 <==> c < 0.0
  {
    var m := root(if x < 0.0 then -x else x);
    assert m >= 0.0 && m * m == if x < 0.0 then -x else x;
    hide IsRoot;
    if m > 1.0 { SquareLess(1.0, m); }
    c := if x < 0.0 then -m else m;
    assert c * c == m * m && -c * c == -(m * m);
  }

  /** The turn of a direction along x around a guide that looks along z. */
  lemma TurnAlongX(root: real -> real, g: Guide, c: real, s: real, d: real)
    requires IsRoot(root) && d > 0.0 && -1.0 <= c <= 1.0
    requires g.normal == Vec3(0.0, 0.0, 1.0) && g.tangent == Vec3(c, s, 0.0)
    ensures TurnOf(root, g, Vec3(d, 0.0, 0.0)) == AngleOf(c, s)
  {
    var direction, unit := Vec3(d, 0.0, 0.0), Vec3(1.0, 0.0, 0.0);
    UnitAlongX(root, d);
    DotAlongX(c, s);
    TurnOfUnit(root, g, direction, unit, d, c, s);
  }

  lemma UnitAlongX(root: real -> real, d: real)
    requires IsRoot(root) && d > 0.0
    ensures root(Dot(Vec3(d, 0.0, 0.0), Vec3(d, 0.0, 0.0))) == d
    ensures Scaled(Vec3(d, 0.0, 0.0), 1.0 / d) == Vec3(1.0, 0.0, 0.0)
  {
    RootUnique(root, d);
    var inverse := 1.0 / d;
    QuotientProduct(1.0, d);
    assert d * inverse == 1.0 && 0.0 * inverse == 0.0;
    assert Dot(Vec3(d, 0.0, 0.0), Vec3(d, 0.0, 0.0)) == d * d;
  }

  lemma DotAlongX(c: real, s: real)
    ensures Dot(Vec3(1.0, 0.0, 0.0), Vec3(c, s, 0.0)) == c
    ensures Dot(Cross(Vec3(1.0, 0.0, 0.0), Vec3(c, s, 0.0)), Vec3(0.0, 0.0, 1.0)) == s
  {
  }

  lemma TurnOfUnit(root: real -> real, g: Guide, direction: Vec3, unit: Vec3, length: real, cosine: real, side: real)
    requires root(Dot(direction, direction)) == length != 0.0 && Scaled(direction, 1.0 / length) == unit
    requires Dot(unit, g.tangent) == cosine && -1.0 <= cosine <= 1.0 && Dot(Cross(unit, g.tangent), g.normal) == side
    ensures TurnOf(root, g, direction) == AngleOf(cosine, side)
  {
    hide Dot, Cross, Scaled;
  }

  /** A guide beyond its reach can stand two cells away from a root that it reaches. */
  lemma BeyondReach(root: real -> real, radii: seq<real>, angles: seq<real>, size: real, k: nat)
      returns (g: Guide, q: Query)
    requires IsRoot(root) && |radii| == |angles| + 1 && k < |angles| && ProperAngles(angles)
    requires size >= 0.0000000001 && -radii[0] > size && radii[k + 1] * (1.0 - THRESHOLD) > size
    ensures g.radii == radii && g.angles == angles && Reached(root, 1.0, g, q)
    ensures CellOf(size, q.position).Some? && CellOf(size, g.root).Some?
    ensures !Adjacent(CellOf(size, g.root).value, CellOf(size, q.position).value)
  {
    var reach := radii[k + 1] * (1.0 - THRESHOLD);
    var least := if reach < -radii[0] then reach else -radii[0];
    var d := (size + if least < 2.0 * size then least else 2.0 * size) / 2.0;
    var c, s := TangentFor(root, angles[k]);
    var far := 2.0 * size - radii[0];
    g := Guide(Vec3(2.0 * size - d, 0.0, 0.0), Vec3(0.0, 0.0, 1.0), Vec3(c, s, 0.0), radii, angles);
    q := Query(Vec3(2.0 * size, 0.0, 0.0), Vec3(0.0, 0.0, 1.0), Box(Vec3(-far, -far, -far), Vec3(far, far, far)));
    TwoCellsApart(size, d);
    ReachedAlongX(root, g, q, k, c, s, d);
  }

  lemma TwoCellsApart(size: real, d: real)
    requires size > 0.0 && size < d < 2.0 * size
    ensures CellOf(size, Vec3(2.0 * size, 0.0, 0.0)) == Some(Cell(2, 0, 0))
    ensures CellOf(size, Vec3(2.0 * size - d, 0.0, 0.0)) == Some(Cell(0, 0, 0))
  {
    CoordinateIs(size, 0.0, 0);
    CoordinateIs(size, 2.0 * size, 2);
    CoordinateIs(size, 2.0 * size - d, 0);
    hide Coordinate;
  }

  lemma CoordinateIs(size: real, value: real, n: int)
    requires size > 0.0 && 0 <= n < 10 && n as real * size <= value < n as real * size + size
    ensures Coordinate(size, value) == Some(n)
  {
    ScaledBetween(size, value, value / size, n as real);
    FloorIs(value / size, n);
  }

  lemma ScaledBetween(size: real, value: real, scaled: real, low: real)
    requires size > 0.0 && scaled == value / size && low * size <= value < low * size + size
    ensures low <= scaled < low + 1.0
  {
    QuotientProduct(value, size);
    ScaledOrder(low, scaled, size);
    ScaledOrder(scaled, low + 1.0, size);
    assert (low + 1.0) * size == low * size + size;
  }

  lemma FloorIs(x: real, n: int)
    requires n as real <= x < n as real + 1.0
    ensures x.Floor == n
  {
  }

  /** A root whose offset from a guide it faces is d in the plane of the guide's normal. */
  ghost predicate InPlane(g: Guide, position: Vec3, normal: Vec3, d: real) {
    var offset := Minus(position, g.root);
    && Dot(normal, g.normal) == 1.0 && Dot(offset, offset) == d * d
    && Minus(offset, Scaled(g.normal, Dot(offset, g.normal))) == offset
  }

  /** A distance that leaves a radius enough weight. */
  ghost predicate Closer(root: real -> real, broad: real, radius: real, d: real) {
    radius > 0.0 && 0.0 <= d < radius * (1.0 - THRESHOLD) && d * d < broad * broad && root(d * d) == d
  }

  lemma ReachedAlongX(root: real -> real, g: Guide, q: Query, k: nat, c: real, s: real, d: real)
    requires IsRoot(root) && ValidSupport(g) && ProperAngles(g.angles) && k < |g.angles|
    requires g.normal == q.normal == Vec3(0.0, 0.0, 1.0) && g.tangent == Vec3(c, s, 0.0) && -1.0 <= c <= 1.0
    requires Minus(q.position, g.root) == Vec3(d, 0.0, 0.0) && InFaceBox(g, q.box)
    requires AngleOf(c, s) == g.angles[k]
    requires 0.0000000001 < d < -g.radii[0] && d < g.radii[k + 1] * (1.0 - THRESHOLD)
    ensures Reached(root, 1.0, g, q)
  {
    hide IsRoot, Minus, InFaceBox, AngleOf, Dot, DirectionalRadius, InPlane, Closer, GuideWeight, Reached, THRESHOLD;
    CloserAlongX(root, g.radii[0], g.radii[k + 1], d);
    PlaneAlongX(g, q, d);
    DirectionalAlongX(root, g, k, c, s, d);
    var offset := Minus(q.position, g.root);
    assert DirectionalRadius(root, g, offset) == g.radii[k + 1];
    FacingWeight(root, g, q.position, q.normal, g.radii[k + 1], d);
    ReachedFrom(root, g, q);
  }

  lemma PlaneAlongX(g: Guide, q: Query, d: real)
    requires g.normal == q.normal == Vec3(0.0, 0.0, 1.0) && Minus(q.position, g.root) == Vec3(d, 0.0, 0.0)
    ensures InPlane(g, q.position, q.normal, d)
  {
    ProjectedAlongX(d);
    hide Dot, Minus, Scaled;
  }

  lemma CloserAlongX(root: real -> real, broad: real, radius: real, d: real)
    requires IsRoot(root) && 0.0 < d < -broad && d < radius * (1.0 - THRESHOLD)
    ensures Closer(root, broad, radius, d)
  {
    RootUnique(root, d);
    SquareLess(d, -broad);
    assert radius > 0.0;
  }

  lemma ReachedFrom(root: real -> real, g: Guide, q: Query)
    requires ValidSupport(g) && InFaceBox(g, q.box) && GuideWeight(root, g, q.position, q.normal) > THRESHOLD
    ensures Reached(root, 1.0, g, q)
  {
    hide GuideWeight, InFaceBox;
  }

  lemma DirectionalAlongX(root: real -> real, g: Guide, k: nat, c: real, s: real, d: real)
    requires IsRoot(root) && ValidSupport(g) && ProperAngles(g.angles) && k < |g.angles|
    requires g.normal == Vec3(0.0, 0.0, 1.0) && g.tangent == Vec3(c, s, 0.0) && -1.0 <= c <= 1.0 && d > 0.0000000001
    requires AngleOf(c, s) == g.angles[k]
    ensures DirectionalRadius(root, g, Vec3(d, 0.0, 0.0)) == g.radii[k + 1]
  {
    hide Dot, TurnOf, RadiusAt, ProperAngles, IsRoot, AngleOf;
    ProjectedAlongX(d);
    SquareLess(0.0000000001, d);
    TurnAlongX(root, g, c, s, d);
    RadiusAtAngle(g, k);
  }

  lemma ProjectedAlongX(d: real)
    ensures var offset, z := Vec3(d, 0.0, 0.0), Vec3(0.0, 0.0, 1.0);
      Dot(offset, offset) == d * d && Dot(z, z) == 1.0 && Minus(offset, Scaled(z, Dot(offset, z))) == offset
  {
    var z := Vec3(0.0, 0.0, 1.0);
    assert Dot(Vec3(d, 0.0, 0.0), z) == 0.0;
    assert Scaled(z, 0.0) == Vec3(0.0, 0.0, 0.0);
  }

  /** The weight of a guide that a root faces, in the plane of the guide's normal. */
  lemma FacingWeight(root: real -> real, g: Guide, position: Vec3, normal: Vec3, radius: real, d: real)
    requires ValidSupport(g) && InPlane(g, position, normal, d) && Closer(root, g.radii[0], radius, d)
    requires DirectionalRadius(root, g, Minus(position, g.root)) == radius
    ensures GuideWeight(root, g, position, normal) > THRESHOLD
  {
    ScaledQuotient(d, radius, 1.0 - THRESHOLD);
    hide Dot, DirectionalRadius, Minus, Scaled;
  }

  /** The grid finds what a guide reaches, wherever it stands, exactly when the guide is within its reach. */
  lemma NearExactly(root: real -> real, radii: seq<real>, angles: seq<real>, size: real)
    requires IsRoot(root) && |radii| == |angles| + 1 && ProperAngles(angles)
    requires size >= 0.0000000001 && radii[0] <= size
    ensures AlwaysNear(root, radii, angles, size) <==> WithinReach(radii, size)
  {
    hide Reached, CellOf, Adjacent;
    if WithinReach(radii, size) {
      forall g: Guide, q: Query, factor: real |
        g.radii == radii && g.angles == angles && 0.0 <= factor <= 1.0 && Reached(root, factor, g, q)
        && CellOf(size, q.position).Some? && CellOf(size, g.root).Some?
        ensures Adjacent(CellOf(size, g.root).value, CellOf(size, q.position).value)
      {
        InfluenceIsNear(root, factor, g, q, size);
      }
    } else {
      var k :| 1 <= k < |radii| && radii[k] * (1.0 - THRESHOLD) > size;
      var g, q := BeyondReach(root, radii, angles, size, k - 1);
    }
  }

  // ---------------------------------------------------------------- what the cells contain

  /** A guide in one of the 27 cells around a root. */
  ghost predicate IsNear(guides: seq<Guide>, q: Query, size: real, k: nat)
    requires size > 0.0 && k < |guides|
  {
    var at, cell := CellOf(size, q.position), CellOf(size, guides[k].root);
    at.Some? && cell.Some? && Adjacent(cell.value, at.value)
  }

  /** Brute force among the guides in the 27 cells. */
  ghost function NearInfluences(root: real -> real, scale: nat -> real, guides: seq<Guide>, q: Query, size: real, n: nat)
      : seq<Influence>
    requires size > 0.0 && n <= |guides| && ValidGuides(guides)
  {
    if n == 0 then []
    else
      NearInfluences(root, scale, guides, q, size, n - 1)
      + if IsNear(guides, q, size, n - 1) && Influences(root, scale, guides, q, n - 1)
        then [Influence(n - 1, WeightOf(root, scale, guides, q, n - 1))] else []
  }

  /**
   What a root is answered, said of each guide: it is named exactly when it is near, its box and its weight let it
   influence the root, and then with that weight, scaled; the guides come in increasing order.
   */
  ghost predicate Answers(root: real -> real, scale: nat -> real, guides: seq<Guide>, q: Query, size: real, n: nat, r: seq<Influence>)
    requires size > 0.0 && n <= |guides| && ValidGuides(guides)
  {
    && (forall i, j :: 0 <= i < j < |r| ==> r[i].index < r[j].index)
    && (forall i :: 0 <= i < |r| ==> r[i].index < n && Named(root, scale, guides, q, size, r[i].index, r[i].weight))
    && (forall k: nat, w :: k < n && Named(root, scale, guides, q, size, k, w) ==> Influence(k, w) in r)
  }

  ghost predicate Named(root: real -> real, scale: nat -> real, guides: seq<Guide>, q: Query, size: real, k: nat, weight: real)
    requires size > 0.0 && k < |guides| && ValidGuides(guides)
  {
    && IsNear(guides, q, size, k) && InFaceBox(guides[k], q.box) && weight > THRESHOLD
    && exists w :: Weighs(root, guides[k], q.position, q.normal, w) && weight == w * scale(k)
  }

  lemma {:induction false} NearAnswers(root: real -> real, scale: nat -> real, guides: seq<Guide>, q: Query, size: real, n: nat)
    requires size > 0.0 && n <= |guides| && ValidGuides(guides) && IsRoot(root)
    ensures Answers(root, scale, guides, q, size, n, NearInfluences(root, scale, guides, q, size, n))
  {
    hide Named, IsNear, Influences, WeightOf;
    if n > 0 {
      NearAnswers(root, scale, guides, q, size, n - 1);
      NamedOnce(root, scale, guides, q, size, n - 1);
    }
  }

  lemma NamedOnce(root: real -> real, scale: nat -> real, guides: seq<Guide>, q: Query, size: real, k: nat)
    requires size > 0.0 && k < |guides| && ValidGuides(guides) && IsRoot(root)
    ensures forall w ::
      Named(root, scale, guides, q, size, k, w) <==>
        IsNear(guides, q, size, k) && Influences(root, scale, guides, q, k) && w == WeightOf(root, scale, guides, q, k)
  {
    hide IsNear, Weighs, GuideWeight, InFaceBox;
    var own := GuideWeight(root, guides[k], q.position, q.normal);
    WeightMeans(root, guides[k], q.position, q.normal);
    forall w | Weighs(root, guides[k], q.position, q.normal, w) ensures w == own {
      WeighsOnce(root, guides[k], q.position, q.normal, w, own);
    }
  }

  lemma {:induction false} NearAtMostAll(root: real -> real, scale: nat -> real, guides: seq<Guide>, q: Query, size: real, n: nat)
    requires size > 0.0 && n <= |guides| && ValidGuides(guides)
    ensures |NearInfluences(root, scale, guides, q, size, n)| <= |AllInfluences(root, scale, guides, q, n)|
  {
    hide Influences, WeightOf, IsNear;
    if n > 0 { NearAtMostAll(root, scale, guides, q, size, n - 1); }
  }

  lemma SameBefore<T>(a: seq<T>, b: seq<T>, last: seq<T>)
    ensures a + last == b + last <==> a == b
  {
    if a + last == b + last {
      assert (a + last)[..|a|] == a && (b + last)[..|b|] == b;
    }
  }

  /** The 27 cells hold the brute-force answer exactly when every guide with some influence is near. */
  lemma {:induction false} NearIsAll(root: real -> real, scale: nat -> real, guides: seq<Guide>, q: Query, size: real, n: nat)
    requires size > 0.0 && n <= |guides| && ValidGuides(guides)
    ensures NearInfluences(root, scale, guides, q, size, n) == AllInfluences(root, scale, guides, q, n)
      <==> forall k | 0 <= k < n && Influences(root, scale, guides, q, k) :: IsNear(guides, q, size, k)
  {
    hide Influences, WeightOf, IsNear;
    if n > 0 {
      NearIsAll(root, scale, guides, q, size, n - 1);
      NearAtMostAll(root, scale, guides, q, size, n - 1);
      var near, all := NearInfluences(root, scale, guides, q, size, n - 1), AllInfluences(root, scale, guides, q, n - 1);
      if Influences(root, scale, guides, q, n - 1) {
        var last := [Influence(n - 1, WeightOf(root, scale, guides, q, n - 1))];
        if IsNear(guides, q, size, n - 1) { SameBefore(near, all, last); }
      } else {
        assert near + [] == near && all + [] == all;
      }
    }
  }

  /** The grid and brute force agree on guides within their reach. */
  lemma NearWithinReach(root: real -> real, scale: nat -> real, guides: seq<Guide>, q: Query, size: real)
    requires ValidGuides(guides) && IsRoot(root) && size > 0.0 && CellOf(size, q.position).Some? && AllInGrid(guides, size)
    requires forall k | 0 <= k < |guides| :: WithinReach(guides[k].radii, size) && 0.0 <= scale(k) <= 1.0
    ensures NearInfluences(root, scale, guides, q, size, |guides|) == AllInfluences(root, scale, guides, q, |guides|)
  {
    hide Reached, CellOf, Adjacent, WithinReach;
    forall k | 0 <= k < |guides| && Influences(root, scale, guides, q, k) ensures IsNear(guides, q, size, k) {
      InfluenceIsNear(root, scale(k), guides[k], q, size);
    }
    NearIsAll(root, scale, guides, q, size, |guides|);
  }

  lemma MissedBy(root: real -> real, scale: nat -> real, guides: seq<Guide>, q: Query, size: real, k: nat)
    requires ValidGuides(guides) && size > 0.0 && k < |guides| && Reached(root, scale(k), guides[k], q)
    requires CellOf(size, q.position).Some? && CellOf(size, guides[k].root).Some?
    requires !Adjacent(CellOf(size, guides[k].root).value, CellOf(size, q.position).value)
    ensures NearInfluences(root, scale, guides, q, size, |guides|) != AllInfluences(root, scale, guides, q, |guides|)
  {
    hide Reached, CellOf, Adjacent;
    NearIsAll(root, scale, guides, q, size, |guides|);
    assert Influences(root, scale, guides, q, k) && !IsNear(guides, q, size, k);
  }

  /**
   A negative broad radius larger than the cell size hides a guide from the grid: here the second guide has
   some weight at a root four cells away, and brute force finds it.
   */
  lemma NegativeRadiusMissed(root: real -> real) returns (guides: seq<Guide>, q: Query)
    requires IsRoot(root)
    ensures ValidGuides(guides) && LargestRadius(guides) == 1.0 && AllInGrid(guides, 1.0) && CellOf(1.0, q.position).Some?
    ensures NearInfluences(root, _ => 1.0, guides, q, 1.0, |guides|) != AllInfluences(root, _ => 1.0, guides, q, |guides|)
  {
    var origin, z, x := Vec3(0.0, 0.0, 0.0), Vec3(0.0, 0.0, 1.0), Vec3(1.0, 0.0, 0.0);
    guides := [Guide(origin, z, x, [1.0], []), Guide(origin, z, x, [-10.0, 5.0], [0.0])];
    q := Query(Vec3(4.0, 0.0, 0.0), z, Box(Vec3(-100.0, -100.0, -100.0), Vec3(100.0, 100.0, 100.0)));
    hide Reached, IsRoot, NearInfluences, AllInfluences;
    LargestOfTwo(guides[0], guides[1]);
    assert CellOf(1.0, origin) == Some(Cell(0, 0, 0)) && CellOf(1.0, q.position) == Some(Cell(4, 0, 0));
    FourAway(root, guides[1], q);
    MissedBy(root, _ => 1.0, guides, q, 1.0, 1);
  }

  lemma LargestOfTwo(a: Guide, b: Guide)
    requires a.radii == [1.0] && b.radii == [-10.0, 5.0]
    ensures LargestRadius([a, b]) == 1.0
  {
    assert [a, b][..1] == [a] && [a][..0] == [];
    assert LargestRadius([]) == 0.0;
    assert LargestRadius([a]) == 1.0;
  }

  lemma FourAway(root: real -> real, g: Guide, q: Query)
    requires IsRoot(root) && g.radii == [-10.0, 5.0] && g.angles == [0.0] && InFaceBox(g, q.box)
    requires g.normal == q.normal == Vec3(0.0, 0.0, 1.0) && g.tangent == Vec3(1.0, 0.0, 0.0)
    requires Minus(q.position, g.root) == Vec3(4.0, 0.0, 0.0)
    ensures Reached(root, 1.0, g, q)
  {
    hide Reached, IsRoot, Minus, InFaceBox;
    ReachedAlongX(root, g, q, 0, 1.0, 0.0, 4.0);
  }

  // ---------------------------------------------------------------- the near guides, as a set

  lemma {:induction false} NearIncreasing(root: real -> real, scale: nat -> real, guides: seq<Guide>, q: Query, size: real, n: nat)
    requires size > 0.0 && n <= |guides| && ValidGuides(guides)
    ensures forall e | e in NearInfluences(root, scale, guides, q, size, n) :: e.index < n
    ensures IncreasingKeys(NearInfluences(root, scale, guides, q, size, n), (e: Influence) => e.index)
  {
    hide Influences, WeightOf, IsNear;
    if n > 0 {
      NearIncreasing(root, scale, guides, q, size, n - 1);
      var init := NearInfluences(root, scale, guides, q, size, n - 1);
      forall i | 0 <= i < |init| ensures init[i].index < n - 1 { assert init[i] in init; }
    }
  }

  lemma {:induction false} NearHas(root: real -> real, scale: nat -> real, guides: seq<Guide>, q: Query, size: real, n: nat, e: Influence)
    requires size > 0.0 && n <= |guides| && ValidGuides(guides)
    ensures e in NearInfluences(root, scale, guides, q, size, n)
      <==> e.index < n && IsNear(guides, q, size, e.index) && Influences(root, scale, guides, q, e.index)
           && e.weight == WeightOf(root, scale, guides, q, e.index)
  {
    hide Influences, WeightOf, IsNear;
    if n > 0 { NearHas(root, scale, guides, q, size, n - 1, e); }
  }

  // ---------------------------------------------------------------- collecting from the cells

  /** The result so far holds exactly the influences among the guides already seen, each once. */
  ghost predicate Collected(root: real -> real, scale: nat -> real, guides: seq<Guide>, q: Query,
                            result: seq<Influence>, seen: set<nat>) {
    && ValidGuides(guides)
    && (forall e | e in result :: e.index < |guides| && e.index in seen && Influences(root, scale, guides, q, e.index)
                                  && e.weight == WeightOf(root, scale, guides, q, e.index))
    && (forall k | k in seen && k < |guides| && Influences(root, scale, guides, q, k) ::
          Influence(k, WeightOf(root, scale, guides, q, k)) in result)
    && DistinctKeys(result, (e: Influence) => e.index)
  }

  lemma CollectOne(root: real -> real, scale: nat -> real, guides: seq<Guide>, q: Query, result: seq<Influence>,
                   seen: set<nat>, k: nat)
    requires Collected(root, scale, guides, q, result, seen) && k < |guides| && k !in seen
    ensures Influences(root, scale, guides, q, k) ==>
      Collected(root, scale, guides, q, result + [Influence(k, WeightOf(root, scale, guides, q, k))], seen + {k})
    ensures !Influences(root, scale, guides, q, k) ==> Collected(root, scale, guides, q, result, seen + {k})
  {
    hide Influences, WeightOf;
    if Influences(root, scale, guides, q, k) {
      var e := Influence(k, WeightOf(root, scale, guides, q, k));
      var more := result + [e];
      assert e in more;
      DistinctAppend(result, e, (f: Influence) => f.index);
      forall i | i in seen + {k} && i < |guides| && Influences(root, scale, guides, q, i)
        ensures Influence(i, WeightOf(root, scale, guides, q, i)) in more
      {
        if i != k { assert Influence(i, WeightOf(root, scale, guides, q, i)) in result; }
      }
    }
  }

  /** Once exactly the near guides have been seen, sorting by index gives their influences in order. */
  lemma CollectedAll(root: real -> real, scale: nat -> real, guides: seq<Guide>, q: Query, size: real,
                     result: seq<Influence>, seen: set<nat>)
    requires size > 0.0 && Collected(root, scale, guides, q, result, seen)
    requires forall k: nat | k < |guides| :: k in seen <==> IsNear(guides, q, size, k)
    ensures SortBy(result, (e: Influence) => e.index) == NearInfluences(root, scale, guides, q, size, |guides|)
  {
    hide Influences, WeightOf, NearInfluences, IsNear;
    var key := (e: Influence) => e.index;
    var all, sorted := NearInfluences(root, scale, guides, q, size, |guides|), SortBy(result, key);
    SortIncreasing(result, key);
    NearIncreasing(root, scale, guides, q, size, |guides|);
    forall e ensures e in sorted <==> e in all {
      NearHas(root, scale, guides, q, size, |guides|, e);
      assert e in sorted <==> e in result;
      if e in all { assert e == Influence(e.index, WeightOf(root, scale, guides, q, e.index)); }
    }
    IncreasingUnique(sorted, all, key);
  }

  // ---------------------------------------------------------------- the index

  /** The largest broad radius of the guides that have support metadata. */
  function LargestRadius(guides: seq<Guide>): (r: real)
    ensures r >= 0.0
    ensures forall k | 0 <= k < |guides| && guides[k].radii != [] :: guides[k].radii[0] <= r
  {
    if guides == [] then 0.0
    else
      var before, g := LargestRadius(guides[..|guides| - 1]), guides[|guides| - 1];
      assert forall k | 0 <= k < |guides| - 1 :: guides[k] == guides[..|guides| - 1][k];
      if g.radii != [] && g.radii[0] > before then g.radii[0] else before
  }

  ghost predicate HasMetadata(guides: seq<Guide>) {
    exists k :: 0 <= k < |guides| && guides[k].radii != []
  }

  ghost predicate LacksMetadata(guides: seq<Guide>) {
    exists k :: 0 <= k < |guides| && guides[k].radii == []
  }

  /** A cell's list: guides below n that lie in the cell, in increasing order. */
  ghost predicate CellList(guides: seq<Guide>, size: real, c: Cell, list: seq<nat>, n: nat)
    requires size > 0.0 && n <= |guides|
  {
    && (forall j | 0 <= j < |list| :: list[j] < n && CellOf(size, guides[list[j]].root) == Some(c))
    && (forall i, j | 0 <= i < j < |list| :: list[i] < list[j])
  }

  /** The guide is filed under its cell. */
  ghost predicate FiledAt(guides: seq<Guide>, size: real, cells: map<Cell, seq<nat>>, k: nat)
    requires size > 0.0 && k < |guides|
  {
    var c := CellOf(size, guides[k].root);
    c.Some? && c.value in cells && k in cells[c.value]
  }

  /** The first n guides are filed under their cells, each exactly there, in order. */
  ghost predicate Filed(guides: seq<Guide>, size: real, cells: map<Cell, seq<nat>>, n: nat) {
    && size > 0.0 && n <= |guides|
    && (forall c | c in cells :: CellList(guides, size, c, cells[c], n))
    && (forall k | 0 <= k < n :: FiledAt(guides, size, cells, k))
  }

  ghost predicate AllInGrid(guides: seq<Guide>, size: real)
    requires size > 0.0
  {
    forall k | 0 <= k < |guides| :: CellOf(size, guides[k].root).Some?
  }

  lemma NothingFiled(guides: seq<Guide>, size: real)
    requires size > 0.0
    ensures Filed(guides, size, map[], 0)
  {
  }

  lemma PushToList(guides: seq<Guide>, size: real, c: Cell, list: seq<nat>, n: nat)
    requires size > 0.0 && n < |guides| && CellList(guides, size, c, list, n)
    ensures CellList(guides, size, c, list, n + 1)
    ensures CellOf(size, guides[n].root) == Some(c) ==> CellList(guides, size, c, list + [n], n + 1)
  {
    hide CellOf;
  }

  lemma FileOne(guides: seq<Guide>, size: real, cells: map<Cell, seq<nat>>, n: nat)
    requires Filed(guides, size, cells, n) && n < |guides| && CellOf(size, guides[n].root).Some?
    ensures var c := CellOf(size, guides[n].root).value;
      Filed(guides, size, cells[c := (if c in cells then cells[c] else []) + [n]], n + 1)
  {
    var c := CellOf(size, guides[n].root).value;
    var before := if c in cells then cells[c] else [];
    var more := cells[c := before + [n]];
    assert CellList(guides, size, c, before, n);
    hide CellOf, CellList;
    forall d | d in more ensures CellList(guides, size, d, more[d], n + 1) {
      PushToList(guides, size, d, if d == c then before else cells[d], n);
    }
    forall k | 0 <= k < n + 1 ensures FiledAt(guides, size, more, k) {
      assert k < n ==> FiledAt(guides, size, cells, k);
      FiledAfter(guides, size, cells, n, before, k);
    }
  }

  lemma FiledAfter(guides: seq<Guide>, size: real, cells: map<Cell, seq<nat>>, n: nat, before: seq<nat>, k: nat)
    requires size > 0.0 && n < |guides| && CellOf(size, guides[n].root).Some?
    requires CellOf(size, guides[n].root).value in cells ==> before == cells[CellOf(size, guides[n].root).value]
    requires k < |guides| && (k == n || FiledAt(guides, size, cells, k))
    ensures FiledAt(guides, size, cells[CellOf(size, guides[n].root).value := before + [n]], k)
  {
    hide CellOf;
    var list := before + [n];
    assert list[|before|] == n;
    assert forall x | x in before :: x in list;
  }

  lemma FiledCell(guides: seq<Guide>, size: real, cells: map<Cell, seq<nat>>, n: nat, k: nat)
    requires Filed(guides, size, cells, n) && k < n
    ensures CellOf(size, guides[k].root).Some?
    ensures var c := CellOf(size, guides[k].root).value; c in cells && k in cells[c]
  {
    assert FiledAt(guides, size, cells, k);
  }

  class SupportIndex {
    const guides: seq<Guide>
    var cellSize: real
    var enabled: bool
    var cells: map<Cell, seq<nat>>

    constructor (guides: seq<Guide>)
      ensures this.guides == guides && cellSize == 0.0 && !enabled && cells == map[]
    {
      this.guides := guides;
      cellSize, enabled, cells := 0.0, false, map[];
    }

    /** An enabled index has support for every guide, and files each under its cell. */
    ghost predicate Valid()
      reads this
    {
      enabled ==>
        ValidGuides(guides) && cellSize == LargestRadius(guides) && Filed(guides, cellSize, cells, |guides|)
    }

    /**
     Reads the metadata and files the guides. Without metadata the index stays off; it fails when only
     some guides have metadata, the reference surface is missing, every radius is zero, or a guide lies
     outside the 32-bit grid.
     */
    method Build(hasReference: bool) returns (ok: bool)
      requires !enabled && cells == map[] && cellSize == 0.0
      requires forall k | 0 <= k < |guides| :: guides[k].radii != [] ==> ValidSupport(guides[k])
      modifies this
      ensures ok ==> Valid() && (enabled <==> HasMetadata(guides))
      ensures ok <==> (!HasMetadata(guides)
                       || (!LacksMetadata(guides) && hasReference && LargestRadius(guides) > 0.0
                           && AllInGrid(guides, LargestRadius(guides))))
    {
      hide LargestRadius, ValidSupport, Filed, AllInGrid;
      var has, lacks := ScanMetadata();
      if !has { return true; }
      if lacks || !hasReference || !(cellSize > 0.0) { return false; }
      ok := FileGuides();
      enabled := ok;
    }

    /** Whether some guides have and some lack metadata; the cell size becomes the largest broad radius. */
    method ScanMetadata() returns (has: bool, lacks: bool)
      requires cellSize == 0.0
      modifies `cellSize
      ensures has <==> HasMetadata(guides)
      ensures lacks <==> LacksMetadata(guides)
      ensures cellSize == LargestRadius(guides)
    {
      has, lacks := false, false;
      for k := 0 to |guides|
        invariant cellSize == LargestRadius(guides[..k])
        invariant has <==> exists i :: 0 <= i < k && guides[i].radii != []
        invariant lacks <==> exists i :: 0 <= i < k && guides[i].radii == []
      {
        assert guides[..k + 1][..k] == guides[..k];
        has := has || guides[k].radii != [];
        lacks := lacks || guides[k].radii == [];
        if guides[k].radii != [] && guides[k].radii[0] > cellSize { cellSize := guides[k].radii[0]; }
      }
      assert guides[..|guides|] == guides;
    }

    method FileGuides() returns (ok: bool)
      requires cellSize > 0.0 && cells == map[]
      modifies `cells
      ensures ok <==> AllInGrid(guides, cellSize)
      ensures ok ==> Filed(guides, cellSize, cells, |guides|)
    {
      NothingFiled(guides, cellSize);
      hide CellOf, Filed;
      for k := 0 to |guides|
        invariant Filed(guides, cellSize, cells, k)
      {
        var c := CellOf(cellSize, guides[k].root);
        if c.None? { return false; }
        FileOne(guides, cellSize, cells, k);
        cells := cells[c.value := (if c.value in cells then cells[c.value] else []) + [k]];
      }
      FiledInGrid(guides, cellSize, cells);
      ok := true;
    }

    /** The guides filed under one cell, tested and collected. */
    method VisitCell(root: real -> real, scale: nat -> real, q: Query, c: Cell, result: seq<Influence>, ghost seen: set<nat>)
      returns (more: seq<Influence>, ghost nowSeen: set<nat>)
      requires Valid() && enabled && Collected(root, scale, guides, q, result, seen)
      requires forall k | k in seen && k < |guides| :: CellOf(cellSize, guides[k].root) != Some(c)
      ensures Collected(root, scale, guides, q, more, nowSeen)
      ensures forall k: nat | k < |guides| :: k in nowSeen <==> k in seen || CellOf(cellSize, guides[k].root) == Some(c)
    {
      hide CellOf, Collected, Influences, WeightOf, LargestRadius;
      more, nowSeen := result, seen;
      forall k: nat | k < |guides| && CellOf(cellSize, guides[k].root) == Some(c) ensures c in cells && k in cells[c] {
        FiledCell(guides, cellSize, cells, |guides|, k);
      }
      if c !in cells { return; }
      var list := cells[c];
      assert CellList(guides, cellSize, c, list, |guides|);
      hide Filed;
      for j := 0 to |list|
        invariant Collected(root, scale, guides, q, more, nowSeen)
        invariant forall k: nat | k < |guides| :: k in nowSeen <==> k in seen || k in list[..j]
      {
        var k := list[j];
        assert k !in list[..j];
        CollectOne(root, scale, guides, q, more, nowSeen, k);
        if Influences(root, scale, guides, q, k) {
          more := more + [Influence(k, WeightOf(root, scale, guides, q, k))];
        }
        nowSeen := nowSeen + {k};
        assert list[..j + 1] == list[..j] + [list[j]];
      }
      assert list[..|list|] == list;
    }

    /**
     The influences of a root: what brute force finds among the guides in the 27 cells around the root, in the
     same order. That is the brute-force answer over all guides if every guide is within its reach.
     */
    method Gather(root: real -> real, scale: nat -> real, q: Query) returns (r: Option<seq<Influence>>)
      requires Valid() && IsRoot(root)
      ensures !enabled ==> r == Some([])
      ensures enabled ==> (r.None? <==> CellOf(cellSize, q.position).None?)
      ensures enabled && r.Some? ==> ValidGuides(guides) && cellSize > 0.0
      ensures enabled && r.Some? ==> r.value == NearInfluences(root, scale, guides, q, cellSize, |guides|)
      ensures enabled && r.Some? ==> Answers(root, scale, guides, q, cellSize, |guides|, r.value)
      ensures enabled && r.Some?
        && (forall k: nat | k < |guides| :: WithinReach(guides[k].radii, cellSize) && 0.0 <= scale(k) <= 1.0)
        ==> r.value == AllInfluences(root, scale, guides, q, |guides|)
    {
      if !enabled { return Some([]); }
      hide CellOf, Collected, Influences, WeightOf, LargestRadius, AllInfluences, NearInfluences, WithinReach, Answers;
      var at := CellOf(cellSize, q.position);
      if at.None? { return None; }
      var center := at.value;
      var result: seq<Influence> := [];
      ghost var seen: set<nat> := {};
      NothingCollected(root, scale, guides, q);
      NothingSeen(guides, cellSize, center);
      FiledInGrid(guides, cellSize, cells);
      hide SeenBefore, Filed;
      for dz := -1 to 2
        invariant Collected(root, scale, guides, q, result, seen)
        invariant SeenBefore(guides, cellSize, center, seen, dz, -1, -1)
      {
        for dy := -1 to 2
          invariant Collected(root, scale, guides, q, result, seen)
          invariant SeenBefore(guides, cellSize, center, seen, dz, dy, -1)
        {
          for dx := -1 to 2
            invariant Collected(root, scale, guides, q, result, seen)
            invariant SeenBefore(guides, cellSize, center, seen, dz, dy, dx)
          {
            var c := Cell(center.x + dx, center.y + dy, center.z + dz);
            SeenNot(guides, cellSize, center, seen, dz, dy, dx);
            ghost var was := seen;
            result, seen := VisitCell(root, scale, q, c, result, seen);
            SeenStep(guides, cellSize, center, was, seen, dz, dy, dx);
          }
          SeenRow(guides, cellSize, center, seen, dz, dy);
        }
        SeenPlane(guides, cellSize, center, seen, dz);
      }
      AllSeen(guides, q, cellSize, seen);
      CollectedAll(root, scale, guides, q, cellSize, result, seen);
      NearAnswers(root, scale, guides, q, cellSize, |guides|);
      if forall k: nat | k < |guides| :: WithinReach(guides[k].radii, cellSize) && 0.0 <= scale(k) <= 1.0 {
        NearWithinReach(root, scale, guides, q, cellSize);
      }
      r := Some(SortBy(result, (e: Influence) => e.index));
    }
  }

  /** The cells visited before the given offsets. */
  predicate Before(c: Cell, center: Cell, dz: int, dy: int, dx: int) {
    var (x, y, z) := (c.x - center.x, c.y - center.y, c.z - center.z);
    -1 <= x <= 1 && -1 <= y <= 1 && -1 <= z <= 1 && (z < dz || (z == dz && (y < dy || (y == dy && x < dx))))
  }

  ghost predicate SeenBefore(guides: seq<Guide>, size: real, center: Cell, seen: set<nat>, dz: int, dy: int, dx: int) {
    size > 0.0 && forall k: nat | k < |guides| ::
      k in seen <==> CellOf(size, guides[k].root).Some? && Before(CellOf(size, guides[k].root).value, center, dz, dy, dx)
  }

  lemma NothingSeen(guides: seq<Guide>, size: real, center: Cell)
    requires size > 0.0
    ensures SeenBefore(guides, size, center, {}, -1, -1, -1)
  {
    hide CellOf;
  }

  lemma SeenNot(guides: seq<Guide>, size: real, center: Cell, seen: set<nat>, dz: int, dy: int, dx: int)
    requires SeenBefore(guides, size, center, seen, dz, dy, dx)
    ensures forall k | k in seen && k < |guides| ::
      CellOf(size, guides[k].root) != Some(Cell(center.x + dx, center.y + dy, center.z + dz))
  {
    hide CellOf;
  }

  lemma SeenStep(guides: seq<Guide>, size: real, center: Cell, was: set<nat>, seen: set<nat>, dz: int, dy: int, dx: int)
    requires SeenBefore(guides, size, center, was, dz, dy, dx)
    requires -1 <= dz <= 1 && -1 <= dy <= 1 && -1 <= dx <= 1
    requires var c := Cell(center.x + dx, center.y + dy, center.z + dz);
      forall k: nat | k < |guides| :: k in seen <==> k in was || CellOf(size, guides[k].root) == Some(c)
    ensures SeenBefore(guides, size, center, seen, dz, dy, dx + 1)
  {
    hide CellOf;
  }

  lemma SeenRow(guides: seq<Guide>, size: real, center: Cell, seen: set<nat>, dz: int, dy: int)
    requires SeenBefore(guides, size, center, seen, dz, dy, 2)
    ensures SeenBefore(guides, size, center, seen, dz, dy + 1, -1)
  {
    hide CellOf;
  }

  lemma SeenPlane(guides: seq<Guide>, size: real, center: Cell, seen: set<nat>, dz: int)
    requires SeenBefore(guides, size, center, seen, dz, 2, -1)
    ensures SeenBefore(guides, size, center, seen, dz + 1, -1, -1)
  {
    hide CellOf;
  }

  lemma FiledInGrid(guides: seq<Guide>, size: real, cells: map<Cell, seq<nat>>)
    requires Filed(guides, size, cells, |guides|)
    ensures AllInGrid(guides, size)
  {
    forall k | 0 <= k < |guides| ensures CellOf(size, guides[k].root).Some? {
      FiledCell(guides, size, cells, |guides|, k);
    }
  }

  lemma NothingCollected(root: real -> real, scale: nat -> real, guides: seq<Guide>, q: Query)
    requires ValidGuides(guides)
    ensures Collected(root, scale, guides, q, [], {})
  {
  }

  /** After the 27 cells exactly the near guides have been seen. */
  lemma AllSeen(guides: seq<Guide>, q: Query, size: real, seen: set<nat>)
    requires size > 0.0 && CellOf(size, q.position).Some?
    requires SeenBefore(guides, size, CellOf(size, q.position).value, seen, 2, -1, -1)
    ensures forall k: nat | k < |guides| :: k in seen <==> IsNear(guides, q, size, k)
  {
    hide CellOf;
  }
}
