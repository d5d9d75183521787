/** The progressive sample sequence of a face: levels of ever finer tiles, and the eight symmetries of the square. */
module Samples {
  import opened Arithmetic
  import opened Bytes

  const PER_GROUP: nat := 32768
  const GROUPS: nat := 16

  /** The number of levels whose size fits 32 bits. */
  const LEVELS: nat := 9

  datatype Sample = Sample(x: real, y: real)

  /** Where an index lands: the level, the tile of that level, and the base sample inside the tile. */
  datatype Place = Place(level: nat, tileX: nat, tileY: nat, base: nat)

  /** The number of tiles along a side. */
  function Side(level: nat): (s: nat)
    ensures s > 0
  {
    Pow2(level)
  }

  /** The number of tiles of a level with so many along a side. */
  function Area(side: nat): (a: nat)
    requires side > 0
    ensures a > 0
  {
    MultipleBounds(side, side);
    side * side
  }

  function LevelSize(level: nat): nat { Area(Side(level)) * PER_GROUP }

  /** The first index of a level. */
  function LevelStart(level: nat): nat {
    if level == 0 then 0 else LevelStart(level - 1) + LevelSize(level - 1)
  }

  ghost predicate ValidPlace(p: Place) {
    p.level < LEVELS && p.tileX < Side(p.level) && p.tileY < Side(p.level) && p.base < PER_GROUP
  }

  /** The index that lands at a place: base samples are the slowest, then tile rows, then tiles. */
  function IndexOf(p: Place): nat {
    LevelStart(p.level) + Packed(p.base, p.tileY, p.tileX, Side(p.level))
  }

  function Packed(base: nat, y: nat, x: nat, s: nat): nat {
    (base * s + y) * s + x
  }

  /** Where the remaining index lands at a level. */
  function PlaceAt(level: nat, rest: nat): Place {
    var s := Side(level);
    Place(level, Rest(rest, s), Rest(Quotient(rest, s), s), Quotient(rest, Area(s)))
  }

  lemma PackedByTile(base: nat, y: nat, x: nat, s: nat)
    requires y < s && x < s
    ensures Packed(base, y, x, s) == base * Area(s) + (y * s + x)
    ensures y * s + x < Area(s)
  {
    Spread(base * s, y, s);
    Associate(base, s, s);
    Spread(s - y - 1, y + 1, s);
    Spread(y, 1, s);
    Positive(s - y - 1, s);
  }

  lemma InsideLevel(base: nat, rest: nat, area: nat)
    requires rest < area
    ensures base * area + rest < PER_GROUP * area <==> base < PER_GROUP
  {
    MultipleBounds(base - PER_GROUP, area);
    Spread(base - PER_GROUP, PER_GROUP, area);
    assert base == PER_GROUP ==> base * area == PER_GROUP * area;
  }

  lemma PlacePacked(base: nat, y: nat, x: nat, s: nat)
    requires y < s && x < s
    ensures Rest(Packed(base, y, x, s), s) == x
    ensures Rest(Quotient(Packed(base, y, x, s), s), s) == y
    ensures Quotient(Packed(base, y, x, s), Area(s)) == base
    ensures Packed(base, y, x, s) < PER_GROUP * Area(s) <==> base < PER_GROUP
  {
    PackedByTile(base, y, x, s);
    SplitUnique(base, y, s);
    SplitUnique(base * s + y, x, s);
    hide Quotient, Rest, Area;
    SplitUnique(base, y * s + x, Area(s));
    InsideLevel(base, y * s + x, Area(s));
  }

  /** Placing undoes indexing: different places have different indices. */
  lemma PlaceOfIndex(p: Place)
    requires ValidPlace(p)
    ensures var rest := IndexOf(p) - LevelStart(p.level);
      0 <= rest < LevelSize(p.level) && PlaceAt(p.level, rest) == p
  {
    hide Quotient, Rest, Packed, Side, Area;
    PlacePacked(p.base, p.tileY, p.tileX, Side(p.level));
  }

  /** Every number splits into a base sample, a row and a column. */
  lemma Unpacked(rest: nat, s: nat)
    requires s > 0
    ensures Rest(Quotient(rest, s), s) < s && Rest(rest, s) < s
    ensures rest == Packed(Quotient(Quotient(rest, s), s), Rest(Quotient(rest, s), s), Rest(rest, s), s)
  {
    Split(rest, s);
    Split(Quotient(rest, s), s);
    hide Quotient, Rest;
  }

  /** Indexing undoes placing: every index of a level has a place there. */
  lemma IndexOfPlace(level: nat, rest: nat)
    requires level < LEVELS && rest < LevelSize(level)
    ensures ValidPlace(PlaceAt(level, rest)) && IndexOf(PlaceAt(level, rest)) == LevelStart(level) + rest
  {
    hide Quotient, Rest, Packed, Side, Area;
    var s := Side(level);
    Unpacked(rest, s);
    var base := Quotient(Quotient(rest, s), s);
    PlacePacked(base, Rest(Quotient(rest, s), s), Rest(rest, s), s);
  }

  // ---------------------------------------------------------------- the descent through the levels

  /** The loop's comparison value, in 32-bit words. */
  function WrappedSize(side: word32): word32 { side * side % U32 * PER_GROUP % U32 }

  function Subtracted(a: word32, b: word32): word32 { (a - b) % U32 }

  function Doubled(a: word32): word32 { a * 2 % U32 }

  lemma LevelGrows(level: nat)
    ensures LevelSize(level + 1) == 4 * LevelSize(level) && Side(level + 1) == 2 * Side(level)
  {
    var s := Pow2(level);
    assert Pow2(level + 1) == 2 * s;
    assert (2 * s) * (2 * s) == 4 * (s * s);
  }

  lemma {:induction false} LevelStartClosed(level: nat)
    ensures 3 * LevelStart(level) == LevelSize(level) - PER_GROUP
  {
    if level > 0 {
      LevelStartClosed(level - 1);
      LevelGrows(level - 1);
      hide LevelSize, Side;
    } else {
      assert Pow2(0) == 1;
    }
  }

  lemma SmallWraps(side: nat)
    requires 0 < side <= 256
    ensures WrappedSize(side) == Area(side) * PER_GROUP <= 0x8000_0000
  {
    MultipleBounds(256 - side, 256);
    Spread(256 - side, side, 256);
    Below(side - 1, 256, side);
    assert side * side <= 0x1_0000;
  }

  /** Below the last level the comparison value is exact. */
  lemma ExactSize(level: nat)
    requires level < LEVELS
    ensures Side(level) <= 256 && LevelSize(level) <= 0x8000_0000 && WrappedSize(Side(level)) == LevelSize(level)
  {
    assert Pow2(8) == 256;
    PowMonotone(level, 8);
    SmallWraps(Side(level));
  }

  /** At the last level it wraps to zero. */
  lemma LastLevel()
    ensures Side(LEVELS) == 512 && LevelStart(LEVELS) == 2863300608
  {
    assert Pow2(8) == 256 && Pow2(9) == 512;
    LevelStartClosed(LEVELS);
    hide LevelStart;
    assert LevelSize(LEVELS) == 512 * 512 * PER_GROUP;
  }

  /** The wrapped state after some passes: the remaining index and the side. */
  function Descended(index: word32, passes: nat): (word32, word32) {
    if passes == 0 then (index, 1)
    else
      var (rest, side) := Descended(index, passes - 1);
      (Subtracted(rest, WrappedSize(side)), Doubled(side))
  }

  /** Whether the loop goes round again after some passes. */
  predicate GoesOn(index: word32, passes: nat) {
    var (rest, side) := Descended(index, passes);
    rest >= WrappedSize(side)
  }

  lemma ExactStep(rest: word32, size: nat, side: nat)
    requires size <= rest && side <= 256
    ensures Subtracted(rest, size) == rest - size && Doubled(side) == 2 * side
  {
  }

  /** As long as the index lies beyond the levels passed, the wrapped state is the exact one. */
  lemma {:induction false} DescendExact(index: word32, passes: nat)
    requires passes <= LEVELS && LevelStart(passes) <= index
    ensures Descended(index, passes) == (index - LevelStart(passes), Side(passes))
  {
    if passes > 0 {
      hide LevelSize, Side, WrappedSize, Subtracted, Doubled;
      DescendExact(index, passes - 1);
      ExactSize(passes - 1);
      ExactStep(index - LevelStart(passes - 1), LevelSize(passes - 1), Side(passes - 1));
      LevelGrows(passes - 1);
    } else {
      assert Pow2(0) == 1;
    }
  }

  /** From the last level on, the comparison value is zero: a power of two of at least 512, squared, wraps away. */
  lemma {:induction false} StuckBeyond(index: word32, more: nat)
    requires LevelStart(LEVELS) <= index
    ensures Descended(index, LEVELS + more).0 == index - LevelStart(LEVELS)
    ensures Descended(index, LEVELS + more).1 % 512 == 0
    ensures WrappedSize(Descended(index, LEVELS + more).1) == 0
  {
    hide LevelStart;
    if more == 0 {
      DescendExact(index, LEVELS);
      LastLevel();
    } else {
      StuckBeyond(index, more - 1);
      var (rest, side) := Descended(index, LEVELS + more - 1);
      KeepsGoing(rest, side);
    }
    WrapsAway(Descended(index, LEVELS + more).1);
  }

  lemma KeepsGoing(rest: word32, side: word32)
    requires side % 512 == 0
    ensures Subtracted(rest, 0) == rest && Doubled(side) % 512 == 0
  {
    var x, q, m := side * 2, side * 2 / U32, side / 512;
    assert x == 512 * (2 * m) && x == U32 * q + Doubled(side);
    hide Doubled;
    assert Doubled(side) == 512 * (2 * m - 0x80_0000 * q);
    RemainderUnique(Doubled(side), 512, 2 * m - 0x80_0000 * q, 0);
  }

  lemma WrapsAway(side: word32)
    requires side % 512 == 0
    ensures WrappedSize(side) == 0
  {
    var k := side / 512;
    assert side * side == (512 * k) * (512 * k) == 0x4_0000 * (k * k);
    var m := k * k;
    AreaModulo(m);
  }

  lemma AreaModulo(m: nat)
    ensures (0x4_0000 * m) % U32 * PER_GROUP % U32 == 0
  {
    var q, r := m / 0x4000, m % 0x4000;
    assert m == 0x4000 * q + r;
    RemainderUnique(0x4_0000 * m, U32, q, 0x4_0000 * r);
    RemainderUnique(0x4_0000 * r * PER_GROUP, U32, 2 * r, 0);
  }

  /**
   The descent stops for an index if and only if the index lies before the tenth level. From there
   on the 32-bit comparison value is zero and the loop goes round for ever.
   */
  lemma DescentStops(index: word32)
    ensures index < 2863300608 ==> exists n: nat :: n <= LEVELS && !GoesOn(index, n)
    ensures index >= 2863300608 ==> forall n: nat :: GoesOn(index, n)
  {
    LastLevel();
    if index >= 2863300608 {
      forall n: nat ensures GoesOn(index, n) {
        hide LevelStart, Descended, WrappedSize;
        if n < LEVELS { BeforeLast(index, n); } else { StuckBeyond(index, n - LEVELS); }
      }
    } else {
      hide LevelStart, Descended, WrappedSize;
      var n := LevelOf(index, LEVELS);
      StopsAt(index, n);
    }
  }

  lemma {:induction false} LevelOf(index: word32, bound: nat) returns (level: nat)
    requires index < LevelStart(bound)
    ensures level < bound && LevelStart(level) <= index < LevelStart(level) + LevelSize(level)
  {
    if LevelStart(bound - 1) <= index { level := bound - 1; } else { level := LevelOf(index, bound - 1); }
  }

  lemma StopsAt(index: word32, n: nat)
    requires n < LEVELS && LevelStart(n) <= index < LevelStart(n) + LevelSize(n)
    ensures !GoesOn(index, n)
  {
    DescendExact(index, n);
    ExactSize(n);
    hide Descended, WrappedSize, LevelStart, LevelSize;
  }

  lemma BeforeLast(index: word32, n: nat)
    requires n < LEVELS && LevelStart(LEVELS) <= index
    ensures GoesOn(index, n)
  {
    StartsIncrease(n + 1, LEVELS);
    assert LevelStart(n + 1) == LevelStart(n) + LevelSize(n);
    DescendExact(index, n);
    ExactSize(n);
    hide Descended, WrappedSize, LevelStart, LevelSize;
  }

  lemma {:induction false} StartsIncrease(a: nat, b: nat)
    requires a <= b
    ensures LevelStart(a) <= LevelStart(b)
  {
    if a < b { StartsIncrease(a, b - 1); }
  }

  // ---------------------------------------------------------------- the sample of an index

  ghost predicate InUnitSquare(p: Sample) { 0.0 <= p.x <= 1.0 && 0.0 <= p.y <= 1.0 }

  /** The base patterns: one group of samples after the other, each in the half-open unit square. */
  ghost predicate ValidPattern(pattern: seq<Sample>) {
    |pattern| == GROUPS * PER_GROUP
    && forall k | 0 <= k < |pattern| :: 0.0 <= pattern[k].x < 1.0 && 0.0 <= pattern[k].y < 1.0
  }

  function BaseSample(pattern: seq<Sample>, group: word32, base: nat): Sample
    requires |pattern| == GROUPS * PER_GROUP && base < PER_GROUP
  {
    pattern[group % GROUPS * PER_GROUP + base]
  }

  /** A base sample, shrunk into its tile. */
  function InTile(base: Sample, x: nat, y: nat, side: nat): Sample
    requires side > 0
  {
    Sample((x as real + base.x) * (1.0 / side as real), (y as real + base.y) * (1.0 / side as real))
  }

  /** A symmetry of the square: maybe swap the coordinates, then maybe reflect each. */
  datatype Symmetry = Symmetry(swap: bool, flipX: bool, flipY: bool)

  function SymmetryOf(description: word32): Symmetry {
    match description % 8
    case 0 => Symmetry(false, false, false)
    case 1 => Symmetry(true, true, false)
    case 2 => Symmetry(false, true, true)
    case 3 => Symmetry(true, false, true)
    case 4 => Symmetry(false, true, false)
    case 5 => Symmetry(true, false, false)
    case 6 => Symmetry(false, false, true)
    case _ => Symmetry(true, true, true)
  }

  function Moved(m: Symmetry, p: Sample): Sample {
    var (x, y) := if m.swap then (p.y, p.x) else (p.x, p.y);
    Sample(if m.flipX then 1.0 - x else x, if m.flipY then 1.0 - y else y)
  }

  function Inverse(m: Symmetry): Symmetry {
    if m.swap then Symmetry(true, m.flipY, m.flipX) else m
  }

  /** Each of the eight cases maps the unit square one-to-one onto itself, and the eight differ. */
  lemma SymmetriesAreBijections(description: word32, p: Sample)
    ensures var m := SymmetryOf(description);
      && Moved(Inverse(m), Moved(m, p)) == p && Moved(m, Moved(Inverse(m), p)) == p
      && (InUnitSquare(Moved(m, p)) <==> InUnitSquare(p))
  {
  }

  lemma SymmetriesDiffer(a: word32, b: word32)
    requires a % 8 != b % 8
    ensures SymmetryOf(a) != SymmetryOf(b)
    ensures exists p :: InUnitSquare(p) && Moved(SymmetryOf(a), p) != Moved(SymmetryOf(b), p)
  {
    var p := Sample(0.25, 0.125);
    assert InUnitSquare(p) && Moved(SymmetryOf(a), p) != Moved(SymmetryOf(b), p);
  }

  // ---------------------------------------------------------------- the symmetries as movements

  /** A quarter turn of the unit square about its centre. */
  function QuarterTurn(p: Sample): Sample { Sample(1.0 - p.y, p.x) }

  function Turns(p: Sample, n: nat): Sample {
    if n == 0 then p else QuarterTurn(Turns(p, n - 1))
  }

  /** The reflection that exchanges left and right. */
  function Reflected(p: Sample): Sample { Sample(1.0 - p.x, p.y) }

  /** A description's movement: so many quarter turns as it leaves modulo four, and from four on a reflection after them. */
  function Movement(description: word32, p: Sample): Sample {
    var turned := Turns(p, description % 4);
    if description % 8 < 4 then turned else Reflected(turned)
  }

  /** The case of a description is its movement. */
  lemma SymmetryMoves(description: word32, p: Sample)
    ensures Moved(SymmetryOf(description), p) == Movement(description, p)
  {
    var n := description % 8;
    assert description % 4 == n % 4;
    FourTurns(p);
  }

  /** Where the quarter turns take a point; four of them take it back. */
  lemma FourTurns(p: Sample)
    ensures Turns(p, 0) == p && Turns(p, 1) == Sample(1.0 - p.y, p.x) && Turns(p, 2) == Sample(1.0 - p.x, 1.0 - p.y)
    ensures Turns(p, 3) == Sample(p.y, 1.0 - p.x) && Turns(p, 4) == p
  {
    assert Turns(p, 1) == QuarterTurn(p);
    assert Turns(p, 2) == QuarterTurn(Turns(p, 1));
    assert Turns(p, 3) == QuarterTurn(Turns(p, 2));
    assert Turns(p, 4) == QuarterTurn(Turns(p, 3));
  }

  /** The corner (1, 0) turns to (1, 1) and on round the square; a reflection turns the other way. */
  lemma TurnsGoRound(p: Sample)
    ensures QuarterTurn(Sample(0.0, 0.0)) == Sample(1.0, 0.0) && QuarterTurn(Sample(1.0, 0.0)) == Sample(1.0, 1.0)
    ensures QuarterTurn(Sample(1.0, 1.0)) == Sample(0.0, 1.0) && QuarterTurn(Sample(0.0, 1.0)) == Sample(0.0, 0.0)
    ensures Reflected(Reflected(p)) == p && Reflected(QuarterTurn(Reflected(p))) == Turns(p, 3)
  {
    FourTurns(p);
  }

  // ---------------------------------------------------------------- the place as a number

  /** The levels before one hold a third of its tiles, less one. */
  lemma {:induction false} LevelStartIs(level: nat)
    ensures 3 * LevelStart(level) == PER_GROUP * (Pow2(level) * Pow2(level) - 1)
  {
    if level > 0 {
      LevelStartIs(level - 1);
      var s := Pow2(level - 1);
      assert Pow2(level) == 2 * s;
      assert (2 * s) * (2 * s) == 4 * (s * s);
    }
  }

  /** Three times the index, in powers of two and the numbers of the place. */
  predicate PlaceNumber(index: nat, p: Place) {
    var s := Pow2(p.level);
    3 * index == PER_GROUP * (s * s - 1) + 3 * ((p.base * s + p.tileY) * s + p.tileX)
  }

  lemma PlacedNumber(index: nat, p: Place)
    requires PlacedAt(index, p)
    ensures PlaceNumber(index, p)
  {
    LevelStartIs(p.level);
  }

  /** Inside its tile a sample is where the base sample is in the square. */
  predicate ShrunkInto(p: Sample, base: Sample, place: Place) {
    var s := Pow2(place.level) as real;
    p.x * s == place.tileX as real + base.x && p.y * s == place.tileY as real + base.y
  }

  lemma TileShrinks(base: Sample, place: Place)
    ensures ShrunkInto(InTile(base, place.tileX, place.tileY, Side(place.level)), base, place)
  {
    Shrunk(place.tileX as real + base.x, Side(place.level) as real);
    Shrunk(place.tileY as real + base.y, Side(place.level) as real);
  }

  lemma Shrunk(v: real, s: real)
    requires s > 0.0
    ensures v * (1.0 / s) * s == v
  {
    var k := 1.0 / s;
    assert k * s == 1.0;
    assert v * k * s == v * (k * s);
  }

  /** A sample in a tile stays inside that tile, and the tiles cover the square without overlap. */
  lemma TileBounds(base: Sample, x: nat, y: nat, side: nat)
    requires side > 0 && x < side && y < side && 0.0 <= base.x < 1.0 && 0.0 <= base.y < 1.0
    ensures var p := InTile(base, x, y, side);
      && 0.0 <= p.x < 1.0 && 0.0 <= p.y < 1.0
      && (p.x * side as real).Floor == x && (p.y * side as real).Floor == y
  {
    TileCoordinate(base.x, x, side);
    TileCoordinate(base.y, y, side);
  }

  lemma TileCoordinate(b: real, x: nat, side: nat)
    requires side > 0 && x < side && 0.0 <= b < 1.0
    ensures var c := (x as real + b) * (1.0 / side as real);
      0.0 <= c < 1.0 && (c * side as real).Floor == x
  {
    var s := side as real;
    var k := 1.0 / s;
    assert k * s == 1.0;
    var c := (x as real + b) * k;
    assert c * s == x as real + b by { assert (x as real + b) * k * s == (x as real + b) * (k * s); }
    RatioBounds(c, s, x as real + b);
  }

  lemma RatioBounds(c: real, s: real, v: real)
    requires s > 0.0 && c * s == v && 0.0 <= v < s
    ensures 0.0 <= c < 1.0
  {
    assert c < 0.0 ==> -c * s > 0.0;
    assert c >= 1.0 ==> (c - 1.0) * s >= 0.0;
  }

  /** The place of an index: its level, and where it lands there. */
  ghost predicate PlacedAt(index: nat, p: Place) {
    ValidPlace(p) && IndexOf(p) == index
  }

  /** Every index before the tenth level has exactly one place. */
  lemma OnePlace(index: word32) returns (p: Place)
    requires index < 2863300608
    ensures PlacedAt(index, p)
    ensures forall q :: PlacedAt(index, q) ==> q == p
  {
    LastLevel();
    hide LevelStart, Side, Packed, Quotient, Rest, LevelSize;
    var level := LevelOf(index, LEVELS);
    p := PlaceAt(level, index - LevelStart(level));
    IndexOfPlace(level, index - LevelStart(level));
    forall q | PlacedAt(index, q) ensures q == p {
      PlaceOfIndex(q);
      SameLevel(index, q.level, level);
    }
  }

  lemma SameLevel(index: nat, a: nat, b: nat)
    requires LevelStart(a) <= index < LevelStart(a) + LevelSize(a)
    requires LevelStart(b) <= index < LevelStart(b) + LevelSize(b)
    ensures a == b
  {
    hide LevelSize;
    LevelsInOrder(a, b);
    LevelsInOrder(b, a);
  }

  lemma LevelsInOrder(a: nat, b: nat)
    ensures a < b ==> LevelStart(a) + LevelSize(a) <= LevelStart(b)
  {
    hide LevelSize;
    if a < b { StartsIncrease(a + 1, b); }
  }

  /**
   The sample of an index: the base sample of its place, in its tile, under the description's symmetry.
   The descent loop ends exactly for the indices required here, those before the tenth level.
   */
  method SampleExact(pattern: seq<Sample>, index: word32, description: word32, group: word32)
    returns (sample: Sample, ghost place: Place)
    requires ValidPattern(pattern) && index < 2863300608
    ensures PlacedAt(index, place)
    ensures sample == Moved(SymmetryOf(description), InTile(BaseSample(pattern, group, place.base),
                                                             place.tileX, place.tileY, Side(place.level)))
    ensures PlaceNumber(index, place)
    ensures exists unmoved ::
      sample == Movement(description, unmoved) && ShrunkInto(unmoved, pattern[group % 16 * 32768 + place.base], place)
    ensures InUnitSquare(sample)
  {
    hide LevelStart, Packed, Quotient, Rest, Side, Moved, SymmetryOf, InTile, Area, BaseSample, Movement, ShrunkInto, PlaceNumber;
    place := OnePlace(index);
    var unmoved := Unmoved(pattern, index, group, place);
    BaseInside(pattern, group, place.base);
    TileBounds(BaseSample(pattern, group, place.base), place.tileX, place.tileY, Side(place.level));
    SymmetriesAreBijections(description, unmoved);
    sample := Moved(SymmetryOf(description), unmoved);
    PlacedNumber(index, place);
    SymmetryMoves(description, unmoved);
    TileShrinks(BaseSample(pattern, group, place.base), place);
    BaseIs(pattern, group, place.base);
    assert sample == Movement(description, unmoved) && ShrunkInto(unmoved, pattern[group % 16 * 32768 + place.base], place);
  }

  lemma BaseIs(pattern: seq<Sample>, group: word32, base: nat)
    requires ValidPattern(pattern) && base < PER_GROUP
    ensures group % 16 * 32768 + base < |pattern| && BaseSample(pattern, group, base) == pattern[group % 16 * 32768 + base]
  {
  }

  lemma BaseInside(pattern: seq<Sample>, group: word32, base: nat)
    requires ValidPattern(pattern) && base < PER_GROUP
    ensures var b := BaseSample(pattern, group, base); 0.0 <= b.x < 1.0 && 0.0 <= b.y < 1.0
  {
  }

  /** The sample before the symmetry. */
  method Unmoved(pattern: seq<Sample>, index: word32, group: word32, ghost place: Place) returns (sample: Sample)
    requires ValidPattern(pattern) && PlacedAt(index, place)
    ensures sample == InTile(BaseSample(pattern, group, place.base), place.tileX, place.tileY, Side(place.level))
  {
    PlaceOfIndex(place);
    hide LevelStart, Packed, Quotient, Rest, Side, Area, BaseSample;
    if index < PER_GROUP {
      FirstLevel(index, place);
      sample := BaseSample(pattern, group, index);
      WholeTile(sample);
    } else {
      hide InTile;
      var rest, side := Descend(index, place);
      var base := BaseSample(pattern, group, Quotient(rest, Area(side)));
      sample := InTile(base, Rest(rest, side), Rest(Quotient(rest, side), side), side);
    }
  }

  lemma WholeTile(base: Sample)
    ensures InTile(base, 0, 0, 1) == base
  {
  }

  lemma FirstLevel(index: nat, place: Place)
    requires index < PER_GROUP && PlacedAt(index, place)
    ensures place == Place(0, 0, 0, index) && Side(0) == 1
  {
    PlaceOfIndex(place);
    assert Pow2(0) == 1;
    SameLevel(index, place.level, 0);
  }

  /** Subtracts whole levels until the index lies inside one. */
  method Descend(index: word32, ghost place: Place) returns (rest: word32, side: word32)
    requires PER_GROUP <= index && PlacedAt(index, place)
    ensures side == Side(place.level) && rest == index - LevelStart(place.level) && rest < LevelSize(place.level)
  {
    PlaceOfIndex(place);
    assert Pow2(0) == 1 && LevelStart(0) == 0;
    ghost var level: nat := 0;
    rest, side := index, 1;
    AboveFirst(index, place);
    rest := Subtracted(rest, WrappedSize(side));
    side := Doubled(side);
    level := 1;
    FirstPass(index, place.level);
    hide LevelStart, LevelSize, Side, WrappedSize, Subtracted, Doubled, Packed;
    while rest >= WrappedSize(side)
      invariant 1 <= level <= place.level && rest == index - LevelStart(level) && side == Side(level)
      decreases place.level - level
    {
      ExactSize(level);
      NextLevel(index, level, place.level);
      ExactStep(rest, LevelSize(level), side);
      rest := Subtracted(rest, WrappedSize(side));
      side := Doubled(side);
      level := level + 1;
    }
    ExactSize(level);
    PlaceOfIndex(place);
    SameLevel(index, level, place.level);
  }

  lemma AboveFirst(index: nat, place: Place)
    requires PER_GROUP <= index && PlacedAt(index, place)
    ensures place.level >= 1
  {
    PlaceOfIndex(place);
    assert Pow2(0) == 1;
  }

  lemma FirstPass(index: word32, level: nat)
    requires PER_GROUP <= index && 1 <= level
    ensures Subtracted(index, WrappedSize(1)) == index - LevelStart(1) && Doubled(1) == Side(1)
  {
    assert Pow2(0) == 1 && Pow2(1) == 2;
  }

  /** An index at or beyond the end of a level belongs to a later one. */
  lemma NextLevel(index: nat, level: nat, last: nat)
    requires level <= last && LevelStart(last) <= index < LevelStart(last) + LevelSize(last)
    requires LevelStart(level) + LevelSize(level) <= index
    ensures level < last && LevelStart(level + 1) == LevelStart(level) + LevelSize(level)
    ensures Side(level + 1) == 2 * Side(level)
  {
    LevelGrows(level);
  }
}
