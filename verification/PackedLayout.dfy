/**
 What packing gives, said of the stored bytes themselves: which curves the arrays of every reference hold, when they
 are acceptable, and that the packed curves are these, item after item or sorted by identity.
 */
module PackedLayout {
  import opened Wrappers
  import opened Bytes
  import opened XgenContainer
  import opened PackedCurves

  /** A curve with its identity; in source order no identity is read. */
  datatype Strand = Strand(key: Key, points: seq<Point>)

  // ---------------------------------------------------------------- the stored curves

  function Joint(a: int, b: int, c: int, d: int): int {
    a + 0x100 * b + 0x1_0000 * c + 0x100_0000 * d
  }

  /** The k-th little-endian word of some bytes. */
  function W(s: seq<byte>, k: nat): word32 {
    if 4 * k + 4 > |s| then 0
    else Joint(s[4 * k], s[4 * k + 1], s[4 * k + 2], s[4 * k + 3])
  }

  function BytesAt(lookup: Lookup, id: word64): seq<byte> {
    if lookup(id).Some? then lookup(id).value.bytes else []
  }

  predicate Whole(lookup: Lookup, id: word64, tag: word64, size: nat)
    requires size > 0
  {
    lookup(id).Some? && lookup(id).value.tag == tag && |lookup(id).value.bytes| % size == 0
  }

  /** How many curves an item has: one for every three info words, or one for every face. */
  function CurveCount(order: Order, lookup: Lookup, r: ItemRefs): nat {
    if order.Source? then |BytesAt(lookup, r.infos)| / 12 else |BytesAt(lookup, r.faceIds)| / 4
  }

  /** How many info words a curve has. */
  function InfoStride(order: Order, lookup: Lookup, r: ItemRefs): nat {
    if order.Source? then 3
    else if CurveCount(order, lookup, r) == 0 then 0
    else |BytesAt(lookup, r.infos)| / 4 / CurveCount(order, lookup, r)
  }

  function PointCount(lookup: Lookup, r: ItemRefs): nat {
    |BytesAt(lookup, r.positions)| / 12
  }

  /** All arrays are there, of their types, and their sizes agree. */
  ghost predicate Shaped(order: Order, lookup: Lookup, r: ItemRefs) {
    && Whole(lookup, r.infos, UINT32_TAG, 4) && Whole(lookup, r.positions, VEC3_TAG, 12) && Whole(lookup, r.widths, FLOAT_TAG, 4)
    && |BytesAt(lookup, r.widths)| == 4 * PointCount(lookup, r)
    && CurveCount(order, lookup, r) > 0
    && |BytesAt(lookup, r.infos)| == 4 * (CurveCount(order, lookup, r) * InfoStride(order, lookup, r))
    && (order.Canonical? ==>
          && Whole(lookup, r.patchUvs, VEC2_TAG, 8) && Whole(lookup, r.faceUvs, VEC2_TAG, 8) && Whole(lookup, r.faceIds, UINT32_TAG, 4)
          && InfoStride(order, lookup, r) >= 2
          && |BytesAt(lookup, r.faceUvs)| == 8 * CurveCount(order, lookup, r)
          && |BytesAt(lookup, r.patchUvs)| == 8 * PointCount(lookup, r))
  }

  /** The first point of curve p, and how many points it has: the first two info words of the curve. */
  function FirstOf(order: Order, lookup: Lookup, r: ItemRefs, p: nat): word32 {
    W(BytesAt(lookup, r.infos), p * InfoStride(order, lookup, r))
  }

  function CountOf(order: Order, lookup: Lookup, r: ItemRefs, p: nat): word32 {
    W(BytesAt(lookup, r.infos), p * InfoStride(order, lookup, r) + 1)
  }

  /** Neighbouring points of an item, each with three words of position and half its width. */
  function StoredPoints(half: word32 -> word32, positions: seq<byte>, widths: seq<byte>, first: nat, count: nat): (s: seq<Point>)
    ensures |s| == count
  {
    seq(count, c requires 0 <= c < count =>
      Point(W(positions, 3 * (first + c)), W(positions, 3 * (first + c) + 1), W(positions, 3 * (first + c) + 2),
            half(W(widths, first + c))))
  }

  /** The identity of a curve: its face, its place on the face, and the patch coordinates of its first point. */
  function KeyOf(order: Order, lookup: Lookup, r: ItemRefs, p: nat): Key {
    if order.Source? then Key(0, 0, 0, 0, 0)
    else
      var faceUvs, patchUvs, first := BytesAt(lookup, r.faceUvs), BytesAt(lookup, r.patchUvs), FirstOf(order, lookup, r, p);
      Key(W(BytesAt(lookup, r.faceIds), p), W(faceUvs, 2 * p), W(faceUvs, 2 * p + 1), W(patchUvs, 2 * first), W(patchUvs, 2 * first + 1))
  }

  function StrandAt(half: word32 -> word32, order: Order, lookup: Lookup, r: ItemRefs, p: nat): (s: Strand)
    ensures |s.points| == CountOf(order, lookup, r, p)
  {
    Strand(KeyOf(order, lookup, r, p),
           StoredPoints(half, BytesAt(lookup, r.positions), BytesAt(lookup, r.widths),
                        FirstOf(order, lookup, r, p), CountOf(order, lookup, r, p)))
  }

  function ItemStrands(half: word32 -> word32, order: Order, lookup: Lookup, r: ItemRefs): (s: seq<Strand>)
    ensures |s| == CurveCount(order, lookup, r)
  {
    seq(CurveCount(order, lookup, r), p requires 0 <= p < CurveCount(order, lookup, r) => StrandAt(half, order, lookup, r, p))
  }

  /** The curves of the first item, then those of the second, and so on. */
  function Strands(half: word32 -> word32, order: Order, lookup: Lookup, refs: seq<ItemRefs>): seq<Strand> {
    if refs == [] then [] else ItemStrands(half, order, lookup, refs[0]) + Strands(half, order, lookup, refs[1..])
  }

  // ---------------------------------------------------------------- acceptable curves

  /** A curve has two points at least, all of them in its item; its identity is finite. */
  ghost predicate SoundRange(order: Order, lookup: Lookup, r: ItemRefs, p: nat) {
    var first, count := FirstOf(order, lookup, r, p), CountOf(order, lookup, r, p);
    && 2 <= count && first + count <= PointCount(lookup, r)
    && (order.Canonical? ==>
          var key := KeyOf(order, lookup, r, p);
          FiniteFloat(key.faceU) && FiniteFloat(key.faceV) && FiniteFloat(key.patchU) && FiniteFloat(key.patchV))
  }

  ghost predicate SoundPoint(order: Order, positions: seq<byte>, widths: seq<byte>, patchUvs: seq<byte>, k: nat) {
    && FiniteFloat(W(positions, 3 * k)) && FiniteFloat(W(positions, 3 * k + 1)) && FiniteFloat(W(positions, 3 * k + 2))
    && NonNegative(W(widths, k))
    && (order.Canonical? ==> FiniteFloat(W(patchUvs, 2 * k)) && FiniteFloat(W(patchUvs, 2 * k + 1)))
  }

  ghost predicate SoundPoints(order: Order, positions: seq<byte>, widths: seq<byte>, patchUvs: seq<byte>, first: nat, count: nat) {
    forall k :: first <= k < first + count ==> SoundPoint(order, positions, widths, patchUvs, k)
  }

  ghost predicate SoundCurve(order: Order, lookup: Lookup, r: ItemRefs, p: nat) {
    SoundPoints(order, BytesAt(lookup, r.positions), BytesAt(lookup, r.widths), BytesAt(lookup, r.patchUvs),
                FirstOf(order, lookup, r, p), CountOf(order, lookup, r, p))
  }

  ghost predicate RangesSound(order: Order, lookup: Lookup, r: ItemRefs) {
    forall p :: 0 <= p < CurveCount(order, lookup, r) ==> SoundRange(order, lookup, r, p)
  }

  ghost predicate CurvesSound(order: Order, lookup: Lookup, r: ItemRefs) {
    forall p :: 0 <= p < CurveCount(order, lookup, r) ==> SoundCurve(order, lookup, r, p)
  }

  /** An item that can be packed. */
  ghost predicate Sound(order: Order, lookup: Lookup, r: ItemRefs) {
    Shaped(order, lookup, r) && RangesSound(order, lookup, r) && CurvesSound(order, lookup, r)
  }

  // ---------------------------------------------------------------- what is packed

  function Counts(s: seq<Strand>): (n: seq<nat>)
    ensures |n| == |s|
  {
    seq(|s|, k requires 0 <= k < |s| => |s[k].points|)
  }

  function AllPoints(s: seq<Strand>): seq<Point> {
    if s == [] then [] else s[0].points + AllPoints(s[1..])
  }

  ghost predicate Flattens(c: Curves, s: seq<Strand>) {
    c.counts == Counts(s) && c.points == AllPoints(s)
  }

  ghost predicate Increasing(s: seq<Strand>) {
    forall i, j :: 0 <= i < j < |s| ==> Less(s[i].key, s[j].key)
  }

  ghost predicate DistinctKeys(s: seq<Strand>) {
    forall i, j :: 0 <= i < j < |s| ==> s[i].key != s[j].key
  }

  /**
   The result of packing. It exists exactly when there are items, all of them acceptable, the totals fit and, in
   canonical order, no two curves have the same identity. It then holds every stored curve with its own points: in
   source order item after item, and in canonical order by increasing identity.
   */
  ghost predicate AsStored(half: word32 -> word32, order: Order, refs: seq<ItemRefs>, lookup: Lookup, r: Option<Curves>) {
    var s := Strands(half, order, lookup, refs);
    && (r.Some? <==>
          && refs != [] && (forall k :: 0 <= k < |refs| ==> Sound(order, lookup, refs[k]))
          && |s| < U64 && |AllPoints(s)| < U64 && (order.Canonical? ==> DistinctKeys(s)))
    && (r.Some? && order.Source? ==> Flattens(r.value, s))
    && (r.Some? && order.Canonical? ==> exists t :: multiset(t) == multiset(s) && Increasing(t) && Flattens(r.value, t))
  }

  // ---------------------------------------------------------------- appending

  lemma {:induction false} StrandsAppend(half: word32 -> word32, order: Order, lookup: Lookup, a: seq<ItemRefs>, b: seq<ItemRefs>)
    ensures Strands(half, order, lookup, a + b) == Strands(half, order, lookup, a) + Strands(half, order, lookup, b)
  {
    hide ItemStrands;
    if a == [] {
      assert a + b == b;
    } else {
      assert (a + b)[1..] == a[1..] + b;
      StrandsAppend(half, order, lookup, a[1..], b);
    }
  }

  lemma {:induction false} AllPointsAppend(a: seq<Strand>, b: seq<Strand>)
    ensures AllPoints(a + b) == AllPoints(a) + AllPoints(b)
  {
    if a == [] {
      assert a + b == b;
    } else {
      assert (a + b)[1..] == a[1..] + b;
      AllPointsAppend(a[1..], b);
    }
  }

  lemma OneStrand(half: word32 -> word32, order: Order, lookup: Lookup, r: ItemRefs)
    ensures Strands(half, order, lookup, [r]) == ItemStrands(half, order, lookup, r)
  {
    assert [r][1..] == [];
  }

  // ---------------------------------------------------------------- the readers' words and views

  lemma WordIs(s: seq<byte>, k: nat)
    requires 4 * (k + 1) <= |s|
    ensures Word(s, k) == W(s, k)
  {
    var t := s[4 * k..4 * k + 4];
    var a, b, c := t[1..], t[2..], t[3..];
    assert a[1..] == b && b[1..] == c && c[1..] == [];
    assert Little(c) == t[3];
    assert Little(b) == t[2] + 256 * Little(c) && Little(a) == t[1] + 256 * Little(b) && Little(t) == t[0] + 256 * Little(a);
  }

  /** What a view shows are the stored arrays. */
  ghost predicate Shows(order: Order, lookup: Lookup, r: ItemRefs, v: View) {
    && ViewFits(order, v)
    && v.infos == BytesAt(lookup, r.infos) && v.positions == BytesAt(lookup, r.positions) && v.widths == BytesAt(lookup, r.widths)
    && (order.Canonical? ==>
          v.patchUvs == BytesAt(lookup, r.patchUvs) && v.faceUvs == BytesAt(lookup, r.faceUvs) && v.faceIds == BytesAt(lookup, r.faceIds))
    && v.primitives == CurveCount(order, lookup, r) && v.stride == InfoStride(order, lookup, r) && v.points == PointCount(lookup, r)
  }

  lemma ViewShows(order: Order, lookup: Lookup, r: ItemRefs)
    ensures var v := ItemView(lookup, order, r);
      (v.Some? <==> Shaped(order, lookup, r)) && (v.Some? ==> Shows(order, lookup, r, v.value))
  {
    if order.Source? { SourceViewShows(lookup, r); } else { CanonicalViewShows(lookup, r); }
  }

  lemma SourceViewShows(lookup: Lookup, r: ItemRefs)
    ensures var v := ItemView(lookup, Source, r);
      (v.Some? <==> Shaped(Source, lookup, r)) && (v.Some? ==> Shows(Source, lookup, r, v.value))
  {
  }

  lemma CanonicalViewShows(lookup: Lookup, r: ItemRefs)
    ensures var v := ItemView(lookup, Canonical, r);
      (v.Some? <==> Shaped(Canonical, lookup, r)) && (v.Some? ==> Shows(Canonical, lookup, r, v.value))
  {
    var n, infos := CurveCount(Canonical, lookup, r), |BytesAt(lookup, r.infos)| / 4;
    if n > 0 {
      assert n * (infos / n) + infos % n == infos;
    }
  }

  lemma RangeIs(half: word32 -> word32, order: Order, lookup: Lookup, r: ItemRefs, v: View, views: seq<View>, item: nat, p: nat)
    requires Shows(order, lookup, r, v) && p < v.primitives && item < |views| && views[item] == v
    ensures var x := RangeOf(order, v, item, p);
      && (x.Some? <==> SoundRange(order, lookup, r, p))
      && (x.Some? ==> x.value.first == FirstOf(order, lookup, r, p) && x.value.count == CountOf(order, lookup, r, p))
      && (x.Some? ==> StrandFrom(half, views, x.value) == StrandAt(half, order, lookup, r, p))
  {
    hide W, Word, FiniteFloat, StoredPoints;
    InfoFits(v.primitives, v.stride, p);
    WordIs(v.infos, p * v.stride);
    WordIs(v.infos, p * v.stride + 1);
    var first, count := FirstOf(order, lookup, r, p), CountOf(order, lookup, r, p);
    if order.Canonical? && 2 <= count && first + count <= v.points {
      WordIs(v.faceIds, p);
      WordIs(v.faceUvs, 2 * p);
      WordIs(v.faceUvs, 2 * p + 1);
      WordIs(v.patchUvs, 2 * first);
      WordIs(v.patchUvs, 2 * first + 1);
    }
  }

  /** The curve that a range of some views stands for. */
  function StrandFrom(half: word32 -> word32, views: seq<View>, r: Range): Strand {
    if r.item < |views| then
      Strand(r.key, StoredPoints(half, views[r.item].positions, views[r.item].widths, r.first, r.count))
    else Strand(r.key, [])
  }

  function StrandsFrom(half: word32 -> word32, views: seq<View>, ranges: seq<Range>): (s: seq<Strand>)
    ensures |s| == |ranges|
  {
    seq(|ranges|, k requires 0 <= k < |ranges| => StrandFrom(half, views, ranges[k]))
  }

  ghost predicate PointsFit(order: Order, views: seq<View>, r: Range) {
    r.item < |views| && SoundPoints(order, views[r.item].positions, views[r.item].widths, views[r.item].patchUvs, r.first, r.count)
  }

  ghost predicate AllPointsFit(order: Order, views: seq<View>, ranges: seq<Range>) {
    forall k :: 0 <= k < |ranges| ==> PointsFit(order, views, ranges[k])
  }

  // ---------------------------------------------------------------- emission

  lemma PointIs(half: word32 -> word32, order: Order, v: View, k: nat)
    requires ViewFits(order, v) && k < v.points
    ensures PointAt(half, order, v, k) ==
      if SoundPoint(order, v.positions, v.widths, v.patchUvs, k)
      then Some(Point(W(v.positions, 3 * k), W(v.positions, 3 * k + 1), W(v.positions, 3 * k + 2), half(W(v.widths, k)))) else None
  {
    hide W, Word, FiniteFloat, NonNegative;
    WordIs(v.positions, 3 * k);
    WordIs(v.positions, 3 * k + 1);
    WordIs(v.positions, 3 * k + 2);
    WordIs(v.widths, k);
    if order.Canonical? {
      WordIs(v.patchUvs, 2 * k);
      WordIs(v.patchUvs, 2 * k + 1);
    }
  }

  lemma {:induction false} PointsAre(half: word32 -> word32, order: Order, v: View, first: nat, n: nat)
    requires ViewFits(order, v) && first + n <= v.points
    ensures PointsOf(half, order, v, first, n) ==
      if SoundPoints(order, v.positions, v.widths, v.patchUvs, first, n)
      then Some(StoredPoints(half, v.positions, v.widths, first, n)) else None
  {
    hide W, PointAt, SoundPoint, ViewFits;
    if n > 0 {
      PointsAre(half, order, v, first, n - 1);
      PointIs(half, order, v, first + n - 1);
      assert SoundPoints(order, v.positions, v.widths, v.patchUvs, first, n) <==>
        SoundPoints(order, v.positions, v.widths, v.patchUvs, first, n - 1)
        && SoundPoint(order, v.positions, v.widths, v.patchUvs, first + n - 1);
      assert StoredPoints(half, v.positions, v.widths, first, n)
        == StoredPoints(half, v.positions, v.widths, first, n - 1) + [StoredPoints(half, v.positions, v.widths, first, n)[n - 1]];
    }
  }

  /** Emission gives the curves of the ranges, one after the other. */
  lemma {:induction false} EmittedIs(half: word32 -> word32, order: Order, views: seq<View>, ranges: seq<Range>)
    requires AllFit(order, views, ranges)
    ensures var x, s := Emitted(half, order, views, ranges), StrandsFrom(half, views, ranges);
      (x.Some? <==> AllPointsFit(order, views, ranges)) && (x.Some? ==> Flattens(x.value, s))
  {
    hide PointsOf, SoundPoints, StoredPoints, ViewFits;
    if ranges == [] {
    } else {
      var init, last := ranges[..|ranges| - 1], ranges[|ranges| - 1];
      assert InViews(views, last);
      EmittedIs(half, order, views, init);
      PointsAre(half, order, views[last.item], last.first, last.count);
      assert ranges == init + [last];
      var a, b := StrandsFrom(half, views, init), StrandFrom(half, views, last);
      assert StrandsFrom(half, views, ranges) == a + [b];
      AllPointsAppend(a, [b]);
      assert AllPoints([b]) == b.points by { assert [b][1..] == []; }
      assert Counts(a + [b]) == Counts(a) + [|b.points|];
      FitSplit(order, views, init, [last]);
      assert AllPointsFit(order, views, [last]) <==> PointsFit(order, views, last);
    }
  }

  lemma FitSplit(order: Order, views: seq<View>, a: seq<Range>, b: seq<Range>)
    ensures AllPointsFit(order, views, a + b) <==> AllPointsFit(order, views, a) && AllPointsFit(order, views, b)
  {
    hide PointsFit;
    if AllPointsFit(order, views, a + b) {
      forall k | 0 <= k < |a| ensures PointsFit(order, views, a[k]) { assert (a + b)[k] == a[k]; }
      forall k | 0 <= k < |b| ensures PointsFit(order, views, b[k]) { assert (a + b)[|a| + k] == b[k]; }
    }
  }

  // ---------------------------------------------------------------- the ranges of all items

  /** The ranges of an item, collected one after the other. */
  lemma {:induction false} ItemRangesAre(order: Order, v: View, item: nat, n: nat)
    requires ViewFits(order, v) && n <= v.primitives
    ensures var x := ItemRanges(order, v, item, n);
      && (x.Some? <==> forall p :: 0 <= p < n ==> RangeOf(order, v, item, p).Some?)
      && (x.Some? ==> forall p :: 0 <= p < n ==> RangeOf(order, v, item, p) == Some(x.value[p]))
  {
    hide RangeOf, ViewFits;
    if n > 0 { ItemRangesAre(order, v, item, n - 1); }
  }

  lemma ItemIs(half: word32 -> word32, order: Order, lookup: Lookup, r: ItemRefs, views: seq<View>, item: nat)
    requires item < |views| && Shows(order, lookup, r, views[item])
    ensures var x := ItemRanges(order, views[item], item, views[item].primitives);
      && (x.Some? <==> RangesSound(order, lookup, r))
      && (x.Some? ==> StrandsFrom(half, views, x.value) == ItemStrands(half, order, lookup, r))
      && (x.Some? ==> (AllPointsFit(order, views, x.value) <==> CurvesSound(order, lookup, r)))
  {
    hide RangeOf, SoundRange, StrandFrom, StrandAt, ItemRanges, SoundPoints, ViewFits;
    var v := views[item];
    ItemRangesAre(order, v, item, v.primitives);
    forall p | 0 <= p < v.primitives
      ensures RangeOf(order, v, item, p).Some? <==> SoundRange(order, lookup, r, p)
      ensures var x := RangeOf(order, v, item, p);
        x.Some? ==> StrandFrom(half, views, x.value) == StrandAt(half, order, lookup, r, p)
      ensures var x := RangeOf(order, v, item, p);
        x.Some? ==> (PointsFit(order, views, x.value) <==> SoundCurve(order, lookup, r, p))
    {
      RangeIs(half, order, lookup, r, v, views, item, p);
      FitsAsStored(order, lookup, r, views, item, p);
    }
    hide PointsFit, SoundCurve;
    var x := ItemRanges(order, v, item, v.primitives);
    if x.Some? {
      if AllPointsFit(order, views, x.value) {
        forall p | 0 <= p < v.primitives ensures SoundCurve(order, lookup, r, p) { assert PointsFit(order, views, x.value[p]); }
      }
    }
  }

  lemma FitsAsStored(order: Order, lookup: Lookup, r: ItemRefs, views: seq<View>, item: nat, p: nat)
    requires item < |views| && Shows(order, lookup, r, views[item]) && p < views[item].primitives
    ensures var x := RangeOf(order, views[item], item, p);
      x.Some? ==> (PointsFit(order, views, x.value) <==> SoundCurve(order, lookup, r, p))
  {
    RangeIs(w => w, order, lookup, r, views[item], views, item, p);
    hide RangeOf, FirstOf, CountOf, W, SoundRange, StrandAt, StrandFrom;
    var v := views[item];
    var x := RangeOf(order, v, item, p);
    if x.Some? {
      SamePoints(order, v.positions, v.widths, v.patchUvs, BytesAt(lookup, r.patchUvs), x.value.first, x.value.count);
    }
  }

  /** Patch coordinates only matter in canonical order. */
  lemma SamePoints(order: Order, positions: seq<byte>, widths: seq<byte>, a: seq<byte>, b: seq<byte>, first: nat, count: nat)
    requires order.Canonical? ==> a == b
    ensures SoundPoints(order, positions, widths, a, first, count) <==> SoundPoints(order, positions, widths, b, first, count)
  {
    hide W, FiniteFloat, NonNegative;
    forall k ensures SoundPoint(order, positions, widths, a, k) <==> SoundPoint(order, positions, widths, b, k) {}
  }

  ghost predicate AllRangesSound(order: Order, lookup: Lookup, refs: seq<ItemRefs>, n: nat)
    requires n <= |refs|
  {
    forall k :: 0 <= k < n ==> RangesSound(order, lookup, refs[k])
  }

  ghost predicate AllCurvesSound(order: Order, lookup: Lookup, refs: seq<ItemRefs>, n: nat)
    requires n <= |refs|
  {
    forall k :: 0 <= k < n ==> CurvesSound(order, lookup, refs[k])
  }

  ghost predicate AllShow(order: Order, lookup: Lookup, refs: seq<ItemRefs>, views: seq<View>) {
    |views| == |refs| && forall k | 0 <= k < |refs| :: Shows(order, lookup, refs[k], views[k])
  }

  /** The ranges of the first items are those of their stored curves, in order. */
  lemma {:induction false} RangesAre(half: word32 -> word32, order: Order, lookup: Lookup, refs: seq<ItemRefs>, views: seq<View>, n: nat)
    requires AllShow(order, lookup, refs, views) && n <= |refs|
    requires forall k | 0 <= k < |views| :: ViewFits(order, views[k])
    ensures var x := Ranges(order, views, n);
      && (x.Some? <==> AllRangesSound(order, lookup, refs, n))
      && (x.Some? ==> StrandsFrom(half, views, x.value) == Strands(half, order, lookup, refs[..n]))
      && (x.Some? ==> (AllPointsFit(order, views, x.value) <==> AllCurvesSound(order, lookup, refs, n)))
  {
    hide Shows, RangesSound, CurvesSound, ItemRanges, ItemStrands, StrandFrom, PointsFit, ViewFits, InViews;
    if n > 0 {
      RangesAre(half, order, lookup, refs, views, n - 1);
      RangesStep(half, order, lookup, refs, views, n);
    }
  }

  lemma RangesStep(half: word32 -> word32, order: Order, lookup: Lookup, refs: seq<ItemRefs>, views: seq<View>, n: nat)
    requires AllShow(order, lookup, refs, views) && 0 < n <= |refs|
    requires forall k | 0 <= k < |views| :: ViewFits(order, views[k])
    requires var x := Ranges(order, views, n - 1);
      && (x.Some? <==> AllRangesSound(order, lookup, refs, n - 1))
      && (x.Some? ==> StrandsFrom(half, views, x.value) == Strands(half, order, lookup, refs[..n - 1]))
      && (x.Some? ==> (AllPointsFit(order, views, x.value) <==> AllCurvesSound(order, lookup, refs, n - 1)))
    ensures var x := Ranges(order, views, n);
      && (x.Some? <==> AllRangesSound(order, lookup, refs, n))
      && (x.Some? ==> StrandsFrom(half, views, x.value) == Strands(half, order, lookup, refs[..n]))
      && (x.Some? ==> (AllPointsFit(order, views, x.value) <==> AllCurvesSound(order, lookup, refs, n)))
  {
    hide Shows, RangesSound, CurvesSound, ItemRanges, Strands, ItemStrands, AllPointsFit, StrandFrom, ViewFits, InViews;
    var r := refs[n - 1];
    ItemIs(half, order, lookup, r, views, n - 1);
    var x, y := Ranges(order, views, n - 1), ItemRanges(order, views[n - 1], n - 1, views[n - 1].primitives);
    if x.Some? && y.Some? {
      FitSplit(order, views, x.value, y.value);
      StrandsFromAppend(half, views, x.value, y.value);
      StrandsAppend(half, order, lookup, refs[..n - 1], [r]);
      OneStrand(half, order, lookup, r);
      assert refs[..n] == refs[..n - 1] + [r];
    }
  }

  lemma StrandsFromAppend(half: word32 -> word32, views: seq<View>, a: seq<Range>, b: seq<Range>)
    ensures StrandsFrom(half, views, a + b) == StrandsFrom(half, views, a) + StrandsFrom(half, views, b)
  {
    hide StrandFrom;
  }

  // ---------------------------------------------------------------- the views of all items

  lemma {:induction false} ViewsShow(order: Order, lookup: Lookup, refs: seq<ItemRefs>)
    ensures var x := Views(lookup, order, refs);
      && (x.Some? <==> forall k :: 0 <= k < |refs| ==> Shaped(order, lookup, refs[k]))
      && (x.Some? ==> AllShow(order, lookup, refs, x.value))
  {
    hide ItemView, Shaped, Shows;
    if refs != [] {
      ViewsShow(order, lookup, refs[..|refs| - 1]);
      ViewShows(order, lookup, refs[|refs| - 1]);
    }
  }

  lemma {:induction false} TotalIs(half: word32 -> word32, order: Order, lookup: Lookup, refs: seq<ItemRefs>, views: seq<View>)
    requires AllShow(order, lookup, refs, views)
    ensures CurveTotal(views) == |Strands(half, order, lookup, refs)|
    ensures CurveTotal(views) == 0 <==> refs == []
    decreases |refs|
  {
    hide StrandAt, CurveCount, InfoStride;
    if refs != [] {
      var init, r := refs[..|refs| - 1], refs[|refs| - 1];
      TotalIs(half, order, lookup, init, views[..|views| - 1]);
      assert refs == init + [r];
      StrandsAppend(half, order, lookup, init, [r]);
      OneStrand(half, order, lookup, r);
      assert Shows(order, lookup, r, views[|views| - 1]);
    }
  }

  lemma {:induction false} PointTotalIs(half: word32 -> word32, order: Order, views: seq<View>, ranges: seq<Range>)
    requires AllFit(order, views, ranges)
    ensures PointTotal(ranges) == |AllPoints(StrandsFrom(half, views, ranges))|
  {
    hide ViewFits;
    if ranges != [] {
      var init, last := ranges[..|ranges| - 1], ranges[|ranges| - 1];
      assert InViews(views, last);
      PointTotalIs(half, order, views, init);
      assert ranges == init + [last];
      StrandsFromAppend(half, views, init, [last]);
      var b := StrandFrom(half, views, last);
      assert StrandsFrom(half, views, [last]) == [b];
      AllPointsAppend(StrandsFrom(half, views, init), [b]);
      assert AllPoints([b]) == b.points by { assert [b][1..] == []; }
    }
  }

  // ---------------------------------------------------------------- canonical order

  lemma {:induction false} StrandsKept(half: word32 -> word32, views: seq<View>, a: seq<Range>, b: seq<Range>)
    requires multiset(a) == multiset(b)
    ensures multiset(StrandsFrom(half, views, a)) == multiset(StrandsFrom(half, views, b))
  {
    hide StrandsFrom;
    if a == [] {
      assert |multiset(a)| == |multiset(b)|;
    } else {
      var init, last := a[..|a| - 1], a[|a| - 1];
      assert a == init + [last];
      var c, d := SplitAt(init, last, b);
      StrandsKept(half, views, init, c + d);
      StrandsFromAppend(half, views, init, [last]);
      StrandsFromAppend(half, views, c, d);
      StrandsFromAppend(half, views, c, [last]);
      StrandsFromAppend(half, views, c + [last], d);
    }
  }

  lemma SplitAt(init: seq<Range>, last: Range, b: seq<Range>) returns (c: seq<Range>, d: seq<Range>)
    requires multiset(init + [last]) == multiset(b)
    ensures b == c + [last] + d && multiset(init) == multiset(c + d)
  {
    assert last in multiset(b);
    var k :| 0 <= k < |b| && b[k] == last;
    c, d := b[..k], b[k + 1..];
    assert b == c + [last] + d;
    assert multiset(c + d) == multiset(b) - multiset{last} == multiset(init);
  }

  lemma FitKept(order: Order, views: seq<View>, a: seq<Range>, b: seq<Range>)
    requires multiset(a) == multiset(b) && AllPointsFit(order, views, a)
    ensures AllPointsFit(order, views, b)
  {
    hide PointsFit;
    forall k | 0 <= k < |b| ensures PointsFit(order, views, b[k]) {
      assert b[k] in multiset(b);
      assert b[k] in a;
    }
  }

  lemma KeysKept(half: word32 -> word32, views: seq<View>, ranges: seq<Range>)
    ensures Distinct(ranges) <==> DistinctKeys(StrandsFrom(half, views, ranges))
  {
    var s := StrandsFrom(half, views, ranges);
    assert forall k :: 0 <= k < |s| ==> s[k].key == ranges[k].key;
    hide StrandFrom;
    if DistinctKeys(s) {
      forall i, j | 0 <= i < j < |ranges| ensures ranges[i].key != ranges[j].key { assert s[i].key != s[j].key; }
    }
  }

  lemma SortedStrands(half: word32 -> word32, views: seq<View>, ranges: seq<Range>, sorted: seq<Range>)
    requires multiset(sorted) == multiset(ranges) && forall i, j :: 0 <= i < j < |sorted| ==> Less(sorted[i].key, sorted[j].key)
    ensures var t := StrandsFrom(half, views, sorted);
      multiset(t) == multiset(StrandsFrom(half, views, ranges)) && Increasing(t)
  {
    StrandsKept(half, views, sorted, ranges);
    var t := StrandsFrom(half, views, sorted);
    assert forall k :: 0 <= k < |t| ==> t[k].key == sorted[k].key;
    hide StrandFrom, Less;
  }

  // ---------------------------------------------------------------- the main result

  lemma RangesFit(order: Order, views: seq<View>)
    requires forall k | 0 <= k < |views| :: ViewFits(order, views[k])
    ensures Ranges(order, views, |views|).Some? ==> AllFit(order, views, Ranges(order, views, |views|).value)
  {
    hide Ranges, ViewFits, InViews;
  }

  /** The packed curves of views are the stored ones. */
  lemma PackedIsStored(half: word32 -> word32, order: Order, refs: seq<ItemRefs>, lookup: Lookup)
    ensures AsStored(half, order, refs, lookup, Packed(half, order, refs, lookup))
  {
    hide Views, Ranges, ItemView, Emitted, Ordered, Sorted, CurveTotal, PointTotal, Strands, AllPoints, Shaped, Shows,
      RangesSound, CurvesSound, ViewFits, AllPointsFit, StrandsFrom, Flattens, InViews;
    ViewsShow(order, lookup, refs);
    if Views(lookup, order, refs).Some? {
      var views := Views(lookup, order, refs).value;
      TotalIs(half, order, lookup, refs, views);
      RangesAre(half, order, lookup, refs, views, |refs|);
      assert refs[..|refs|] == refs;
      SoundParts(order, lookup, refs);
      if Ranges(order, views, |views|).Some? {
        var ranges := Ranges(order, views, |views|).value;
        RangesFit(order, views);
        PointTotalIs(half, order, views, ranges);
        if order.Source? {
          EmittedIs(half, order, views, ranges);
        } else {
          CanonicalPacks(half, views, ranges);
        }
      }
    }
  }

  lemma SoundParts(order: Order, lookup: Lookup, refs: seq<ItemRefs>)
    ensures (forall k :: 0 <= k < |refs| ==> Sound(order, lookup, refs[k])) <==>
      && (forall k :: 0 <= k < |refs| ==> Shaped(order, lookup, refs[k]))
      && AllRangesSound(order, lookup, refs, |refs|) && AllCurvesSound(order, lookup, refs, |refs|)
  {
    hide Shaped, RangesSound, CurvesSound;
    if forall k :: 0 <= k < |refs| ==> Sound(order, lookup, refs[k]) {
      forall k | 0 <= k < |refs|
        ensures Shaped(order, lookup, refs[k]) && RangesSound(order, lookup, refs[k]) && CurvesSound(order, lookup, refs[k])
      {
        assert Sound(order, lookup, refs[k]);
      }
    }
  }

  lemma CanonicalPacks(half: word32 -> word32, views: seq<View>, ranges: seq<Range>)
    requires AllFit(Canonical, views, ranges)
    ensures var x, s := Ordered(ranges), StrandsFrom(half, views, ranges);
      && AllFit(Canonical, views, Sorted(ranges))
      && (x.Some? <==> DistinctKeys(s))
      && (x.Some? ==>
            && x.value == Sorted(ranges)
            && var y, t := Emitted(half, Canonical, views, x.value), StrandsFrom(half, views, x.value);
            && (y.Some? <==> AllPointsFit(Canonical, views, ranges))
            && (y.Some? ==> multiset(t) == multiset(s) && Increasing(t) && Flattens(y.value, t)))
  {
    hide Emitted, Sorted, StrandsFrom, Distinct, ViewFits, InViews, AllPointsFit, Repeats, Less, DistinctKeys, Increasing, Flattens;
    CanonicalOrder(ranges);
    KeysKept(half, views, ranges);
    OrderedFits(Canonical, views, ranges);
    if Ordered(ranges).Some? {
      var sorted := Sorted(ranges);
      EmittedIs(half, Canonical, views, sorted);
      SortedStrands(half, views, ranges, sorted);
      if AllPointsFit(Canonical, views, ranges) { FitKept(Canonical, views, ranges, sorted); }
      if AllPointsFit(Canonical, views, sorted) { FitKept(Canonical, views, sorted, ranges); }
    }
  }

  // ---------------------------------------------------------------- several items

  function Joined(a: Curves, b: Curves): Curves {
    Curves(a.counts + b.counts, a.points + b.points)
  }

  /** In source order two lists of items pack to the curves of the first followed by those of the second. */
  lemma SourcePacksInOrder(half: word32 -> word32, lookup: Lookup, a: seq<ItemRefs>, b: seq<ItemRefs>)
    requires a != [] && b != []
    ensures var x, y, z := Packed(half, Source, a, lookup), Packed(half, Source, b, lookup), Packed(half, Source, a + b, lookup);
      && (z.Some? <==> x.Some? && y.Some? && |x.value.counts| + |y.value.counts| < U64 && |x.value.points| + |y.value.points| < U64)
      && (z.Some? ==> z.value == Joined(x.value, y.value))
  {
    hide Packed, Strands, Sound;
    PackedIsStored(half, Source, a, lookup);
    PackedIsStored(half, Source, b, lookup);
    PackedIsStored(half, Source, a + b, lookup);
    var s, t := Strands(half, Source, lookup, a), Strands(half, Source, lookup, b);
    StrandsAppend(half, Source, lookup, a, b);
    AllPointsAppend(s, t);
    assert Counts(s + t) == Counts(s) + Counts(t);
    var x, y, z := Packed(half, Source, a, lookup), Packed(half, Source, b, lookup), Packed(half, Source, a + b, lookup);
    if forall k :: 0 <= k < |a + b| ==> Sound(Source, lookup, (a + b)[k]) {
      forall k | 0 <= k < |a| ensures Sound(Source, lookup, a[k]) { assert (a + b)[k] == a[k]; }
      forall k | 0 <= k < |b| ensures Sound(Source, lookup, b[k]) { assert (a + b)[|a| + k] == b[k]; }
    }
  }
}
