/** The selective reader on the bytes of a built document: it returns the curves' own points. */
module PackedRoundTrip {
  import Arithmetic
  import opened Wrappers
  import opened Bytes
  import opened XgenContainer
  import opened PackedCurves
  import opened FusedReader
  import opened CurveChannels
  import opened XgenMetadata
  import opened XgenBuilder

  // ---------------------------------------------------------------- what is expected

  /** One point of a curve set, as the renderer takes it. */
  function PointOf(half: word32 -> word32, c: Evaluated, k: nat): Point
    requires |c.positions| == 3 * |c.widths| && k < |c.widths|
  {
    Point(c.positions[3 * k], c.positions[3 * k + 1], c.positions[3 * k + 2], half(c.widths[k]))
  }

  function PointsFrom(half: word32 -> word32, c: Evaluated, first: nat, n: nat): (r: seq<Point>)
    requires |c.positions| == 3 * |c.widths| && first + n <= |c.widths|
    ensures |r| == n
  {
    seq(n, k requires 0 <= k < n => PointOf(half, c, first + k))
  }

  /** A range that some curve of the set occupies. */
  predicate Occupied(c: Evaluated, r: Range)
    requires ValidCurves(c)
  {
    r.item == 0 && exists p :: 0 <= p < |c.counts| && r.first == PointSum(c.counts, p) && r.count == c.counts[p]
  }

  predicate AllOccupied(c: Evaluated, ranges: seq<Range>)
    requires ValidCurves(c)
  {
    forall k :: 0 <= k < |ranges| ==> Occupied(c, ranges[k])
  }

  /** The curves at some ranges, one after the other. */
  ghost function CurvesAt(half: word32 -> word32, c: Evaluated, ranges: seq<Range>): (r: Curves)
    requires ValidCurves(c) && AllOccupied(c, ranges)
  {
    if ranges == [] then Curves([], [])
    else
      var init, last := CurvesAt(half, c, ranges[..|ranges| - 1]), ranges[|ranges| - 1];
      OccupiedInside(c, last);
      Curves(init.counts + [last.count], init.points + PointsFrom(half, c, last.first, last.count))
  }

  lemma OccupiedInside(c: Evaluated, r: Range)
    requires ValidCurves(c) && Occupied(c, r)
    ensures r.first + r.count <= |c.widths| && |c.positions| == 3 * |c.widths| && r.count >= 2
  {
    hide Finite, NonNegative;
    var p :| 0 <= p < |c.counts| && r.first == PointSum(c.counts, p) && r.count == c.counts[p];
    PointSumMonotone(c.counts, p + 1, |c.counts|);
  }

  /** The range of curve p as a reader finds it: only canonical order reads identities. */
  function BuiltRange(order: Order, c: Evaluated, p: nat): Range
    requires ValidCurves(c) && p < |c.counts|
  {
    var r := RangeOfCurve(c, p);
    if order.Source? then r.(key := Key(0, 0, 0, 0, 0)) else r
  }

  function BuiltRanges(order: Order, c: Evaluated, n: nat): (r: seq<Range>)
    requires ValidCurves(c) && n <= |c.counts|
    ensures |r| == n
  {
    if n == 0 then [] else BuiltRanges(order, c, n - 1) + [BuiltRange(order, c, n - 1)]
  }

  lemma {:induction false} BuiltOccupied(order: Order, c: Evaluated, n: nat)
    requires ValidCurves(c) && n <= |c.counts|
    ensures AllOccupied(c, BuiltRanges(order, c, n))
  {
    hide ValidCurves, PointSum;
    if n > 0 {
      BuiltOccupied(order, c, n - 1);
      OneOccupied(order, c, n - 1);
      hide Occupied, BuiltRange;
    }
  }

  lemma OneOccupied(order: Order, c: Evaluated, p: nat)
    requires ValidCurves(c) && p < |c.counts|
    ensures Occupied(c, BuiltRange(order, c, p))
  {
    hide ValidCurves, PointSum;
  }

  // ---------------------------------------------------------------- the arrays as views

  lemma {:induction false} WordOfBytes(words: seq<word32>, k: nat)
    requires k < |words|
    ensures Word(BytesOf(words), k) == words[k]
  {
    var b := BytesOf(words);
    assert b == Digits(words[0], 4) + BytesOf(words[1..]);
    hide BytesOf, Digits, Little, Pow256;
    if k == 0 {
      assert b[0..4] == Digits(words[0], 4);
      Pow256Eight();
      LittleDigits(words[0], 4);
    } else {
      WordOfBytes(words[1..], k - 1);
      assert b[4 * k..4 * k + 4] == BytesOf(words[1..])[4 * (k - 1)..4 * (k - 1) + 4];
    }
  }

  lemma ElementsBuilt(lookup: Lookup, id: word64, tag: word64, words: seq<word32>, size: nat)
    requires 1 <= size <= 3 && |words| % size == 0 && lookup(id) == Some(Array(tag, BytesOf(words)))
    ensures Elements(lookup, Want(id, tag), 4 * size) == Some(BytesOf(words))
  {
    WholeElements(|words|, size);
    hide BytesOf;
  }

  /** What a reader sees of a built item. */
  function BuiltView(order: Order, c: Evaluated): View
    requires ValidCurves(c)
  {
    var s := StoredChannels(c);
    if order.Source? then
      View(BytesOf(s.infos), BytesOf(s.positions), BytesOf(s.widths), [], [], [], |c.counts|, 3, |c.widths|)
    else
      View(BytesOf(s.infos), BytesOf(s.positions), BytesOf(s.widths), BytesOf(s.patchUvs), BytesOf(s.faceUvs),
           BytesOf(s.faceIds), |c.counts|, 3, |c.widths|)
  }

  lemma StoredSizes(c: Evaluated)
    requires ValidCurves(c)
    ensures var s, n, points := StoredChannels(c), |c.counts|, |c.widths|;
      && n > 0 && s.positions == c.positions && s.widths == c.widths && s.faceIds == c.faceIds && s.faceUvs == c.faceUvs
      && |s.infos| == 3 * n && |s.positions| == 3 * points && |s.widths| == points && points == PointSum(c.counts, n) < U32
      && |s.patchUvs| == 2 * points && |s.faceUvs| == 2 * n && |s.faceIds| == n
  {
    hide InfoWords, PatchWords, PointSum, Finite, NonNegative;
  }

  lemma ViewBuilt(order: Order, c: Evaluated, f: Frames, target: nat, d: Document, ids: seq<word64>)
    requires ValidCurves(c) && Grouped(NamedArrays(c, f), target, d.groups, ids)
    ensures |ids| == 11 && ItemView(DocumentLookup(d), order, RecordedRefs(ids, order.Canonical?)) == Some(BuiltView(order, c))
  {
    NamedAt(c, f);
    StoredSizes(c);
    hide *;
    var a, s, lookup := NamedArrays(c, f), StoredChannels(c), DocumentLookup(d);
    SameCount(a, target, d.groups, ids);
    LookupBuilt(a, target, d, ids, 0);
    LookupBuilt(a, target, d, ids, 1);
    LookupBuilt(a, target, d, ids, 2);
    LookupBuilt(a, target, d, ids, 6);
    LookupBuilt(a, target, d, ids, 7);
    LookupBuilt(a, target, d, ids, 9);
    WordsBuilt(lookup, order, c, ids);
  }

  lemma NamedAt(c: Evaluated, f: Frames)
    requires ValidCurves(c)
    ensures var a, s := NamedArrays(c, f), StoredChannels(c);
      && |a| == 11 && a[0] == Array(UINT32_TAG, BytesOf(s.infos)) && a[1] == Array(VEC3_TAG, BytesOf(s.positions))
      && a[2] == Array(VEC2_TAG, BytesOf(s.patchUvs)) && a[6] == Array(VEC2_TAG, BytesOf(s.faceUvs))
      && a[7] == Array(UINT32_TAG, BytesOf(s.faceIds)) && a[9] == Array(FLOAT_TAG, BytesOf(s.widths))
  {
    hide ValidCurves, StoredChannels, BytesOf;
  }

  lemma WordsBuilt(lookup: Lookup, order: Order, c: Evaluated, ids: seq<word64>)
    requires ValidCurves(c) && |ids| == 11
    requires var s := StoredChannels(c);
      && lookup(ids[0]) == Some(Array(UINT32_TAG, BytesOf(s.infos))) && lookup(ids[1]) == Some(Array(VEC3_TAG, BytesOf(s.positions)))
      && lookup(ids[2]) == Some(Array(VEC2_TAG, BytesOf(s.patchUvs))) && lookup(ids[6]) == Some(Array(VEC2_TAG, BytesOf(s.faceUvs)))
      && lookup(ids[7]) == Some(Array(UINT32_TAG, BytesOf(s.faceIds))) && lookup(ids[9]) == Some(Array(FLOAT_TAG, BytesOf(s.widths)))
    ensures ItemView(lookup, order, RecordedRefs(ids, order.Canonical?)) == Some(BuiltView(order, c))
  {
    hide ValidCurves, StoredChannels, BytesOf, Elements, PointSum, ItemView;
    var s := StoredChannels(c);
    StoredSizes(c);
    ChannelSizes(c);
    ElementsBuilt(lookup, ids[0], UINT32_TAG, s.infos, 1);
    ElementsBuilt(lookup, ids[1], VEC3_TAG, s.positions, 3);
    ElementsBuilt(lookup, ids[2], VEC2_TAG, s.patchUvs, 2);
    ElementsBuilt(lookup, ids[6], VEC2_TAG, s.faceUvs, 2);
    ElementsBuilt(lookup, ids[7], UINT32_TAG, s.faceIds, 1);
    ElementsBuilt(lookup, ids[9], FLOAT_TAG, s.widths, 1);
    ViewOfElements(lookup, order, RecordedRefs(ids, order.Canonical?), s, |c.counts|, |c.widths|);
  }

  /** An item whose elements are words of the right sizes, three of them for each primitive. */
  lemma ViewOfElements(lookup: Lookup, order: Order, r: ItemRefs, s: Channels, n: nat, points: nat)
    requires n > 0 && |s.infos| == 3 * n && |s.positions| == 3 * points && |s.widths| == points
    requires |s.patchUvs| == 2 * points && |s.faceUvs| == 2 * n && |s.faceIds| == n
    requires Elements(lookup, Want(r.infos, UINT32_TAG), 4) == Some(BytesOf(s.infos))
    requires Elements(lookup, Want(r.positions, VEC3_TAG), 12) == Some(BytesOf(s.positions))
    requires Elements(lookup, Want(r.widths, FLOAT_TAG), 4) == Some(BytesOf(s.widths))
    requires order.Canonical? ==> Elements(lookup, Want(r.patchUvs, VEC2_TAG), 8) == Some(BytesOf(s.patchUvs))
    requires order.Canonical? ==> Elements(lookup, Want(r.faceUvs, VEC2_TAG), 8) == Some(BytesOf(s.faceUvs))
    requires order.Canonical? ==> Elements(lookup, Want(r.faceIds, UINT32_TAG), 4) == Some(BytesOf(s.faceIds))
    ensures ItemView(lookup, order, r) == Some(
      if order.Source? then View(BytesOf(s.infos), BytesOf(s.positions), BytesOf(s.widths), [], [], [], n, 3, points)
      else View(BytesOf(s.infos), BytesOf(s.positions), BytesOf(s.widths), BytesOf(s.patchUvs), BytesOf(s.faceUvs),
                BytesOf(s.faceIds), n, 3, points))
  {
    Arithmetic.RemainderUnique(3 * n, n, 3, 0);
    hide BytesOf, Elements;
  }

  lemma ViewFitting(order: Order, c: Evaluated)
    requires ValidCurves(c)
    ensures ViewFits(order, BuiltView(order, c))
  {
    StoredSizes(c);
    hide ValidCurves, BytesOf, StoredChannels;
  }

  // ---------------------------------------------------------------- the ranges

  lemma RangeBuilt(order: Order, c: Evaluated, p: nat)
    requires ValidCurves(c) && p < |c.counts|
    ensures ViewFits(order, BuiltView(order, c)) && RangeOf(order, BuiltView(order, c), 0, p) == Some(BuiltRange(order, c, p))
  {
    var s, n, first := StoredChannels(c), |c.counts|, PointSum(c.counts, p);
    ViewFitting(order, c);
    StoredSizes(c);
    CurveInside(order, c, p);
    InfoAt(c.counts, n, p);
    PatchAt(c, n, p, first);
    FiniteKeys(c, p);
    OwnCount(c, p);
    assert s.infos == InfoWords(c.counts, n) && s.patchUvs == PatchWords(c, n);
    hide ValidCurves, StoredChannels, BytesOf, PointSum, InfoWords, PatchWords, FiniteFloat, ViewFits, RangeOf;
    RangeOfWords(order, BuiltView(order, c), s, p, first, c.counts[p]);
  }

  lemma OwnCount(c: Evaluated, p: nat)
    requires ValidCurves(c) && p < |c.counts|
    ensures c.counts[p] >= 2
  {
    hide PointSum, Finite, NonNegative;
  }

  lemma RangeOfWords(order: Order, v: View, s: Channels, p: nat, first: word32, count: word32)
    requires ViewFits(order, v) && p < v.primitives && v.stride == 3 && v.infos == BytesOf(s.infos) && |s.infos| == 3 * v.primitives
    requires s.infos[3 * p] == first && s.infos[3 * p + 1] == count && count >= 2 && first + count <= v.points
    requires |s.patchUvs| == 2 * v.points && |s.faceUvs| == 2 * v.primitives && |s.faceIds| == v.primitives
    requires order.Canonical? ==>
      v.patchUvs == BytesOf(s.patchUvs) && v.faceUvs == BytesOf(s.faceUvs) && v.faceIds == BytesOf(s.faceIds)
    requires FiniteFloat(s.faceUvs[2 * p]) && FiniteFloat(s.faceUvs[2 * p + 1])
    requires FiniteFloat(s.patchUvs[2 * first]) && FiniteFloat(s.patchUvs[2 * first + 1])
    ensures RangeOf(order, v, 0, p) == Some(
      Range(if order.Source? then Key(0, 0, 0, 0, 0)
            else Key(s.faceIds[p], s.faceUvs[2 * p], s.faceUvs[2 * p + 1], s.patchUvs[2 * first], s.patchUvs[2 * first + 1]),
            0, first, count))
  {
    hide BytesOf, Word, FiniteFloat, RangeOf;
    InfoFits(v.primitives, v.stride, p);
    WordOfBytes(s.infos, 3 * p);
    WordOfBytes(s.infos, 3 * p + 1);
    if order.Source? {
      SourceRange(v, p, first, count);
    } else {
      WordOfBytes(s.faceIds, p);
      WordOfBytes(s.faceUvs, 2 * p);
      WordOfBytes(s.faceUvs, 2 * p + 1);
      WordOfBytes(s.patchUvs, 2 * first);
      WordOfBytes(s.patchUvs, 2 * first + 1);
      CanonicalRange(v, p, first, count);
    }
  }

  lemma SourceRange(v: View, p: nat, first: word32, count: word32)
    requires ViewFits(Order.Source, v) && p < v.primitives && v.stride == 3 && 12 * p + 8 <= |v.infos|
    requires Word(v.infos, 3 * p) == first && Word(v.infos, 3 * p + 1) == count && count >= 2 && first + count <= v.points
    ensures RangeOf(Order.Source, v, 0, p) == Some(Range(Key(0, 0, 0, 0, 0), 0, first, count))
  {
    hide Word;
  }

  lemma CanonicalRange(v: View, p: nat, first: word32, count: word32)
    requires ViewFits(Canonical, v) && p < v.primitives && v.stride == 3 && 12 * p + 8 <= |v.infos|
    requires Word(v.infos, 3 * p) == first && Word(v.infos, 3 * p + 1) == count && count >= 2 && first + count <= v.points
    requires FinitePair(v.faceUvs, p) && FinitePair(v.patchUvs, first)
    ensures RangeOf(Canonical, v, 0, p)
         == Some(Range(Key(Word(v.faceIds, p), Word(v.faceUvs, 2 * p), Word(v.faceUvs, 2 * p + 1),
                           Word(v.patchUvs, 2 * first), Word(v.patchUvs, 2 * first + 1)), 0, first, count))
  {
    hide Word, FinitePair;
  }

  lemma FiniteKeys(c: Evaluated, p: nat)
    requires ValidCurves(c) && p < |c.counts|
    ensures FiniteFloat(c.faceUvs[2 * p]) && FiniteFloat(c.faceUvs[2 * p + 1])
    ensures FiniteFloat(c.patchUvs[2 * p]) && FiniteFloat(c.patchUvs[2 * p + 1])
  {
    hide PointSum, FiniteFloat, NonNegative;
  }

  lemma {:induction false} RangesBuilt(order: Order, c: Evaluated, n: nat)
    requires ValidCurves(c) && n <= |c.counts|
    ensures ViewFits(order, BuiltView(order, c))
    ensures ItemRanges(order, BuiltView(order, c), 0, n) == Some(BuiltRanges(order, c, n))
  {
    hide *;
    ViewFitting(order, c);
    PrimitivesBuilt(order, c);
    if n == 0 {
      NoRanges(order, c);
    } else {
      RangesBuilt(order, c, n - 1);
      RangeBuilt(order, c, n - 1);
      OneRange(order, c, n);
    }
  }

  lemma NoRanges(order: Order, c: Evaluated)
    requires ValidCurves(c) && ViewFits(order, BuiltView(order, c))
    ensures ItemRanges(order, BuiltView(order, c), 0, 0) == Some(BuiltRanges(order, c, 0))
  {
    hide ValidCurves, BuiltView, ViewFits;
  }

  lemma OneRange(order: Order, c: Evaluated, n: nat)
    requires ValidCurves(c) && ViewFits(order, BuiltView(order, c)) && 0 < n <= |c.counts| == BuiltView(order, c).primitives
    requires ItemRanges(order, BuiltView(order, c), 0, n - 1) == Some(BuiltRanges(order, c, n - 1))
    requires RangeOf(order, BuiltView(order, c), 0, n - 1) == Some(BuiltRange(order, c, n - 1))
    ensures ItemRanges(order, BuiltView(order, c), 0, n) == Some(BuiltRanges(order, c, n))
  {
    hide ValidCurves, BuiltView, RangeOf, BuiltRange, ViewFits;
  }

  // ---------------------------------------------------------------- the points

  lemma PointBuilt(half: word32 -> word32, order: Order, c: Evaluated, p: nat, i: nat)
    requires ValidCurves(c) && p < |c.counts| && PointSum(c.counts, p) <= i < PointSum(c.counts, p + 1)
    ensures i < |c.widths| && |c.positions| == 3 * |c.widths| && ViewFits(order, BuiltView(order, c))
    ensures PointAt(half, order, BuiltView(order, c), i) == Some(PointOf(half, c, i))
  {
    var s := StoredChannels(c);
    ViewFitting(order, c);
    StoredSizes(c);
    StoredPoint(c, p, i);
    FittingPoint(s, i);
    hide ValidCurves, StoredChannels, PointSum, PointFits, ChannelsFit, ViewFits, PointAt, BytesOf, FiniteFloat, NonNegative;
    PointOfWords(half, order, BuiltView(order, c), s, i);
  }

  lemma PointOfWords(half: word32 -> word32, order: Order, v: View, s: Channels, i: nat)
    requires ViewFits(order, v) && i < v.points && v.points == |s.widths| && |s.positions| == 3 * |s.widths| && |s.patchUvs| == 2 * |s.widths|
    requires v.positions == BytesOf(s.positions) && v.widths == BytesOf(s.widths)
    requires order.Canonical? ==> v.patchUvs == BytesOf(s.patchUvs)
    requires FiniteFloat(s.positions[3 * i]) && FiniteFloat(s.positions[3 * i + 1]) && FiniteFloat(s.positions[3 * i + 2])
    requires FiniteFloat(s.patchUvs[2 * i]) && FiniteFloat(s.patchUvs[2 * i + 1]) && NonNegative(s.widths[i])
    ensures PointAt(half, order, v, i)
         == Some(Point(s.positions[3 * i], s.positions[3 * i + 1], s.positions[3 * i + 2], half(s.widths[i])))
  {
    hide BytesOf, Word, FiniteFloat, NonNegative;
    WordOfBytes(s.positions, 3 * i);
    WordOfBytes(s.positions, 3 * i + 1);
    WordOfBytes(s.positions, 3 * i + 2);
    WordOfBytes(s.widths, i);
    if order.Canonical? {
      WordOfBytes(s.patchUvs, 2 * i);
      WordOfBytes(s.patchUvs, 2 * i + 1);
    }
  }

  lemma FittingPoint(s: Channels, i: nat)
    requires ChannelsFit(s) && i < |s.widths| && PointFits(s, i)
    ensures FiniteFloat(s.positions[3 * i]) && FiniteFloat(s.positions[3 * i + 1]) && FiniteFloat(s.positions[3 * i + 2])
    ensures FiniteFloat(s.patchUvs[2 * i]) && FiniteFloat(s.patchUvs[2 * i + 1]) && NonNegative(s.widths[i])
  {
    var p, q := s.positions[3 * i..3 * i + 3], s.patchUvs[2 * i..2 * i + 2];
    assert p[0] == s.positions[3 * i] && p[1] == s.positions[3 * i + 1] && p[2] == s.positions[3 * i + 2];
    assert q[0] == s.patchUvs[2 * i] && q[1] == s.patchUvs[2 * i + 1];
    hide FiniteFloat, NonNegative;
  }

  lemma {:induction false} PointsBuilt(half: word32 -> word32, order: Order, c: Evaluated, p: nat, n: nat)
    requires ValidCurves(c) && p < |c.counts| && n <= c.counts[p]
    ensures var first := PointSum(c.counts, p);
      && first + n <= |c.widths| && |c.positions| == 3 * |c.widths| && ViewFits(order, BuiltView(order, c))
      && PointsOf(half, order, BuiltView(order, c), first, n) == Some(PointsFrom(half, c, first, n))
  {
    hide *;
    ViewFitting(order, c);
    CurveInside(order, c, p);
    var first := PointSum(c.counts, p);
    if n == 0 {
      NoPoints(half, order, BuiltView(order, c), c, first);
    } else {
      PointsBuilt(half, order, c, p, n - 1);
      PointBuilt(half, order, c, p, first + n - 1);
      OnePoint(half, order, BuiltView(order, c), c, first, n);
    }
  }

  lemma CurveInside(order: Order, c: Evaluated, p: nat)
    requires ValidCurves(c) && p < |c.counts|
    ensures PointSum(c.counts, p + 1) == PointSum(c.counts, p) + c.counts[p] <= |c.widths|
    ensures |c.positions| == 3 * |c.widths| && BuiltView(order, c).points == |c.widths|
  {
    StoredSizes(c);
    PointSumMonotone(c.counts, p + 1, |c.counts|);
    assert PointSum(c.counts, p + 1) == PointSum(c.counts, p) + c.counts[p];
    hide ValidCurves, PointSum, StoredChannels, BytesOf;
  }

  lemma NoPoints(half: word32 -> word32, order: Order, v: View, c: Evaluated, first: nat)
    requires ViewFits(order, v) && |c.positions| == 3 * |c.widths| && first <= |c.widths| == v.points
    ensures PointsOf(half, order, v, first, 0) == Some(PointsFrom(half, c, first, 0))
  {
    hide ViewFits;
  }

  lemma OnePoint(half: word32 -> word32, order: Order, v: View, c: Evaluated, first: nat, n: nat)
    requires ViewFits(order, v) && |c.positions| == 3 * |c.widths| && 0 < n && first + n <= |c.widths| == v.points
    requires PointsOf(half, order, v, first, n - 1) == Some(PointsFrom(half, c, first, n - 1))
    requires PointAt(half, order, v, first + n - 1) == Some(PointOf(half, c, first + n - 1))
    ensures PointsOf(half, order, v, first, n) == Some(PointsFrom(half, c, first, n))
  {
    hide ViewFits, PointAt, PointOf;
    assert PointsFrom(half, c, first, n - 1) + [PointOf(half, c, first + n - 1)] == PointsFrom(half, c, first, n);
  }

  lemma RangePoints(half: word32 -> word32, order: Order, c: Evaluated, r: Range)
    requires ValidCurves(c) && Occupied(c, r)
    ensures r.first + r.count <= |c.widths| && |c.positions| == 3 * |c.widths| && ViewFits(order, BuiltView(order, c))
    ensures InViews([BuiltView(order, c)], r)
    ensures PointsOf(half, order, BuiltView(order, c), r.first, r.count) == Some(PointsFrom(half, c, r.first, r.count))
  {
    var p :| 0 <= p < |c.counts| && r.first == PointSum(c.counts, p) && r.count == c.counts[p];
    PointsBuilt(half, order, c, p, c.counts[p]);
    hide ValidCurves, PointsOf, PointsFrom, ViewFits, StoredChannels, PointSum;
  }

  /** Emitting any of the set's curves gives those curves. */
  lemma {:induction false} EmitBuilt(half: word32 -> word32, order: Order, c: Evaluated, ranges: seq<Range>)
    requires ValidCurves(c) && AllOccupied(c, ranges)
    ensures AllFit(order, [BuiltView(order, c)], ranges)
    ensures Emitted(half, order, [BuiltView(order, c)], ranges) == Some(CurvesAt(half, c, ranges))
  {
    ViewFitting(order, c);
    hide ValidCurves, BuiltView, Occupied, PointsOf, PointsFrom, ViewFits;
    forall k | 0 <= k < |ranges| ensures InViews([BuiltView(order, c)], ranges[k]) {
      RangePoints(half, order, c, ranges[k]);
    }
    if ranges != [] {
      EmitBuilt(half, order, c, ranges[..|ranges| - 1]);
      RangePoints(half, order, c, ranges[|ranges| - 1]);
      OccupiedInside(c, ranges[|ranges| - 1]);
    }
  }

  // ---------------------------------------------------------------- the packed curves

  /** What the packed reader must return: the curves in stored order, or by increasing identity if those differ. */
  ghost function Expected(half: word32 -> word32, order: Order, c: Evaluated): Option<Curves>
    requires ValidCurves(c)
  {
    var all := BuiltRanges(order, c, |c.counts|);
    BuiltOccupied(order, c, |c.counts|);
    if order.Source? then Some(CurvesAt(half, c, all))
    else if !Distinct(all) then None
    else
      SortedOccupied(c, all);
      Some(CurvesAt(half, c, Sorted(all)))
  }

  lemma SortedOccupied(c: Evaluated, ranges: seq<Range>)
    requires ValidCurves(c) && AllOccupied(c, ranges)
    ensures AllOccupied(c, Sorted(ranges))
  {
    hide ValidCurves, Occupied;
    var s := Sorted(ranges);
    forall k | 0 <= k < |s| ensures Occupied(c, s[k]) {
      assert s[k] in multiset(s);
      assert s[k] in ranges;
    }
  }

  lemma {:induction false} TotalBuilt(order: Order, c: Evaluated, n: nat)
    requires ValidCurves(c) && n <= |c.counts|
    ensures PointTotal(BuiltRanges(order, c, n)) == PointSum(c.counts, n)
  {
    hide ValidCurves;
    if n > 0 {
      TotalBuilt(order, c, n - 1);
      assert BuiltRanges(order, c, n)[..n - 1] == BuiltRanges(order, c, n - 1);
    }
  }

  lemma {:induction false} FewCurves(counts: seq<word32>, n: nat)
    requires n <= |counts| && forall k | 0 <= k < |counts| :: counts[k] >= 2
    ensures n <= PointSum(counts, n)
  {
    if n > 0 { FewCurves(counts, n - 1); }
  }

  lemma SmallSet(c: Evaluated)
    requires ValidCurves(c)
    ensures 0 < |c.counts| < U64 && PointSum(c.counts, |c.counts|) < U64
  {
    FewCurves(c.counts, |c.counts|);
    hide PointSum, Finite, NonNegative;
  }

  lemma PackedBuilt(half: word32 -> word32, order: Order, c: Evaluated)
    requires ValidCurves(c)
    ensures ViewFits(order, BuiltView(order, c))
    ensures PackedViews(half, order, [BuiltView(order, c)]) == Expected(half, order, c)
  {
    hide *;
    SmallSet(c);
    var view, n, all := BuiltView(order, c), |c.counts|, BuiltRanges(order, c, |c.counts|);
    ViewFitting(order, c);
    PrimitivesBuilt(order, c);
    RangesBuilt(order, c, n);
    TotalBuilt(order, c, n);
    BuiltOccupied(order, c, n);
    OneView(order, view);
    EmitBuilt(half, order, c, all);
    if order.Source? {
      SourcePacked(half, view, all);
      SourceExpected(half, c);
    } else {
      CanonicalOrder(all);
      SortedOccupied(c, all);
      EmitBuilt(half, order, c, Sorted(all));
      CanonicalPacked(half, view, all);
      CanonicalExpected(half, c);
    }
  }

  lemma PrimitivesBuilt(order: Order, c: Evaluated)
    requires ValidCurves(c)
    ensures BuiltView(order, c).primitives == |c.counts|
  {
    hide ValidCurves, StoredChannels, BytesOf;
  }

  lemma SourcePacked(half: word32 -> word32, view: View, all: seq<Range>)
    requires ViewFits(Order.Source, view) && 0 < CurveTotal([view]) < U64 && PointTotal(all) < U64
    requires Ranges(Order.Source, [view], 1) == Some(all)
    ensures AllFit(Order.Source, [view], all) && PackedViews(half, Order.Source, [view]) == Emitted(half, Order.Source, [view], all)
  {
    hide ViewFits, CurveTotal, PointTotal, Ranges, Emitted;
  }

  lemma CanonicalPacked(half: word32 -> word32, view: View, all: seq<Range>)
    requires ViewFits(Canonical, view) && 0 < CurveTotal([view]) < U64 && PointTotal(all) < U64
    requires Ranges(Canonical, [view], 1) == Some(all) && AllFit(Canonical, [view], Sorted(all))
    ensures PackedViews(half, Canonical, [view])
         == if Ordered(all).None? then None else Emitted(half, Canonical, [view], Sorted(all))
  {
    hide ViewFits, CurveTotal, PointTotal, Ranges, Emitted, Sorted;
  }

  lemma SourceExpected(half: word32 -> word32, c: Evaluated)
    requires ValidCurves(c) && AllOccupied(c, BuiltRanges(Order.Source, c, |c.counts|))
    ensures Expected(half, Order.Source, c) == Some(CurvesAt(half, c, BuiltRanges(Order.Source, c, |c.counts|)))
  {
    hide ValidCurves, Occupied, BuiltRanges, CurvesAt, Sorted, Distinct;
  }

  lemma CanonicalExpected(half: word32 -> word32, c: Evaluated)
    requires ValidCurves(c)
    requires AllOccupied(c, Sorted(BuiltRanges(Canonical, c, |c.counts|)))
    ensures var all := BuiltRanges(Canonical, c, |c.counts|);
      Expected(half, Canonical, c) == if !Distinct(all) then None else Some(CurvesAt(half, c, Sorted(all)))
  {
    hide ValidCurves, Occupied, BuiltRanges, CurvesAt, Sorted, Distinct;
  }

  lemma OneView(order: Order, view: View)
    requires ViewFits(order, view)
    ensures CurveTotal([view]) == view.primitives
    ensures Ranges(order, [view], 1) == ItemRanges(order, view, 0, view.primitives)
  {
    hide ViewFits, ItemRanges;
    assert [view][..0] == [];
    assert Ranges(order, [view], 0) == Some([]);
    var last := ItemRanges(order, view, 0, view.primitives);
    assert last.Some? ==> [] + last.value == last.value;
  }

  /** In stored order, these are the counts and all the points of the set. */
  lemma {:induction false} SourceIsWhole(half: word32 -> word32, c: Evaluated, n: nat)
    requires ValidCurves(c) && n <= |c.counts|
    ensures |c.positions| == 3 * |c.widths| && PointSum(c.counts, n) <= |c.widths|
    ensures AllOccupied(c, BuiltRanges(Order.Source, c, n))
    ensures CurvesAt(half, c, BuiltRanges(Order.Source, c, n)) == Curves(c.counts[..n], PointsFrom(half, c, 0, PointSum(c.counts, n)))
  {
    StoredSizes(c);
    PointSumMonotone(c.counts, n, |c.counts|);
    hide *;
    BuiltOccupied(Order.Source, c, n);
    if n == 0 {
      NothingWhole(half, c);
    } else {
      SourceIsWhole(half, c, n - 1);
      MoreWhole(half, c, n);
    }
  }

  lemma NothingWhole(half: word32 -> word32, c: Evaluated)
    requires ValidCurves(c) && |c.positions| == 3 * |c.widths|
    ensures BuiltRanges(Order.Source, c, 0) == [] && PointSum(c.counts, 0) == 0
    ensures CurvesAt(half, c, []) == Curves(c.counts[..0], PointsFrom(half, c, 0, 0))
  {
    hide ValidCurves;
  }

  lemma MoreWhole(half: word32 -> word32, c: Evaluated, n: nat)
    requires ValidCurves(c) && 0 < n <= |c.counts| && |c.positions| == 3 * |c.widths| && PointSum(c.counts, n) <= |c.widths|
    requires AllOccupied(c, BuiltRanges(Order.Source, c, n))
    requires AllOccupied(c, BuiltRanges(Order.Source, c, n - 1))
    requires PointSum(c.counts, n - 1) <= |c.widths|
    requires CurvesAt(half, c, BuiltRanges(Order.Source, c, n - 1))
          == Curves(c.counts[..n - 1], PointsFrom(half, c, 0, PointSum(c.counts, n - 1)))
    ensures CurvesAt(half, c, BuiltRanges(Order.Source, c, n)) == Curves(c.counts[..n], PointsFrom(half, c, 0, PointSum(c.counts, n)))
  {
    var all, r := BuiltRanges(Order.Source, c, n), BuiltRange(Order.Source, c, n - 1);
    assert all[..n - 1] == BuiltRanges(Order.Source, c, n - 1) && all[n - 1] == r;
    assert r.first == PointSum(c.counts, n - 1) && r.count == c.counts[n - 1] && PointSum(c.counts, n) == r.first + r.count;
    hide ValidCurves, Occupied, PointsFrom, PointSum, BuiltRange, BuiltRanges;
    MorePoints(half, c, r.first, r.count);
    assert c.counts[..n] == c.counts[..n - 1] + [r.count];
  }

  lemma MorePoints(half: word32 -> word32, c: Evaluated, first: nat, n: nat)
    requires |c.positions| == 3 * |c.widths| && first + n <= |c.widths|
    ensures PointsFrom(half, c, 0, first) + PointsFrom(half, c, first, n) == PointsFrom(half, c, 0, first + n)
  {
    hide PointOf;
  }

  // ---------------------------------------------------------------- through the bytes

  /** The reader with its real metadata; the compressor and the halving remain parameters. */
  function RealReader(codec: Codec, half: word32 -> word32): Reader {
    Reader(RealCodec(codec.inflate, codec.deflate), (text: seq<byte>, order: Order) => RefsOf(text, order.Canonical?), half)
  }

  /**
   On the bytes of a built document the staged reading, and with it the selective reader, returns the
   curves' points: in stored order all of them as they are, and in canonical order by increasing identity, or
   nothing exactly when two identities are equal.
   */
  lemma ReadersReturnCurves(codec: Codec, half: word32 -> word32, order: Order, c: Evaluated, f: Frames, target: nat,
                            d: Document, ids: seq<word64>, name: seq<byte>)
    requires codec == RealCodec(codec.inflate, codec.deflate) && Lossless(codec)
    requires ValidCurves(c) && Grouped(NamedArrays(c, f), target, d.groups, ids) && d.level <= 9
    requires |ids| == |ARRAY_NAMES| && d == BuiltDocument(d.level, name, ids, d.groups)
    requires FILE_HEADER + |d.metadata| + |GroupsBytes(codec, d, d.groups)| < U64
    requires forall k | 0 <= k < |d.groups| :: |Records(d.groups[k].arrays)| < U64
    ensures Serialized(codec, d).Some?
    ensures Staged(RealReader(codec, half), Serialized(codec, d).value, order) == Expected(half, order, c)
    ensures |c.positions| == 3 * |c.widths|
    ensures order.Source? ==> Expected(half, order, c) == Some(Curves(c.counts, PointsFrom(half, c, 0, |c.widths|)))
  {
    hide *;
    WholeExpected(half, c);
    RoundTripThroughBytes(codec, (a, b) => 0, c, f, target, d, ids, name);
    BuildRoundTrip((a, b) => 0, c, f, target, d, ids, name);
    MetadataUnderstood(|d.groups|, d.level, name, ids, order.Canonical?);
    ViewBuilt(order, c, f, target, d, ids);
    PackedBuilt(half, order, c);
    OneItemView(DocumentLookup(d), order, RecordedRefs(ids, order.Canonical?), BuiltView(order, c));
    BuiltText(d, d.level, name, ids);
    StagedReads(codec, half, Serialized(codec, d).value, order, d, [RecordedRefs(ids, order.Canonical?)], [BuiltView(order, c)]);
  }

  lemma BuiltText(d: Document, level: nat, name: seq<byte>, ids: seq<word64>)
    requires |ids| == |ARRAY_NAMES| && d == BuiltDocument(level, name, ids, d.groups)
    ensures d.metadata == MetadataText(|d.groups|, level, name, ids)
  {
    hide MetadataText;
  }

  lemma StagedReads(codec: Codec, half: word32 -> word32, bytes: seq<byte>, order: Order, d: Document, refs: seq<ItemRefs>,
                    views: seq<View>)
    requires codec == RealCodec(codec.inflate, codec.deflate) && ParsedDocument(codec, bytes) == Some(d)
    requires RefsOf(d.metadata, order.Canonical?) == Some(refs) && Views(DocumentLookup(d), order, refs) == Some(views)
    ensures Staged(RealReader(codec, half), bytes, order) == PackedViews(half, order, views)
  {
    hide ParsedDocument, RefsOf, DocumentLookup, Views, PackedViews;
  }

  /** In stored order the readers return the whole set. */
  lemma WholeExpected(half: word32 -> word32, c: Evaluated)
    requires ValidCurves(c)
    ensures |c.positions| == 3 * |c.widths|
    ensures Expected(half, Order.Source, c) == Some(Curves(c.counts, PointsFrom(half, c, 0, |c.widths|)))
  {
    StoredSizes(c);
    SourceIsWhole(half, c, |c.counts|);
    assert c.counts[..|c.counts|] == c.counts;
    BuiltOccupied(Order.Source, c, |c.counts|);
    hide ValidCurves, Expected, Occupied, BuiltRanges, CurvesAt, PointsFrom, PointSum, AllOccupied, StoredChannels;
    SourceExpected(half, c);
  }

  lemma OneItemView(lookup: Lookup, order: Order, r: ItemRefs, view: View)
    requires ItemView(lookup, order, r) == Some(view)
    ensures Views(lookup, order, [r]) == Some([view])
  {
    hide ItemView;
    assert [r][..0] == [] && [] + [view] == [view];
  }
}
