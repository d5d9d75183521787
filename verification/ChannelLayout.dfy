/**
 What reading a document's channels gives, said of the stored bytes: the same curves, under the same conditions, that
 packing in canonical order has, with every channel spread out.
 */
module ChannelLayout {
  import opened Wrappers
  import opened Bytes
  import opened XgenContainer
  import opened PackedCurves
  import opened CurveChannels
  import opened PackedLayout

  function Raw(w: word32): word32 { w }

  /** The stored curves of all items, with whole widths and with their identities. */
  function StoredCurves(lookup: Lookup, refs: seq<ItemRefs>): seq<Strand> {
    Strands(Raw, Canonical, lookup, refs)
  }

  // ---------------------------------------------------------------- channels of curves

  function Flat<T>(s: seq<Strand>, f: Strand -> seq<T>): seq<T> {
    if s == [] then [] else f(s[0]) + Flat(s[1..], f)
  }

  function Positions(points: seq<Point>): (w: seq<word32>)
    ensures |w| == 3 * |points|
  {
    seq(3 * |points|, i requires 0 <= i < 3 * |points| =>
      var p := points[i / 3]; if i % 3 == 0 then p.x else if i % 3 == 1 then p.y else p.z)
  }

  function Widths(points: seq<Point>): (w: seq<word32>)
    ensures |w| == |points|
  {
    seq(|points|, i requires 0 <= i < |points| => points[i].radius)
  }

  /** The coordinates of a curve's points: 0 across, and the share of the way from the first to the last along. */
  function Texcoords(ratio: (nat, nat) -> word32, n: nat): (w: seq<word32>)
    ensures |w| == 2 * n
  {
    seq(2 * n, i requires 0 <= i < 2 * n => if i % 2 == 0 then 0 else ratio(i / 2, n - 1))
  }

  /** The channels of curves, one curve after the other. */
  ghost predicate Spreads(ratio: (nat, nat) -> word32, e: Evaluated, s: seq<Strand>) {
    && e.counts == Counts(s)
    && e.patchUvs == Flat(s, (c: Strand) => [c.key.patchU, c.key.patchV])
    && e.faceUvs == Flat(s, (c: Strand) => [c.key.faceU, c.key.faceV])
    && e.faceIds == Flat(s, (c: Strand) => [c.key.face])
    && e.positions == Flat(s, (c: Strand) => Positions(c.points))
    && e.widths == Flat(s, (c: Strand) => Widths(c.points))
    && e.texcoords == Flat(s, (c: Strand) => Texcoords(ratio, |c.points|))
  }

  /**
   The result of reading. It exists exactly when there are items, all of them acceptable, and in canonical order no
   two curves have the same identity; it then shows every stored curve, in source order item after item and in
   canonical order by increasing identity.
   */
  ghost predicate ChannelsAsStored(ratio: (nat, nat) -> word32, order: Order, refs: seq<ItemRefs>, lookup: Lookup, r: Option<Evaluated>) {
    var s := StoredCurves(lookup, refs);
    && (r.Some? <==>
          && refs != [] && (forall k :: 0 <= k < |refs| ==> Sound(Canonical, lookup, refs[k]))
          && (order.Canonical? ==> DistinctKeys(s)))
    && (r.Some? && order.Source? ==> Spreads(ratio, r.value, s))
    && (r.Some? && order.Canonical? ==> exists t :: multiset(t) == multiset(s) && Increasing(t) && Spreads(ratio, r.value, t))
  }

  lemma {:induction false} FlatAppend<T>(a: seq<Strand>, b: seq<Strand>, f: Strand -> seq<T>)
    ensures Flat(a + b, f) == Flat(a, f) + Flat(b, f)
  {
    if a == [] {
      assert a + b == b;
    } else {
      assert (a + b)[1..] == a[1..] + b;
      FlatAppend(a[1..], b, f);
    }
  }

  lemma FlatOne<T>(s: Strand, f: Strand -> seq<T>)
    ensures Flat([s], f) == f(s)
  {
    assert [s][1..] == [];
  }

  lemma FlatSnoc<T>(a: seq<Strand>, s: Strand, f: Strand -> seq<T>)
    ensures Flat(a + [s], f) == Flat(a, f) + f(s)
  {
    FlatAppend(a, [s], f);
    FlatOne(s, f);
  }

  lemma SpreadsSnoc(ratio: (nat, nat) -> word32, a: Evaluated, b: Evaluated, s: seq<Strand>, c: Strand)
    requires Spreads(ratio, a, s) && b.counts == [|c.points|] && b.patchUvs == [c.key.patchU, c.key.patchV]
    requires b.faceUvs == [c.key.faceU, c.key.faceV] && b.faceIds == [c.key.face] && b.positions == Positions(c.points)
    requires b.widths == Widths(c.points) && b.texcoords == Texcoords(ratio, |c.points|)
    ensures Spreads(ratio, Appended(a, b), s + [c])
  {
    hide Flat, Positions, Widths, Texcoords;
    FlatSnoc(s, c, (c: Strand) => [c.key.patchU, c.key.patchV]);
    FlatSnoc(s, c, (c: Strand) => [c.key.faceU, c.key.faceV]);
    FlatSnoc(s, c, (c: Strand) => [c.key.face]);
    FlatSnoc(s, c, (c: Strand) => Positions(c.points));
    FlatSnoc(s, c, (c: Strand) => Widths(c.points));
    FlatSnoc(s, c, (c: Strand) => Texcoords(ratio, |c.points|));
    assert Counts(s + [c]) == Counts(s) + [|c.points|];
  }

  // ---------------------------------------------------------------- the reader's words and items

  lemma {:induction false} WordsAre(bytes: seq<byte>, k: nat)
    requires 4 * k + 4 <= |bytes|
    ensures WordsOf(bytes)[k] == W(bytes, k)
    decreases k
  {
    if k == 0 {
      WordIs(bytes, 0);
      assert bytes[..4] == bytes[0..4];
      hide Little, Pow256, W;
    } else {
      WordsAre(bytes[4..], k - 1);
      hide Little, Pow256;
      assert WordsOf(bytes)[k] == WordsOf(bytes[4..])[k - 1];
    }
  }

  /** An item's channels hold the words of its arrays. */
  ghost predicate Holds(lookup: Lookup, r: ItemRefs, c: Channels) {
    && ChannelsFit(c)
    && c.infos == WordsOf(BytesAt(lookup, r.infos)) && c.positions == WordsOf(BytesAt(lookup, r.positions))
    && c.patchUvs == WordsOf(BytesAt(lookup, r.patchUvs)) && c.faceUvs == WordsOf(BytesAt(lookup, r.faceUvs))
    && c.faceIds == WordsOf(BytesAt(lookup, r.faceIds)) && c.widths == WordsOf(BytesAt(lookup, r.widths))
    && |c.faceIds| == CurveCount(Canonical, lookup, r) && |c.infos| / |c.faceIds| == InfoStride(Canonical, lookup, r)
    && |c.widths| == PointCount(lookup, r)
  }

  lemma TypedIs(lookup: Lookup, id: word64, tag: word64, size: nat)
    requires size > 0
    ensures Typed(lookup, id, tag, size) == if Whole(lookup, id, tag, 4 * size) then Some(WordsOf(BytesAt(lookup, id))) else None
  {
    hide WordsOf;
  }

  lemma ItemHolds(lookup: Lookup, r: ItemRefs)
    ensures var c := ItemChannels(lookup, r);
      (c.Some? <==> Shaped(Canonical, lookup, r)) && (c.Some? ==> Holds(lookup, r, c.value))
  {
    hide Typed, Whole, WordsOf;
    TypedIs(lookup, r.infos, UINT32_TAG, 1);
    TypedIs(lookup, r.positions, VEC3_TAG, 3);
    TypedIs(lookup, r.patchUvs, VEC2_TAG, 2);
    TypedIs(lookup, r.faceUvs, VEC2_TAG, 2);
    TypedIs(lookup, r.faceIds, UINT32_TAG, 1);
    TypedIs(lookup, r.widths, FLOAT_TAG, 1);
    if Whole(lookup, r.infos, UINT32_TAG, 4) && Whole(lookup, r.positions, VEC3_TAG, 12) && Whole(lookup, r.patchUvs, VEC2_TAG, 8)
       && Whole(lookup, r.faceUvs, VEC2_TAG, 8) && Whole(lookup, r.faceIds, UINT32_TAG, 4) && Whole(lookup, r.widths, FLOAT_TAG, 4) {
      WholeWords(lookup, r.infos, UINT32_TAG, 1);
      WholeWords(lookup, r.positions, VEC3_TAG, 3);
      WholeWords(lookup, r.patchUvs, VEC2_TAG, 2);
      WholeWords(lookup, r.faceUvs, VEC2_TAG, 2);
      WholeWords(lookup, r.faceIds, UINT32_TAG, 1);
      WholeWords(lookup, r.widths, FLOAT_TAG, 1);
      Sizes(lookup, r);
    }
  }

  lemma WholeWords(lookup: Lookup, id: word64, tag: word64, size: nat)
    requires 0 < size <= 3 && Whole(lookup, id, tag, 4 * size)
    ensures 4 * |WordsOf(BytesAt(lookup, id))| == |BytesAt(lookup, id)| && |WordsOf(BytesAt(lookup, id))| % size == 0
  {
    hide WordsOf;
    var n := |BytesAt(lookup, id)|;
    var q := n / (4 * size);
    assert n == 4 * size * q + n % (4 * size) && n % (4 * size) == 0;
    Quotient(n, size, q);
  }

  lemma Quotient(n: nat, size: nat, q: nat)
    requires 0 < size <= 3 && n == 4 * size * q
    ensures n % 4 == 0 && (n / 4) % size == 0
  {
    if size == 1 {
      assert n == 4 * q;
    } else if size == 2 {
      assert n == 8 * q;
    } else {
      assert n == 12 * q;
    }
  }

  ghost predicate SizesAgree(infos: nat, faceIds: nat, faceUvs: nat, positions: nat, widths: nat, patchUvs: nat) {
    faceIds > 0 && faceUvs == 2 * faceIds && infos % faceIds == 0 && infos / faceIds >= 2 && positions == 3 * widths && patchUvs == 2 * widths
  }

  lemma Sizes(lookup: Lookup, r: ItemRefs)
    requires Whole(lookup, r.infos, UINT32_TAG, 4) && Whole(lookup, r.positions, VEC3_TAG, 12) && Whole(lookup, r.patchUvs, VEC2_TAG, 8)
    requires Whole(lookup, r.faceUvs, VEC2_TAG, 8) && Whole(lookup, r.faceIds, UINT32_TAG, 4) && Whole(lookup, r.widths, FLOAT_TAG, 4)
    ensures Shaped(Canonical, lookup, r) <==>
      SizesAgree(|BytesAt(lookup, r.infos)| / 4, |BytesAt(lookup, r.faceIds)| / 4, |BytesAt(lookup, r.faceUvs)| / 4,
                 |BytesAt(lookup, r.positions)| / 4, |BytesAt(lookup, r.widths)| / 4, |BytesAt(lookup, r.patchUvs)| / 4)
    ensures |BytesAt(lookup, r.positions)| == 12 * PointCount(lookup, r)
  {
    var n, infos := CurveCount(Canonical, lookup, r), |BytesAt(lookup, r.infos)| / 4;
    if n > 0 { assert n * (infos / n) + infos % n == infos; }
  }

  // ---------------------------------------------------------------- the curves of one item

  /** The curve that a range of some items stands for. */
  function StrandOf(items: seq<Channels>, r: Range): Strand {
    if r.item < |items| && r.first + r.count <= |items[r.item].widths| && 3 * |items[r.item].widths| <= |items[r.item].positions| then
      var c := items[r.item];
      Strand(r.key, seq(r.count, k requires 0 <= k < r.count =>
        var i := r.first + k; Point(c.positions[3 * i], c.positions[3 * i + 1], c.positions[3 * i + 2], c.widths[i])))
    else Strand(r.key, [])
  }

  function StrandsOf(items: seq<Channels>, ranges: seq<Range>): (s: seq<Strand>)
    ensures |s| == |ranges|
  {
    seq(|ranges|, k requires 0 <= k < |ranges| => StrandOf(items, ranges[k]))
  }

  lemma KeyWords(lookup: Lookup, r: ItemRefs, c: Channels, p: nat)
    requires Holds(lookup, r, c) && p < |c.faceIds|
    ensures p * InfoStride(Canonical, lookup, r) + 2 <= |c.infos|
    ensures c.infos[p * InfoStride(Canonical, lookup, r)] == FirstOf(Canonical, lookup, r, p)
    ensures c.infos[p * InfoStride(Canonical, lookup, r) + 1] == CountOf(Canonical, lookup, r, p)
    ensures var first := FirstOf(Canonical, lookup, r, p);
      first < |c.widths| ==>
        KeyOf(Canonical, lookup, r, p)
        == Key(c.faceIds[p], c.faceUvs[2 * p], c.faceUvs[2 * p + 1], c.patchUvs[2 * first], c.patchUvs[2 * first + 1])
  {
    hide WordsOf, W, Whole;
    var stride := InfoStride(Canonical, lookup, r);
    InfoFits(|c.faceIds|, stride, p);
    assert |c.faceIds| * stride == |c.infos|;
    WordsAre(BytesAt(lookup, r.infos), p * stride);
    WordsAre(BytesAt(lookup, r.infos), p * stride + 1);
    WordsAre(BytesAt(lookup, r.faceIds), p);
    WordsAre(BytesAt(lookup, r.faceUvs), 2 * p);
    WordsAre(BytesAt(lookup, r.faceUvs), 2 * p + 1);
    var first := FirstOf(Canonical, lookup, r, p);
    if first < |c.widths| {
      WordsAre(BytesAt(lookup, r.patchUvs), 2 * first);
      WordsAre(BytesAt(lookup, r.patchUvs), 2 * first + 1);
    }
  }

  lemma PointWords(lookup: Lookup, r: ItemRefs, c: Channels, i: nat)
    requires Holds(lookup, r, c) && i < |c.widths|
    ensures c.positions[3 * i] == W(BytesAt(lookup, r.positions), 3 * i) && c.positions[3 * i + 1] == W(BytesAt(lookup, r.positions), 3 * i + 1)
    ensures c.positions[3 * i + 2] == W(BytesAt(lookup, r.positions), 3 * i + 2) && c.widths[i] == W(BytesAt(lookup, r.widths), i)
    ensures PointFits(c, i) <==> SoundPoint(Canonical, BytesAt(lookup, r.positions), BytesAt(lookup, r.widths), BytesAt(lookup, r.patchUvs), i)
  {
    hide WordsOf, W, Whole, FiniteFloat, NonNegative;
    WordsAre(BytesAt(lookup, r.positions), 3 * i);
    WordsAre(BytesAt(lookup, r.positions), 3 * i + 1);
    WordsAre(BytesAt(lookup, r.positions), 3 * i + 2);
    WordsAre(BytesAt(lookup, r.widths), i);
    WordsAre(BytesAt(lookup, r.patchUvs), 2 * i);
    WordsAre(BytesAt(lookup, r.patchUvs), 2 * i + 1);
    FiniteParts(c, i);
  }

  lemma FiniteParts(c: Channels, i: nat)
    requires ChannelsFit(c) && i < |c.widths|
    ensures Finite(c.positions[3 * i..3 * i + 3]) <==>
      FiniteFloat(c.positions[3 * i]) && FiniteFloat(c.positions[3 * i + 1]) && FiniteFloat(c.positions[3 * i + 2])
    ensures Finite(c.patchUvs[2 * i..2 * i + 2]) <==> FiniteFloat(c.patchUvs[2 * i]) && FiniteFloat(c.patchUvs[2 * i + 1])
  {
    hide FiniteFloat;
    var a, b := c.positions[3 * i..3 * i + 3], c.patchUvs[2 * i..2 * i + 2];
    assert a[0] == c.positions[3 * i] && a[1] == c.positions[3 * i + 1] && a[2] == c.positions[3 * i + 2];
    assert b[0] == c.patchUvs[2 * i] && b[1] == c.patchUvs[2 * i + 1];
  }

  lemma CurveIs(lookup: Lookup, r: ItemRefs, items: seq<Channels>, item: nat, p: nat)
    requires item < |items| && Holds(lookup, r, items[item]) && p < |items[item].faceIds|
    ensures var x := CurveAt(items[item], item, p);
      && (x.Some? <==> SoundRange(Canonical, lookup, r, p) && SoundCurve(Canonical, lookup, r, p))
      && (x.Some? ==> StrandOf(items, x.value) == StrandAt(Raw, Canonical, lookup, r, p))
  {
    hide WordsOf, W, Whole, FiniteFloat, Holds, SoundPoint, PointFits, InfoStride, StrandOf, StrandAt, FirstOf, CountOf, KeyOf;
    var c := items[item];
    assert ChannelsFit(c) && |c.widths| == PointCount(lookup, r) && |c.infos| / |c.faceIds| == InfoStride(Canonical, lookup, r) by {
      HeldSizes(lookup, r, c);
    }
    KeyWords(lookup, r, c, p);
    forall i | 0 <= i < |c.widths|
      ensures PointFits(c, i) <==> SoundPoint(Canonical, BytesAt(lookup, r.positions), BytesAt(lookup, r.widths), BytesAt(lookup, r.patchUvs), i)
    {
      PointWords(lookup, r, c, i);
    }
    var x := CurveAt(c, item, p);
    if x.Some? { SameStrand(lookup, r, items, item, p, x.value); }
  }

  lemma HeldSizes(lookup: Lookup, r: ItemRefs, c: Channels)
    requires Holds(lookup, r, c)
    ensures ChannelsFit(c) && |c.widths| == PointCount(lookup, r) && |c.infos| / |c.faceIds| == InfoStride(Canonical, lookup, r)
    ensures |c.faceIds| == CurveCount(Canonical, lookup, r)
  {
  }

  lemma SameStrand(lookup: Lookup, r: ItemRefs, items: seq<Channels>, item: nat, p: nat, x: Range)
    requires item < |items| && Holds(lookup, r, items[item]) && x.item == item && x.key == KeyOf(Canonical, lookup, r, p)
    requires x.first == FirstOf(Canonical, lookup, r, p) && x.count == CountOf(Canonical, lookup, r, p)
    requires x.first + x.count <= |items[item].widths|
    ensures StrandOf(items, x) == StrandAt(Raw, Canonical, lookup, r, p)
  {
    hide WordsOf, W, Whole, PointFits, SoundPoint, Holds, FirstOf, CountOf, KeyOf;
    var c := items[item];
    HeldSizes(lookup, r, c);
    var s, t := StrandOf(items, x), StrandAt(Raw, Canonical, lookup, r, p);
    forall k | 0 <= k < x.count ensures s.points[k] == t.points[k] {
      SamePoint(lookup, r, c, x.first, x.count, k);
    }
    assert s.points == t.points;
  }

  lemma SamePoint(lookup: Lookup, r: ItemRefs, c: Channels, first: nat, count: nat, k: nat)
    requires Holds(lookup, r, c) && ChannelsFit(c) && k < count && first + count <= |c.widths|
    ensures var i := first + k;
      i < |c.widths| && 3 * i + 2 < |c.positions| &&
      StoredPoints(Raw, BytesAt(lookup, r.positions), BytesAt(lookup, r.widths), first, count)[k] == PointOf(c, i)
  {
    var i := first + k;
    PointInside(c, i);
    hide *;
    StoredPointIs(Raw, BytesAt(lookup, r.positions), BytesAt(lookup, r.widths), first, count, k, i);
    PointHeld(lookup, r, c, i);
  }

  function PointOf(c: Channels, i: nat): Point
    requires i < |c.widths| && 3 * i + 2 < |c.positions|
  {
    Point(c.positions[3 * i], c.positions[3 * i + 1], c.positions[3 * i + 2], c.widths[i])
  }

  function PointAmong(half: word32 -> word32, positions: seq<byte>, widths: seq<byte>, i: nat): Point {
    Point(W(positions, 3 * i), W(positions, 3 * i + 1), W(positions, 3 * i + 2), half(W(widths, i)))
  }

  lemma PointHeld(lookup: Lookup, r: ItemRefs, c: Channels, i: nat)
    requires Holds(lookup, r, c) && ChannelsFit(c) && i < |c.widths| && 3 * i + 2 < |c.positions|
    ensures PointAmong(Raw, BytesAt(lookup, r.positions), BytesAt(lookup, r.widths), i) == PointOf(c, i)
  {
    PointWords(lookup, r, c, i);
    hide W, Holds, ChannelsFit, BytesAt, SoundPoint, PointFits;
  }

  lemma PointInside(c: Channels, i: nat)
    requires ChannelsFit(c) && i < |c.widths|
    ensures 3 * i + 2 < |c.positions|
  {
  }

  lemma StoredPointIs(half: word32 -> word32, positions: seq<byte>, widths: seq<byte>, first: nat, count: nat, k: nat, i: nat)
    requires k < count && i == first + k
    ensures StoredPoints(half, positions, widths, first, count)[k] == PointAmong(half, positions, widths, i)
  {
    hide W;
  }

  lemma {:induction false} CurvesAre(c: Channels, item: nat, n: nat)
    requires ChannelsFit(c) && n <= |c.faceIds|
    ensures var x := CurvesOf(c, item, n);
      && (x.Some? <==> forall p :: 0 <= p < n ==> CurveAt(c, item, p).Some?)
      && (x.Some? ==> forall p :: 0 <= p < n ==> CurveAt(c, item, p) == Some(x.value[p]))
  {
    hide CurveAt, ChannelsFit;
    if n > 0 { CurvesAre(c, item, n - 1); }
  }

  lemma ItemCurvesAre(lookup: Lookup, r: ItemRefs, items: seq<Channels>, item: nat)
    requires item < |items| && Holds(lookup, r, items[item]) && ChannelsFit(items[item])
    ensures var x := CurvesOf(items[item], item, |items[item].faceIds|);
      && (x.Some? <==> RangesSound(Canonical, lookup, r) && CurvesSound(Canonical, lookup, r))
      && (x.Some? ==> StrandsOf(items, x.value) == ItemStrands(Raw, Canonical, lookup, r))
  {
    hide CurveAt, SoundRange, SoundCurve, StrandOf, StrandAt, CurvesOf, ChannelsFit, Holds, CurveCount;
    var c := items[item];
    HeldSizes(lookup, r, c);
    CurvesAre(c, item, |c.faceIds|);
    forall p | 0 <= p < |c.faceIds|
      ensures CurveAt(c, item, p).Some? <==> SoundRange(Canonical, lookup, r, p) && SoundCurve(Canonical, lookup, r, p)
      ensures CurveAt(c, item, p).Some? ==>
        StrandOf(items, CurveAt(c, item, p).value) == StrandAt(Raw, Canonical, lookup, r, p)
    {
      CurveIs(lookup, r, items, item, p);
    }
  }

  // ---------------------------------------------------------------- all items

  lemma MoreItems(items: seq<Channels>, c: Channels, ranges: seq<Range>)
    requires forall k | 0 <= k < |ranges| :: InItems(items, ranges[k])
    ensures StrandsOf(items + [c], ranges) == StrandsOf(items, ranges)
  {
    forall k | 0 <= k < |ranges| ensures StrandOf(items + [c], ranges[k]) == StrandOf(items, ranges[k]) {
      assert InItems(items, ranges[k]);
    }
    hide StrandOf;
  }

  lemma StrandsOfAppend(items: seq<Channels>, a: seq<Range>, b: seq<Range>)
    ensures StrandsOf(items, a + b) == StrandsOf(items, a) + StrandsOf(items, b)
  {
    hide StrandOf;
  }

  /** Items in stored order have the stored curves, item after item. */
  lemma {:induction false} ItemsAre(lookup: Lookup, refs: seq<ItemRefs>)
    ensures var x := ItemsOf(lookup, refs);
      && (x.Some? <==> forall k :: 0 <= k < |refs| ==> Sound(Canonical, lookup, refs[k]))
      && (x.Some? ==> StrandsOf(x.value.0, x.value.1) == StoredCurves(lookup, refs))
      && (x.Some? ==> (x.value.1 == [] <==> refs == []))
  {
    hide ItemChannels, CurvesOf, Sound, StrandOf, ItemStrands, ChannelsFit, Holds, InItem;
    if refs != [] {
      var n := |refs| - 1;
      ItemsAre(lookup, refs[..n]);
      OneItemIs(lookup, refs);
    }
  }

  lemma OneItemIs(lookup: Lookup, refs: seq<ItemRefs>)
    requires refs != []
    requires var x := ItemsOf(lookup, refs[..|refs| - 1]);
      x.Some? ==> StrandsOf(x.value.0, x.value.1) == StoredCurves(lookup, refs[..|refs| - 1])
    ensures ItemsOf(lookup, refs).Some? <==> ItemsOf(lookup, refs[..|refs| - 1]).Some? && Sound(Canonical, lookup, refs[|refs| - 1])
    ensures var x := ItemsOf(lookup, refs);
      x.Some? ==> StrandsOf(x.value.0, x.value.1) == StoredCurves(lookup, refs) && x.value.1 != []
  {
    hide ItemChannels, CurvesOf, StrandOf, ItemStrands, Shaped, RangesSound, CurvesSound, Strands, InItem, CurveCount, StrandsOf,
      ChannelsFit, StoredCurves;
    var n := |refs| - 1;
    var r := refs[n];
    ItemHolds(lookup, r);
    if ItemsOf(lookup, refs[..n]).Some? && ItemChannels(lookup, r).Some? {
      var (items, curves) := ItemsOf(lookup, refs[..n]).value;
      LastItemIs(lookup, refs, items, curves, ItemChannels(lookup, r).value);
    }
  }

  lemma LastItemIs(lookup: Lookup, refs: seq<ItemRefs>, items: seq<Channels>, curves: seq<Range>, c: Channels)
    requires refs != [] && |items| == |refs| - 1 && Holds(lookup, refs[|refs| - 1], c)
    requires StrandsOf(items, curves) == StoredCurves(lookup, refs[..|refs| - 1])
    requires forall k | 0 <= k < |curves| :: InItems(items, curves[k])
    ensures ChannelsFit(c)
    ensures var x := CurvesOf(c, |items|, |c.faceIds|);
      && (x.Some? <==> RangesSound(Canonical, lookup, refs[|items|]) && CurvesSound(Canonical, lookup, refs[|items|]))
      && (x.Some? ==> x.value != [] && StrandsOf(items + [c], curves + x.value) == StoredCurves(lookup, refs))
  {
    var n := |items|;
    var r := refs[n];
    HeldSizes(lookup, r, c);
    assert c.faceIds != [];
    hide *;
    assert (items + [c])[n] == c;
    ItemCurvesAre(lookup, r, items + [c], n);
    var x := CurvesOf(c, n, |c.faceIds|);
    if x.Some? {
      MoreItems(items, c, curves);
      StrandsOfAppend(items + [c], curves, x.value);
      StoredSnoc(lookup, refs);
    }
  }

  lemma StoredSnoc(lookup: Lookup, refs: seq<ItemRefs>)
    requires refs != []
    ensures StoredCurves(lookup, refs)
         == StoredCurves(lookup, refs[..|refs| - 1]) + ItemStrands(Raw, Canonical, lookup, refs[|refs| - 1])
  {
    hide ItemStrands, Strands;
    var r := refs[|refs| - 1];
    StrandsAppend(Raw, Canonical, lookup, refs[..|refs| - 1], [r]);
    OneStrand(Raw, Canonical, lookup, r);
    assert refs == refs[..|refs| - 1] + [r];
  }

  // ---------------------------------------------------------------- emission

  lemma {:induction false} AlongIs(ratio: (nat, nat) -> word32, n: nat, count: nat)
    requires n <= count
    ensures forall i | 0 <= i < 2 * n :: Along(ratio, n, count)[i] == if i % 2 == 0 then 0 else ratio(i / 2, count - 1)
  {
    if n > 0 { AlongIs(ratio, n - 1, count); }
  }

  lemma OneSpreads(ratio: (nat, nat) -> word32, items: seq<Channels>, r: Range)
    requires (forall k | 0 <= k < |items| :: ChannelsFit(items[k])) && InItems(items, r)
    ensures var b, c := CurveChannelsOf(ratio, items[r.item], r), StrandOf(items, r);
      && b.counts == [|c.points|] && b.patchUvs == [c.key.patchU, c.key.patchV] && b.faceUvs == [c.key.faceU, c.key.faceV]
      && b.faceIds == [c.key.face] && b.positions == Positions(c.points) && b.widths == Widths(c.points)
      && b.texcoords == Texcoords(ratio, |c.points|)
  {
    AlongIs(ratio, r.count, r.count);
    hide Along;
    var b, c := CurveChannelsOf(ratio, items[r.item], r), StrandOf(items, r);
    assert b.positions == Positions(c.points) by {
      assert |b.positions| == 3 * r.count;
      forall i | 0 <= i < 3 * r.count ensures b.positions[i] == Positions(c.points)[i] {
        assert b.positions[i] == items[r.item].positions[3 * r.first + i];
        assert 3 * r.first + i == 3 * (r.first + i / 3) + i % 3;
      }
    }
    assert b.widths == Widths(c.points);
    assert b.texcoords == Texcoords(ratio, |c.points|);
  }

  lemma {:induction false} EmittedSpreads(ratio: (nat, nat) -> word32, items: seq<Channels>, curves: seq<Range>)
    requires forall k | 0 <= k < |items| :: ChannelsFit(items[k])
    requires forall k | 0 <= k < |curves| :: InItems(items, curves[k])
    ensures Spreads(ratio, EmittedChannels(ratio, items, curves), StrandsOf(items, curves))
  {
    hide ChannelsFit, InItems, StrandOf, CurveChannelsOf, Appended, Spreads;
    if curves == [] {
      EmptySpreads(ratio);
    } else {
      var n := |curves| - 1;
      var init, last := curves[..n], curves[n];
      EmittedSpreads(ratio, items, init);
      assert curves == init + [last] && InItems(items, last);
      InsideItem(items, last);
      StrandsOfAppend(items, init, [last]);
      assert StrandsOf(items, [last]) == [StrandOf(items, last)];
      OneSpreads(ratio, items, last);
      SpreadsSnoc(ratio, EmittedChannels(ratio, items, init), CurveChannelsOf(ratio, items[last.item], last),
                  StrandsOf(items, init), StrandOf(items, last));
    }
  }

  lemma InsideItem(items: seq<Channels>, r: Range)
    requires InItems(items, r)
    ensures r.item < |items| && r.first + r.count <= |items[r.item].widths|
  {
  }

  lemma EmptySpreads(ratio: (nat, nat) -> word32)
    ensures Spreads(ratio, NO_CURVES, [])
  {
  }

  // ---------------------------------------------------------------- canonical order

  lemma {:induction false} StrandsOfKept(items: seq<Channels>, a: seq<Range>, b: seq<Range>)
    requires multiset(a) == multiset(b)
    ensures multiset(StrandsOf(items, a)) == multiset(StrandsOf(items, b))
  {
    hide StrandsOf;
    if a == [] {
      assert |multiset(a)| == |multiset(b)|;
    } else {
      var init, last := a[..|a| - 1], a[|a| - 1];
      assert a == init + [last];
      var c, d := SplitAt(init, last, b);
      StrandsOfKept(items, init, c + d);
      StrandsOfAppend(items, init, [last]);
      StrandsOfAppend(items, c, d);
      StrandsOfAppend(items, c, [last]);
      StrandsOfAppend(items, c + [last], d);
    }
  }

  lemma KeysOf(items: seq<Channels>, ranges: seq<Range>)
    ensures Distinct(ranges) <==> DistinctKeys(StrandsOf(items, ranges))
    ensures (forall i, j :: 0 <= i < j < |ranges| ==> Less(ranges[i].key, ranges[j].key)) ==> Increasing(StrandsOf(items, ranges))
  {
    var s := StrandsOf(items, ranges);
    assert forall k :: 0 <= k < |s| ==> s[k].key == ranges[k].key;
    hide StrandOf, Less;
    if DistinctKeys(s) {
      forall i, j | 0 <= i < j < |ranges| ensures ranges[i].key != ranges[j].key { assert s[i].key != s[j].key; }
    }
  }

  /** Reading gives the stored curves, in either order. */
  lemma MaterializedIsStored(ratio: (nat, nat) -> word32, order: Order, refs: seq<ItemRefs>, lookup: Lookup)
    ensures ChannelsAsStored(ratio, order, refs, lookup, Materialized(ratio, lookup, order, refs))
  {
    hide ItemsOf, Sound, StrandsOf, EmittedChannels, Sorted, Spreads, Increasing, DistinctKeys, InItem, ChannelsFit, StoredCurves, Repeats,
      Less;
    ItemsAre(lookup, refs);
    if ItemsOf(lookup, refs).Some? {
      var (items, curves) := ItemsOf(lookup, refs).value;
      if curves == [] {
      } else if order.Source? {
        EmittedSpreads(ratio, items, curves);
      } else {
        CanonicalOrder(curves);
        KeysOf(items, curves);
        OrderedInside(items, curves);
        if Ordered(curves).Some? {
          var s := Sorted(curves);
          StrandsOfKept(items, s, curves);
          KeysOf(items, s);
          EmittedSpreads(ratio, items, s);
        }
      }
    }
  }
}
