/** Flattening the curves a document's metadata refers to, in stored or in canonical order. */
module PackedCurves {
  import opened Wrappers
  import opened Bytes
  import opened XgenContainer
  import Sorting

  const UINT32_TAG: word64 := 0x43f6_0844
  const FLOAT_TAG: word64 := 0x05d0_225c
  const VEC2_TAG: word64 := 0xdb53_a6f4
  const VEC3_TAG: word64 := 0xdb53_a713

  datatype Order = Source | Canonical

  /** The array identities one metadata item names. */
  datatype ItemRefs = ItemRefs(infos: word64, positions: word64, widths: word64,
                               patchUvs: word64, faceUvs: word64, faceIds: word64)

  /** One array identity together with the element type the renderer expects there. */
  datatype Want = Want(id: word64, tag: word64)

  type Lookup = word64 -> Option<Array>

  /** The arrays of one item, and the counts derived from their sizes. */
  datatype View = View(infos: seq<byte>, positions: seq<byte>, widths: seq<byte>,
                       patchUvs: seq<byte>, faceUvs: seq<byte>, faceIds: seq<byte>,
                       primitives: nat, stride: nat, points: nat)

  datatype Key = Key(face: word32, faceU: word32, faceV: word32, patchU: word32, patchV: word32)

  datatype Range = Range(key: Key, item: nat, first: word32, count: word32)

  datatype Point = Point(x: word32, y: word32, z: word32, radius: word32)

  datatype Curves = Curves(counts: seq<word32>, points: seq<Point>)

  /** Every reference of an item, in the order in which the readers resolve them. */
  function WantsOf(order: Order, r: ItemRefs): seq<Want> {
    [Want(r.infos, UINT32_TAG), Want(r.positions, VEC3_TAG), Want(r.widths, FLOAT_TAG)]
    + if order.Source? then [] else [Want(r.patchUvs, VEC2_TAG), Want(r.faceUvs, VEC2_TAG), Want(r.faceIds, UINT32_TAG)]
  }

  function Wants(order: Order, refs: seq<ItemRefs>): seq<Want> {
    if refs == [] then [] else Wants(order, refs[..|refs| - 1]) + WantsOf(order, refs[|refs| - 1])
  }

  // ---------------------------------------------------------------- resolving the items

  /** The bytes of an array that must have a type and hold whole elements. */
  function Elements(lookup: Lookup, w: Want, size: nat): (r: Option<seq<byte>>)
    requires size > 0
    ensures r.Some? ==> |r.value| % size == 0
  {
    var a :- lookup(w.id);
    if a.tag != w.tag || |a.bytes| % size != 0 then None else Some(a.bytes)
  }

  /** Every size a view announces is the size of its arrays. */
  predicate ViewFits(order: Order, v: View) {
    && v.primitives > 0 && v.stride >= 2
    && |v.infos| == 4 * (v.primitives * v.stride)
    && |v.positions| == 12 * v.points && |v.widths| == 4 * v.points
    && (order.Canonical? ==>
          |v.patchUvs| == 8 * v.points && |v.faceUvs| == 8 * v.primitives && |v.faceIds| == 4 * v.primitives)
  }

  function ItemView(lookup: Lookup, order: Order, r: ItemRefs): (v: Option<View>)
    ensures v.Some? ==> ViewFits(order, v.value)
  {
    var infos :- Elements(lookup, Want(r.infos, UINT32_TAG), 4);
    var positions :- Elements(lookup, Want(r.positions, VEC3_TAG), 12);
    var widths :- Elements(lookup, Want(r.widths, FLOAT_TAG), 4);
    var infoCount, points := |infos| / 4, |positions| / 12;
    if points != |widths| / 4 then None
    else if order.Source? then
      if infoCount == 0 || infoCount % 3 != 0 then None
      else Some(View(infos, positions, widths, [], [], [], infoCount / 3, 3, points))
    else
      var patchUvs :- Elements(lookup, Want(r.patchUvs, VEC2_TAG), 8);
      var faceUvs :- Elements(lookup, Want(r.faceUvs, VEC2_TAG), 8);
      var faceIds :- Elements(lookup, Want(r.faceIds, UINT32_TAG), 4);
      var primitives := |faceIds| / 4;
      if primitives == 0 || |faceUvs| / 8 != primitives || infoCount % primitives != 0 || |patchUvs| / 8 != points then None
      else if infoCount / primitives < 2 then None
      else
        assert primitives * (infoCount / primitives) == infoCount;
        Some(View(infos, positions, widths, patchUvs, faceUvs, faceIds, primitives, infoCount / primitives, points))
  }

  function Views(lookup: Lookup, order: Order, refs: seq<ItemRefs>): (r: Option<seq<View>>)
    ensures r.Some? ==> |r.value| == |refs| && forall k | 0 <= k < |r.value| :: ViewFits(order, r.value[k])
  {
    if refs == [] then Some([])
    else
      var init :- Views(lookup, order, refs[..|refs| - 1]);
      var last :- ItemView(lookup, order, refs[|refs| - 1]);
      Some(init + [last])
  }

  // ---------------------------------------------------------------- the curve ranges

  function Word(s: seq<byte>, k: nat): word32
    requires 4 * (k + 1) <= |s|
  {
    Pow256Eight();
    Little(s[4 * k..4 * k + 4])
  }

  /** A binary32 word that is neither infinite nor a NaN. */
  predicate FiniteFloat(w: word32) {
    w / 0x80_0000 % 256 != 255
  }

  /** A finite binary32 word that is not below zero; the negative zero is not. */
  predicate NonNegative(w: word32) {
    FiniteFloat(w) && w <= 0x8000_0000
  }

  predicate FinitePair(s: seq<byte>, k: nat)
    requires 8 * (k + 1) <= |s|
  {
    FiniteFloat(Word(s, 2 * k)) && FiniteFloat(Word(s, 2 * k + 1))
  }

  lemma InfoFits(primitives: nat, stride: nat, p: nat)
    requires p < primitives && stride >= 2
    ensures p * stride + 2 <= primitives * stride
  {
    assert (p + 1) * stride <= primitives * stride;
    assert (p + 1) * stride == p * stride + stride;
  }

  /** One curve of an item: its range of points, and in canonical order its identity. */
  function RangeOf(order: Order, v: View, item: nat, p: nat): (r: Option<Range>)
    requires ViewFits(order, v) && p < v.primitives
    ensures r.Some? ==> r.value.item == item && 2 <= r.value.count && r.value.first + r.value.count <= v.points
  {
    InfoFits(v.primitives, v.stride, p);
    var first, count := Word(v.infos, p * v.stride), Word(v.infos, p * v.stride + 1);
    if count < 2 || first > v.points || count > v.points - first then None
    else if order.Source? then Some(Range(Key(0, 0, 0, 0, 0), item, first, count))
    else if !FinitePair(v.faceUvs, p) || !FinitePair(v.patchUvs, first) then None
    else
      Some(Range(Key(Word(v.faceIds, p), Word(v.faceUvs, 2 * p), Word(v.faceUvs, 2 * p + 1),
                     Word(v.patchUvs, 2 * first), Word(v.patchUvs, 2 * first + 1)), item, first, count))
  }

  predicate InViews(views: seq<View>, r: Range) {
    r.item < |views| && r.first + r.count <= views[r.item].points
  }

  /** The ranges of the first n curves of an item. */
  function ItemRanges(order: Order, v: View, item: nat, n: nat): (r: Option<seq<Range>>)
    requires ViewFits(order, v) && n <= v.primitives
    ensures r.Some? ==> |r.value| == n
    ensures r.Some? ==> forall k | 0 <= k < n :: r.value[k].item == item && r.value[k].first + r.value[k].count <= v.points
  {
    if n == 0 then Some([])
    else
      var init :- ItemRanges(order, v, item, n - 1);
      var last :- RangeOf(order, v, item, n - 1);
      Some(init + [last])
  }

  /** The ranges of the first n items. */
  function Ranges(order: Order, views: seq<View>, n: nat): (r: Option<seq<Range>>)
    requires n <= |views| && forall k | 0 <= k < |views| :: ViewFits(order, views[k])
    ensures r.Some? ==> forall k | 0 <= k < |r.value| :: InViews(views, r.value[k])
  {
    if n == 0 then Some([])
    else
      var init :- Ranges(order, views, n - 1);
      var last :- ItemRanges(order, views[n - 1], n - 1, views[n - 1].primitives);
      Some(init + last)
  }

  function CurveTotal(views: seq<View>): nat {
    if views == [] then 0 else CurveTotal(views[..|views| - 1]) + views[|views| - 1].primitives
  }

  function PointTotal(ranges: seq<Range>): nat {
    if ranges == [] then 0 else PointTotal(ranges[..|ranges| - 1]) + ranges[|ranges| - 1].count
  }

  // ---------------------------------------------------------------- canonical order

  predicate Less(a: Key, b: Key) {
    a.face < b.face || (a.face == b.face &&
      (a.faceU < b.faceU || (a.faceU == b.faceU &&
        (a.faceV < b.faceV || (a.faceV == b.faceV &&
          (a.patchU < b.patchU || (a.patchU == b.patchU && a.patchV < b.patchV)))))))
  }

  /** Insertion after every range whose key is not greater, as a stable sort places it. */
  function Inserted(sorted: seq<Range>, r: Range): (s: seq<Range>)
    ensures multiset(s) == multiset(sorted) + multiset{r}
  {
    if sorted == [] || !Less(r.key, sorted[|sorted| - 1].key) then sorted + [r]
    else
      assert sorted == sorted[..|sorted| - 1] + [sorted[|sorted| - 1]];
      Inserted(sorted[..|sorted| - 1], r) + [sorted[|sorted| - 1]]
  }

  function Sorted(ranges: seq<Range>): (s: seq<Range>)
    ensures multiset(s) == multiset(ranges)
  {
    if ranges == [] then []
    else
      assert ranges == ranges[..|ranges| - 1] + [ranges[|ranges| - 1]];
      Inserted(Sorted(ranges[..|ranges| - 1]), ranges[|ranges| - 1])
  }

  predicate Repeats(sorted: seq<Range>, n: nat)
    requires n <= |sorted|
  {
    exists k :: 0 < k < n && sorted[k - 1].key == sorted[k].key
  }

  /** The canonical order, which exists only when no two curves share an identity. */
  function Ordered(ranges: seq<Range>): Option<seq<Range>> {
    var s := Sorted(ranges);
    if Repeats(s, |s|) then None else Some(s)
  }

  predicate InOrder(s: seq<Range>) {
    forall i, j :: 0 <= i < j < |s| ==> !Less(s[j].key, s[i].key)
  }

  lemma {:induction false} InsertedInOrder(sorted: seq<Range>, r: Range)
    requires InOrder(sorted)
    ensures InOrder(Inserted(sorted, r))
  {
    if sorted != [] && Less(r.key, sorted[|sorted| - 1].key) {
      var init, last := sorted[..|sorted| - 1], sorted[|sorted| - 1];
      InsertedInOrder(init, r);
      var s := Inserted(init, r);
      forall i | 0 <= i < |s| ensures !Less(last.key, s[i].key) {
        assert s[i] in multiset(s);
        assert s[i] in init || s[i] == r;
      }
    }
  }

  lemma {:induction false} SortedInOrder(ranges: seq<Range>)
    ensures InOrder(Sorted(ranges))
  {
    if ranges != [] {
      SortedInOrder(ranges[..|ranges| - 1]);
      InsertedInOrder(Sorted(ranges[..|ranges| - 1]), ranges[|ranges| - 1]);
    }
  }

  ghost predicate Distinct(s: seq<Range>) {
    forall i, j :: 0 <= i < j < |s| ==> s[i].key != s[j].key
  }

  lemma {:induction false} Twice(s: seq<Range>, x: Range) returns (i: nat, j: nat)
    requires multiset(s)[x] >= 2
    ensures i < j < |s| && s[i] == x && s[j] == x
  {
    var n := |s| - 1;
    assert s == s[..n] + [s[n]];
    if s[n] == x {
      assert x in s[..n];
      i :| 0 <= i < n && s[i] == x;
      j := n;
    } else {
      i, j := Twice(s[..n], x);
    }
  }

  /** Reordering ranges keeps their identities distinct. */
  lemma StillDistinct(s: seq<Range>, t: seq<Range>)
    requires multiset(s) == multiset(t) && Distinct(s)
    ensures Distinct(t)
  {
    forall i, j | 0 <= i < j < |t| ensures t[i].key != t[j].key {
      var a, b := TwoSources(s, t, i, j);
    }
  }

  /** Two places of a rearrangement come from two places of the original. */
  lemma TwoSources(s: seq<Range>, t: seq<Range>, i: nat, j: nat) returns (a: nat, b: nat)
    requires multiset(s) == multiset(t) && i < j < |t|
    ensures a < |s| && b < |s| && a != b && s[a] == t[i] && s[b] == t[j]
  {
    hide Distinct;
    assert t[i] in multiset(t) && t[j] in multiset(t);
    if t[i] == t[j] {
      Sorting.TwoPlaces(t, i, j);
      a, b := Twice(s, t[i]);
    } else {
      a :| 0 <= a < |s| && s[a] == t[i];
      b :| 0 <= b < |s| && s[b] == t[j];
    }
  }

  lemma {:induction false} StrictlyInOrder(s: seq<Range>, i: nat, j: nat)
    requires InOrder(s) && !Repeats(s, |s|) && i < j < |s|
    ensures Less(s[i].key, s[j].key)
    decreases j
  {
    assert s[j - 1].key != s[j].key && !Less(s[j].key, s[j - 1].key);
    if i < j - 1 { StrictlyInOrder(s, i, j - 1); }
  }

  /**
   Canonical order fails exactly when two curves have the same identity; otherwise it is the
   rearrangement of the curves with strictly increasing identities.
   */
  lemma CanonicalOrder(ranges: seq<Range>)
    ensures Ordered(ranges).Some? <==> Distinct(ranges)
    ensures Ordered(ranges).Some? ==>
      var s := Ordered(ranges).value;
      multiset(s) == multiset(ranges) && forall i, j :: 0 <= i < j < |s| ==> Less(s[i].key, s[j].key)
  {
    var s := Sorted(ranges);
    SortedInOrder(ranges);
    if Repeats(s, |s|) {
      if Distinct(ranges) { StillDistinct(ranges, s); }
    } else {
      forall i, j | 0 <= i < j < |s| ensures Less(s[i].key, s[j].key) {
        StrictlyInOrder(s, i, j);
      }
      StillDistinct(s, ranges);
    }
  }

  // ---------------------------------------------------------------- emission

  /** The renderer's half of a curve point; halving is the caller's floating-point multiplication. */
  function PointAt(half: word32 -> word32, order: Order, v: View, k: nat): (r: Option<Point>)
    requires ViewFits(order, v) && k < v.points
  {
    var x, y, z, w := Word(v.positions, 3 * k), Word(v.positions, 3 * k + 1), Word(v.positions, 3 * k + 2), Word(v.widths, k);
    if !FiniteFloat(x) || !FiniteFloat(y) || !FiniteFloat(z) || !NonNegative(w) then None
    else if order.Canonical? && !FinitePair(v.patchUvs, k) then None
    else Some(Point(x, y, z, half(w)))
  }

  function PointsOf(half: word32 -> word32, order: Order, v: View, first: nat, n: nat): (r: Option<seq<Point>>)
    requires ViewFits(order, v) && first + n <= v.points
    ensures r.Some? ==> |r.value| == n
  {
    if n == 0 then Some([])
    else
      var init :- PointsOf(half, order, v, first, n - 1);
      var last :- PointAt(half, order, v, first + n - 1);
      Some(init + [last])
  }

  ghost predicate AllFit(order: Order, views: seq<View>, ranges: seq<Range>) {
    && (forall k | 0 <= k < |views| :: ViewFits(order, views[k]))
    && (forall k | 0 <= k < |ranges| :: InViews(views, ranges[k]))
  }

  function Emitted(half: word32 -> word32, order: Order, views: seq<View>, ranges: seq<Range>): (r: Option<Curves>)
    requires AllFit(order, views, ranges)
    ensures r.Some? ==> |r.value.counts| == |ranges| && |r.value.points| == PointTotal(ranges)
  {
    if ranges == [] then Some(Curves([], []))
    else
      var last := ranges[|ranges| - 1];
      var init :- Emitted(half, order, views, ranges[..|ranges| - 1]);
      assert InViews(views, last);
      var points :- PointsOf(half, order, views[last.item], last.first, last.count);
      Some(Curves(init.counts + [last.count], init.points + points))
  }

  lemma OrderedFits(order: Order, views: seq<View>, ranges: seq<Range>)
    requires AllFit(order, views, ranges)
    ensures AllFit(order, views, Sorted(ranges))
  {
    var s := Sorted(ranges);
    forall k | 0 <= k < |s| ensures InViews(views, s[k]) {
      assert s[k] in multiset(s);
      assert s[k] in ranges;
    }
  }

  function PackedViews(half: word32 -> word32, order: Order, views: seq<View>): Option<Curves>
    requires forall k | 0 <= k < |views| :: ViewFits(order, views[k])
  {
    if CurveTotal(views) == 0 || CurveTotal(views) >= U64 then None
    else
      var ranges :- Ranges(order, views, |views|);
      if PointTotal(ranges) >= U64 then None
      else if order.Source? then Emitted(half, order, views, ranges)
      else
        OrderedFits(order, views, ranges);
        var ordered :- Ordered(ranges);
        Emitted(half, order, views, ordered)
  }

  function Packed(half: word32 -> word32, order: Order, refs: seq<ItemRefs>, lookup: Lookup): Option<Curves> {
    var views :- Views(lookup, order, refs);
    PackedViews(half, order, views)
  }

  // ---------------------------------------------------------------- what packing needs from the arrays

  ghost predicate Resolves(lookup: Lookup, w: Want) {
    lookup(w.id).Some? && lookup(w.id).value.tag == w.tag
  }

  /** Packing succeeds only if every reference resolves to an array of its type. */
  lemma {:induction false} ViewsNeed(lookup: Lookup, order: Order, refs: seq<ItemRefs>, w: Want)
    requires Views(lookup, order, refs).Some? && w in Wants(order, refs)
    ensures Resolves(lookup, w)
  {
    if w in WantsOf(order, refs[|refs| - 1]) {
    } else {
      ViewsNeed(lookup, order, refs[..|refs| - 1], w);
    }
  }

  /** Two lookups that agree on the references give the same views. */
  lemma {:induction false} ViewsAgree(a: Lookup, b: Lookup, order: Order, refs: seq<ItemRefs>)
    requires forall w | w in Wants(order, refs) :: a(w.id) == b(w.id)
    ensures Views(a, order, refs) == Views(b, order, refs)
  {
    if refs != [] {
      ViewsAgree(a, b, order, refs[..|refs| - 1]);
      var r := refs[|refs| - 1];
      ItemAgrees(a, b, order, r);
    }
  }

  lemma ItemAgrees(a: Lookup, b: Lookup, order: Order, r: ItemRefs)
    requires forall w | w in WantsOf(order, r) :: a(w.id) == b(w.id)
    ensures ItemView(a, order, r) == ItemView(b, order, r)
  {
    var w := WantsOf(order, r);
    assert w[0] in w && w[1] in w && w[2] in w;
    if order.Canonical? { assert w[3] in w && w[4] in w && w[5] in w; }
    assert Elements(a, w[0], 4) == Elements(b, w[0], 4) && Elements(a, w[1], 12) == Elements(b, w[1], 12);
    assert Elements(a, w[2], 4) == Elements(b, w[2], 4);
    if order.Canonical? {
      assert Elements(a, w[3], 8) == Elements(b, w[3], 8) && Elements(a, w[4], 8) == Elements(b, w[4], 8);
      assert Elements(a, w[5], 4) == Elements(b, w[5], 4);
    }
    hide Elements;
  }
}
