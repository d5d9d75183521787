/** Evaluated curves: reading their channels from a document's typed arrays, in stored or canonical order. */
module CurveChannels {
  import opened Wrappers
  import opened Bytes
  import opened XgenContainer
  import opened PackedCurves

  /** The channels of a curve set; vectors are flat: three words a position, two a coordinate pair. */
  datatype Evaluated = Evaluated(counts: seq<word32>, patchUvs: seq<word32>, faceUvs: seq<word32>, faceIds: seq<word32>,
                                 positions: seq<word32>, widths: seq<word32>, texcoords: seq<word32>)

  const NO_CURVES := Evaluated([], [], [], [], [], [], [])

  /** The typed arrays of one metadata item. */
  datatype Channels = Channels(infos: seq<word32>, positions: seq<word32>, patchUvs: seq<word32>, faceUvs: seq<word32>,
                               faceIds: seq<word32>, widths: seq<word32>)

  // ---------------------------------------------------------------- words and bytes

  function BytesOf(words: seq<word32>): (r: seq<byte>)
    ensures |r| == 4 * |words|
  {
    if words == [] then [] else Digits(words[0], 4) + BytesOf(words[1..])
  }

  function WordsOf(bytes: seq<byte>): (r: seq<word32>)
    ensures |r| == |bytes| / 4
  {
    if |bytes| < 4 then []
    else
      Pow256Eight();
      [Little(bytes[..4])] + WordsOf(bytes[4..])
  }

  lemma {:induction false} WordsOfBytes(words: seq<word32>)
    ensures WordsOf(BytesOf(words)) == words
  {
    if words != [] {
      WordsOfBytes(words[1..]);
      Pow256Eight();
      LittleDigits(words[0], 4);
      var b := BytesOf(words);
      assert b[..4] == Digits(words[0], 4) && b[4..] == BytesOf(words[1..]);
      hide Digits, Little, Pow256, BytesOf;
      assert WordsOf(b) == [words[0]] + words[1..];
    }
  }

  // ---------------------------------------------------------------- reading the channels: specification

  /** An array of a type, as words; it must hold whole elements of so many words. */
  function Typed(lookup: Lookup, id: word64, tag: word64, size: nat): (r: Option<seq<word32>>)
    requires size > 0
  {
    var a :- lookup(id);
    if a.tag != tag || |a.bytes| % (4 * size) != 0 then None else Some(WordsOf(a.bytes))
  }

  /** The sizes of an item's channels agree, and each primitive has at least an offset and a count. */
  predicate ChannelsFit(c: Channels) {
    && c.faceIds != [] && |c.faceUvs| == 2 * |c.faceIds| && |c.infos| % |c.faceIds| == 0
    && |c.infos| / |c.faceIds| >= 2 && |c.positions| == 3 * |c.widths| && |c.patchUvs| == 2 * |c.widths|
  }

  function ItemChannels(lookup: Lookup, r: ItemRefs): (c: Option<Channels>)
    ensures c.Some? ==> ChannelsFit(c.value)
  {
    var infos :- Typed(lookup, r.infos, UINT32_TAG, 1);
    var positions :- Typed(lookup, r.positions, VEC3_TAG, 3);
    var patchUvs :- Typed(lookup, r.patchUvs, VEC2_TAG, 2);
    var faceUvs :- Typed(lookup, r.faceUvs, VEC2_TAG, 2);
    var faceIds :- Typed(lookup, r.faceIds, UINT32_TAG, 1);
    var widths :- Typed(lookup, r.widths, FLOAT_TAG, 1);
    var c := Channels(infos, positions, patchUvs, faceUvs, faceIds, widths);
    if ChannelsFit(c) then Some(c) else None
  }

  predicate Finite(w: seq<word32>) {
    forall k | 0 <= k < |w| :: FiniteFloat(w[k])
  }

  /** The values of a point that a reader accepts. */
  predicate PointFits(c: Channels, i: nat)
    requires ChannelsFit(c) && i < |c.widths|
  {
    Finite(c.positions[3 * i..3 * i + 3]) && Finite(c.patchUvs[2 * i..2 * i + 2]) && NonNegative(c.widths[i])
  }

  /** One primitive: its key, its item and its range of points. */
  function CurveAt(c: Channels, item: nat, p: nat): (r: Option<Range>)
    requires ChannelsFit(c) && p < |c.faceIds|
    ensures r.Some? ==> r.value.item == item && r.value.count >= 2 && r.value.first + r.value.count <= |c.widths|
  {
    var stride := |c.infos| / |c.faceIds|;
    InfoFits(|c.faceIds|, stride, p);
    assert |c.faceIds| * stride == |c.infos|;
    var first, count := c.infos[p * stride], c.infos[p * stride + 1];
    if count < 2 || first > |c.widths| || count > |c.widths| - first then None
    else
      var key := Key(c.faceIds[p], c.faceUvs[2 * p], c.faceUvs[2 * p + 1], c.patchUvs[2 * first], c.patchUvs[2 * first + 1]);
      if !FiniteFloat(key.faceU) || !FiniteFloat(key.faceV) || !FiniteFloat(key.patchU) || !FiniteFloat(key.patchV) then None
      else if forall i | first <= i < first + count :: PointFits(c, i) then Some(Range(key, item, first, count))
      else None
  }

  function CurvesOf(c: Channels, item: nat, n: nat): (r: Option<seq<Range>>)
    requires ChannelsFit(c) && n <= |c.faceIds|
    ensures r.Some? ==> |r.value| == n && forall k | 0 <= k < n :: InItem(c, item, r.value[k])
  {
    if n == 0 then Some([])
    else
      var init :- CurvesOf(c, item, n - 1);
      var last :- CurveAt(c, item, n - 1);
      Some(init + [last])
  }

  predicate InItem(c: Channels, item: nat, r: Range) {
    r.item == item && r.first + r.count <= |c.widths|
  }

  predicate InItems(items: seq<Channels>, r: Range) {
    r.item < |items| && InItem(items[r.item], r.item, r)
  }

  /** The items of a document with all their curves, in stored order. */
  function ItemsOf(lookup: Lookup, refs: seq<ItemRefs>): (r: Option<(seq<Channels>, seq<Range>)>)
    ensures r.Some? ==> |r.value.0| == |refs| && forall k | 0 <= k < |refs| :: ChannelsFit(r.value.0[k])
    ensures r.Some? ==> forall k | 0 <= k < |r.value.1| :: InItems(r.value.0, r.value.1[k])
  {
    if refs == [] then Some(([], []))
    else
      var n := |refs| - 1;
      var (items, curves) :- ItemsOf(lookup, refs[..n]);
      var c :- ItemChannels(lookup, refs[n]);
      var more :- CurvesOf(c, n, |c.faceIds|);
      assert forall k | 0 <= k < |more| :: InItem(c, n, more[k]);
      Some((items + [c], curves + more))
  }

  /** The coordinates (0, t) along a curve; the division is the caller's floating-point one. */
  function Along(ratio: (nat, nat) -> word32, n: nat, count: nat): (r: seq<word32>)
    requires n <= count
    ensures |r| == 2 * n
  {
    if n == 0 then [] else Along(ratio, n - 1, count) + [0, ratio(n - 1, count - 1)]
  }

  /** A curve's contribution to the channels. */
  function CurveChannelsOf(ratio: (nat, nat) -> word32, c: Channels, r: Range): Evaluated
    requires ChannelsFit(c) && r.first + r.count <= |c.widths|
  {
    Evaluated([r.count], [r.key.patchU, r.key.patchV], [r.key.faceU, r.key.faceV], [r.key.face],
              c.positions[3 * r.first..3 * (r.first + r.count)], c.widths[r.first..r.first + r.count],
              Along(ratio, r.count, r.count))
  }

  function Appended(a: Evaluated, b: Evaluated): Evaluated {
    Evaluated(a.counts + b.counts, a.patchUvs + b.patchUvs, a.faceUvs + b.faceUvs, a.faceIds + b.faceIds,
              a.positions + b.positions, a.widths + b.widths, a.texcoords + b.texcoords)
  }

  function EmittedChannels(ratio: (nat, nat) -> word32, items: seq<Channels>, curves: seq<Range>): Evaluated
    requires forall k | 0 <= k < |items| :: ChannelsFit(items[k])
    requires forall k | 0 <= k < |curves| :: InItems(items, curves[k])
  {
    if curves == [] then NO_CURVES
    else
      var n := |curves| - 1;
      assert InItems(items, curves[n]);
      Appended(EmittedChannels(ratio, items, curves[..n]), CurveChannelsOf(ratio, items[curves[n].item], curves[n]))
  }

  lemma OrderedInside(items: seq<Channels>, curves: seq<Range>)
    requires forall k | 0 <= k < |curves| :: InItems(items, curves[k])
    ensures forall k | 0 <= k < |Sorted(curves)| :: InItems(items, Sorted(curves)[k])
  {
    var s := Sorted(curves);
    forall k | 0 <= k < |s| ensures InItems(items, s[k]) {
      assert s[k] in multiset(s);
      assert s[k] in curves;
    }
  }

  /** Reading a document's curves. Without items, without curves, or with doubles in canonical order there is nothing. */
  function Materialized(ratio: (nat, nat) -> word32, lookup: Lookup, order: Order, refs: seq<ItemRefs>): Option<Evaluated> {
    var (items, curves) :- ItemsOf(lookup, refs);
    if curves == [] then None
    else if order.Source? then Some(EmittedChannels(ratio, items, curves))
    else
      OrderedInside(items, curves);
      var ordered :- Ordered(curves);
      Some(EmittedChannels(ratio, items, ordered))
  }
}
