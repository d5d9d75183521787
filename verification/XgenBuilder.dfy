/** Building a document from evaluated curves, and the round trip through its typed arrays. */
module XgenBuilder {
  import opened Arithmetic
  import opened Wrappers
  import opened Bytes
  import opened XgenContainer
  import opened PackedCurves
  import opened FusedReader
  import opened CurveChannels
  import C = ChannelLayout
  import opened XgenMetadata

  /** The surface frames and directions stored beside the curves; their geometry is not part of this model. */
  datatype Frames = Frames(normals: seq<byte>, tangents: seq<byte>, binormals: seq<byte>, directions: seq<byte>)

  // ---------------------------------------------------------------- valid curve sets

  /** The points of the first n curves. */
  function PointSum(counts: seq<word32>, n: nat): nat
    requires n <= |counts|
  {
    if n == 0 then 0 else PointSum(counts, n - 1) + counts[n - 1]
  }

  predicate ValidCurves(c: Evaluated) {
    var n, points := |c.counts|, PointSum(c.counts, |c.counts|);
    && n > 0 && |c.patchUvs| == 2 * n && |c.faceUvs| == 2 * n && |c.faceIds| == n
    && (forall k | 0 <= k < n :: c.counts[k] >= 2)
    && |c.positions| == 3 * points && |c.widths| == points
    && (c.texcoords != [] ==> |c.texcoords| == 2 * points && Finite(c.texcoords))
    && Finite(c.patchUvs) && Finite(c.faceUvs) && Finite(c.positions)
    && (forall k | 0 <= k < points :: NonNegative(c.widths[k]))
    && points < U32
  }

  // ---------------------------------------------------------------- the arrays

  /** Offset, count and flags of each of the first n curves. */
  function InfoWords(counts: seq<word32>, n: nat): (r: seq<word32>)
    requires n <= |counts| && PointSum(counts, n) < U32
    ensures |r| == 3 * n
  {
    if n == 0 then [] else InfoWords(counts, n - 1) + [PointSum(counts, n - 1), counts[n - 1], 0]
  }

  function Repeated(u: word32, v: word32, n: nat): (r: seq<word32>)
    ensures |r| == 2 * n
  {
    if n == 0 then [] else Repeated(u, v, n - 1) + [u, v]
  }

  lemma {:induction false} RepeatedAt(u: word32, v: word32, n: nat, i: nat)
    requires i < n
    ensures Repeated(u, v, n)[2 * i] == u && Repeated(u, v, n)[2 * i + 1] == v
  {
    if i < n - 1 { RepeatedAt(u, v, n - 1, i); }
  }

  /** Each curve's patch coordinates, once for every point. */
  function PatchWords(c: Evaluated, n: nat): (r: seq<word32>)
    requires n <= |c.counts| && |c.patchUvs| == 2 * |c.counts|
    ensures |r| == 2 * PointSum(c.counts, n)
  {
    if n == 0 then []
    else PatchWords(c, n - 1) + Repeated(c.patchUvs[2 * (n - 1)], c.patchUvs[2 * (n - 1) + 1], c.counts[n - 1])
  }

  /** The typed channels that a reader gets back. */
  function StoredChannels(c: Evaluated): (r: Channels)
    requires ValidCurves(c)
  {
    var n := |c.counts|;
    Channels(InfoWords(c.counts, n), c.positions, PatchWords(c, n), c.faceUvs, c.faceIds, c.widths)
  }

  function Zeros(n: nat): seq<byte> { seq(n, _ => 0) }

  /** The eleven arrays, in the order in which they are stored. */
  function NamedArrays(c: Evaluated, f: Frames): (r: seq<Array>)
    requires ValidCurves(c)
    ensures |r| == 11
  {
    var s := StoredChannels(c);
    [Array(UINT32_TAG, BytesOf(s.infos)), Array(VEC3_TAG, BytesOf(s.positions)), Array(VEC2_TAG, BytesOf(s.patchUvs)),
     Array(VEC3_TAG, f.normals), Array(VEC3_TAG, f.tangents), Array(VEC3_TAG, f.binormals),
     Array(VEC2_TAG, BytesOf(s.faceUvs)), Array(UINT32_TAG, BytesOf(s.faceIds)),
     Array(FLOAT_TAG, Zeros(4 * |c.widths|)), Array(FLOAT_TAG, BytesOf(s.widths)), Array(VEC3_TAG, f.directions)]
  }

  // ---------------------------------------------------------------- grouping the arrays

  function RecordSize(a: Array): nat { ARRAY_HEADER + |a.bytes| }

  /** The stored size of some arrays. */
  function GroupSize(arrays: seq<Array>): nat {
    if arrays == [] then 0 else GroupSize(arrays[..|arrays| - 1]) + RecordSize(arrays[|arrays| - 1])
  }

  function IdOf(group: nat, at: nat): word64
    requires group < U32 && at < U32
  {
    group * U32 + at
  }

  /** What one id resolves to. */
  function ArrayAt(groups: seq<Group>, id: word64): Option<Array> {
    if GroupOf(id) < |groups| && groups[GroupOf(id)].index == GroupOf(id) && ArrayOf(id) < |groups[GroupOf(id)].arrays|
    then Some(groups[GroupOf(id)].arrays[ArrayOf(id)]) else None
  }

  function AllArrays(groups: seq<Group>): seq<Array> {
    if groups == [] then [] else AllArrays(groups[..|groups| - 1]) + groups[|groups| - 1].arrays
  }

  /**
   The arrays in groups: nothing lost or reordered, every id resolving to its own array, groups numbered
   in order and none empty, a group larger than the target only if it holds a single array, and no group opened
   while the array still fitted into the one before.
   */
  ghost predicate Grouped(arrays: seq<Array>, target: nat, groups: seq<Group>, ids: seq<word64>) {
    && AllArrays(groups) == arrays && |ids| == |arrays|
    && (forall k | 0 <= k < |ids| :: ArrayAt(groups, ids[k]) == Some(arrays[k]))
    && (forall g | 0 <= g < |groups| :: groups[g].index == g && groups[g].flags == 0 && groups[g].arrays != [])
    && (forall g | 0 <= g < |groups| :: |groups[g].arrays| == 1 || GroupSize(groups[g].arrays) <= target)
    && (forall g | 0 < g < |groups| :: Full(groups[g - 1], target, groups[g].arrays[0]))
  }

  /** A group that has no room for one more array. */
  predicate Full(g: Group, target: nat, next: Array) {
    GroupSize(g.arrays) + RecordSize(next) > target
  }

  /** Identities in numbers: the group in the upper 32 bits, the array in the lower. */
  lemma IdentityNames(d: Document, group: nat, at: nat)
    requires group < 0x1_0000_0000 && at < 0x1_0000_0000
    ensures var id := 0x1_0000_0000 * group + at;
      ArrayById(d, id) == if group < |d.groups| && d.groups[group].index == group && at < |d.groups[group].arrays|
                          then Some(d.groups[group].arrays[at]) else None
    ensures IdOf(group, at) == 0x1_0000_0000 * group + at
  {
    IdParts(group, at);
    hide GroupOf, ArrayOf;
  }

  lemma IdParts(group: nat, at: nat)
    requires group < U32 && at < U32
    ensures GroupOf(IdOf(group, at)) == group && ArrayOf(IdOf(group, at)) == at
  {
  }

  /** A new group for one more array. */
  lemma OpenGroup(arrays: seq<Array>, target: nat, groups: seq<Group>, ids: seq<word64>, a: Array)
    requires Grouped(arrays, target, groups, ids) && |groups| < U32
    requires groups != [] ==> Full(groups[|groups| - 1], target, a)
    ensures Grouped(arrays + [a], target, groups + [Group(|groups|, 0, [a])], ids + [IdOf(|groups|, 0)])
  {
    IdParts(|groups|, 0);
    hide GroupOf, ArrayOf, IdOf, GroupSize, Full;
    var more, all, allIds := groups + [Group(|groups|, 0, [a])], arrays + [a], ids + [IdOf(|groups|, 0)];
    assert more[..|groups|] == groups;
    forall k | 0 <= k < |allIds| ensures ArrayAt(more, allIds[k]) == Some(all[k]) {
      if k < |ids| { assert ArrayAt(groups, ids[k]) == Some(arrays[k]); }
    }
  }

  /** One more array at the end of the last group. */
  lemma ExtendGroup(arrays: seq<Array>, target: nat, groups: seq<Group>, ids: seq<word64>, a: Array)
    requires Grouped(arrays, target, groups, ids) && 0 < |groups| <= U32
    requires var last := groups[|groups| - 1];
      |last.arrays| < U32 && GroupSize(last.arrays) + RecordSize(a) <= target
    ensures var g := |groups| - 1;
      var last := groups[g];
      Grouped(arrays + [a], target, groups[g := last.(arrays := last.arrays + [a])], ids + [IdOf(g, |last.arrays|)])
  {
    var g := |groups| - 1;
    var last := groups[g];
    IdParts(g, |last.arrays|);
    assert (last.arrays + [a])[..|last.arrays|] == last.arrays;
    assert GroupSize(last.arrays + [a]) == GroupSize(last.arrays) + RecordSize(a);
    hide GroupOf, ArrayOf, IdOf, GroupSize, RecordSize, Full;
    var more := groups[g := last.(arrays := last.arrays + [a])];
    var all, allIds := arrays + [a], ids + [IdOf(g, |last.arrays|)];
    assert more[..g] == groups[..g];
    assert AllArrays(more) == AllArrays(groups[..g]) + (last.arrays + [a]);
    forall k | 0 <= k < |allIds| ensures ArrayAt(more, allIds[k]) == Some(all[k]) {
      if k < |ids| { assert ArrayAt(groups, ids[k]) == Some(arrays[k]); }
    }
  }

  /** The grouping so far, and the size of its last group. */
  ghost predicate Packing(arrays: seq<Array>, target: nat, groups: seq<Group>, ids: seq<word64>, groupBytes: nat) {
    && Grouped(arrays, target, groups, ids) && |groups| <= |arrays| && |groups| < U32 && groupBytes <= GroupSize(arrays)
    && (groups != [] ==>
          var last := groups[|groups| - 1].arrays;
          groupBytes == GroupSize(last) > 0 && |last| <= |arrays|)
  }

  lemma NothingPacked(target: nat)
    ensures Packing([], target, [], [], 0)
  {
  }

  lemma SizePush(arrays: seq<Array>, a: Array)
    ensures GroupSize(arrays + [a]) == GroupSize(arrays) + RecordSize(a) && GroupSize([]) == 0
  {
    assert (arrays + [a])[..|arrays|] == arrays;
  }

  lemma PackNew(arrays: seq<Array>, target: nat, groups: seq<Group>, ids: seq<word64>, groupBytes: nat, a: Array)
    requires Packing(arrays, target, groups, ids, groupBytes) && |groups| < U32 - 1
    requires groups != [] ==> groupBytes + RecordSize(a) > target
    ensures Packing(arrays + [a], target, groups + [Group(|groups|, 0, [a])], ids + [IdOf(|groups|, 0)], RecordSize(a))
  {
    OpenGroup(arrays, target, groups, ids, a);
    SizePush(arrays, a);
    SizePush([], a);
    assert [] + [a] == [a];
    hide Grouped, GroupSize, IdOf;
  }

  lemma PackMore(arrays: seq<Array>, target: nat, groups: seq<Group>, ids: seq<word64>, groupBytes: nat, a: Array)
    requires Packing(arrays, target, groups, ids, groupBytes) && groups != []
    requires |groups[|groups| - 1].arrays| < U32 && groupBytes + RecordSize(a) <= target
    ensures var g := |groups| - 1;
      var last := groups[g];
      Packing(arrays + [a], target, groups[g := last.(arrays := last.arrays + [a])], ids + [IdOf(g, |last.arrays|)],
                 groupBytes + RecordSize(a))
  {
    ExtendGroup(arrays, target, groups, ids, a);
    SizePush(arrays, a);
    SizePush(groups[|groups| - 1].arrays, a);
    hide Grouped, GroupSize, IdOf;
  }

  /** Places one array: in a new group whenever it would take a non-empty group past the target. */
  method PlaceArray(ghost arrays: seq<Array>, a: Array, target: word64, groups: seq<Group>, ids: seq<word64>, groupBytes: word64)
    returns (ok: bool, moreGroups: seq<Group>, moreIds: seq<word64>, moreBytes: word64)
    requires Packing(arrays, target, groups, ids, groupBytes)
    ensures ok ==> Packing(arrays + [a], target, moreGroups, moreIds, moreBytes)
    ensures |arrays| + 1 < U32 && GroupSize(arrays) + RecordSize(a) < U64 ==> ok
  {
    ok, moreGroups, moreIds, moreBytes := false, groups, ids, groupBytes;
    PackingSizes(arrays, target, groups, ids, groupBytes);
    hide *;
    var recordBytes := RecordSize(a);
    if recordBytes >= U64 { return; }
    var room := target - if target < recordBytes then target else recordBytes;
    if groups == [] || groupBytes > room {
      if |groups| >= U32 - 1 { return; }
      PackNew(arrays, target, groups, ids, groupBytes, a);
      moreIds := ids + [IdOf(|groups|, 0)];
      moreGroups := groups + [Group(|groups|, 0, [a])];
      moreBytes := recordBytes;
    } else {
      var g := |groups| - 1;
      var last := groups[g];
      assert groupBytes + recordBytes <= target;
      if |last.arrays| > U32 - 1 || recordBytes > U64 - 1 - groupBytes { return; }
      PackMore(arrays, target, groups, ids, groupBytes, a);
      moreIds := ids + [IdOf(g, |last.arrays|)];
      moreGroups := groups[g := last.(arrays := last.arrays + [a])];
      moreBytes := groupBytes + recordBytes;
    }
    ok := true;
  }

  lemma PackingSizes(arrays: seq<Array>, target: nat, groups: seq<Group>, ids: seq<word64>, groupBytes: nat)
    requires Packing(arrays, target, groups, ids, groupBytes)
    ensures |groups| <= |arrays| && |groups| < U32 && groupBytes <= GroupSize(arrays)
    ensures groups != [] ==> groupBytes > 0 && |groups[|groups| - 1].arrays| <= |arrays|
  {
    hide Grouped, GroupSize;
  }

  lemma PrefixSize(arrays: seq<Array>, k: nat)
    requires k < |arrays|
    ensures arrays[..k] + [arrays[k]] == arrays[..k + 1]
    ensures GroupSize(arrays[..k]) + RecordSize(arrays[k]) <= GroupSize(arrays)
  {
    hide GroupSize, RecordSize;
    assert arrays[..k] + [arrays[k]] == arrays[..k + 1];
    SizePush(arrays[..k], arrays[k]);
    SizeMonotone(arrays, k + 1);
  }

  /** Groups the arrays for storage. */
  method GroupArrays(arrays: seq<Array>, target: word64) returns (ok: bool, groups: seq<Group>, ids: seq<word64>)
    requires target > 0
    ensures ok ==> Grouped(arrays, target, groups, ids)
    ensures |arrays| < U32 && GroupSize(arrays) < U64 ==> ok
  {
    groups, ids, ok := [], [], true;
    var groupBytes: word64 := 0;
    NothingPacked(target);
    hide *;
    for k := 0 to |arrays|
      invariant Packing(arrays[..k], target, groups, ids, groupBytes)
    {
      PrefixSize(arrays, k);
      ok, groups, ids, groupBytes := PlaceArray(arrays[..k], arrays[k], target, groups, ids, groupBytes);
      if !ok { return; }
    }
    assert arrays[..|arrays|] == arrays;
    PackingIsGrouped(arrays, target, groups, ids, groupBytes);
    ok := true;
  }

  lemma PackingIsGrouped(arrays: seq<Array>, target: nat, groups: seq<Group>, ids: seq<word64>, groupBytes: nat)
    requires Packing(arrays, target, groups, ids, groupBytes)
    ensures Grouped(arrays, target, groups, ids)
  {
  }

  lemma {:induction false} SizeMonotone(arrays: seq<Array>, k: nat)
    requires k <= |arrays|
    ensures GroupSize(arrays[..k]) <= GroupSize(arrays)
  {
    if k == |arrays| {
      assert arrays[..k] == arrays;
    } else {
      SizeMonotone(arrays[..|arrays| - 1], k);
      assert arrays[..|arrays| - 1][..k] == arrays[..k];
    }
  }

  // ---------------------------------------------------------------- reading back what was built

  lemma {:induction false} PointSumMonotone(counts: seq<word32>, a: nat, b: nat)
    requires a <= b <= |counts|
    ensures PointSum(counts, a) <= PointSum(counts, b)
  {
    if a < b { PointSumMonotone(counts, a, b - 1); }
  }

  lemma {:induction false} InfoAt(counts: seq<word32>, n: nat, p: nat)
    requires p < n <= |counts| && PointSum(counts, n) < U32
    ensures InfoWords(counts, n)[3 * p] == PointSum(counts, p) && InfoWords(counts, n)[3 * p + 1] == counts[p]
  {
    if p < n - 1 { InfoAt(counts, n - 1, p); }
  }

  /** The patch coordinates stored at every point are those of its curve. */
  lemma {:induction false} PatchAt(c: Evaluated, n: nat, p: nat, i: nat)
    requires p < n <= |c.counts| && |c.patchUvs| == 2 * |c.counts|
    requires PointSum(c.counts, p) <= i < PointSum(c.counts, p + 1)
    ensures i < PointSum(c.counts, n)
    ensures PatchWords(c, n)[2 * i] == c.patchUvs[2 * p] && PatchWords(c, n)[2 * i + 1] == c.patchUvs[2 * p + 1]
  {
    PointSumMonotone(c.counts, p + 1, n);
    if p < n - 1 {
      PointSumMonotone(c.counts, p + 1, n - 1);
      PatchAt(c, n - 1, p, i);
      PatchStep(c, n - 1);
      hide PointSum, PatchWords, Repeated;
      FirstPart(PatchWords(c, n - 1), Repeated(c.patchUvs[2 * (n - 1)], c.patchUvs[2 * (n - 1) + 1], c.counts[n - 1]), i);
    } else {
      hide PointSum;
      PatchAtLast(c, p, i);
    }
  }

  lemma PatchAtLast(c: Evaluated, p: nat, i: nat)
    requires p < |c.counts| && |c.patchUvs| == 2 * |c.counts|
    requires PointSum(c.counts, p) <= i < PointSum(c.counts, p + 1)
    ensures PatchWords(c, p + 1)[2 * i] == c.patchUvs[2 * p] && PatchWords(c, p + 1)[2 * i + 1] == c.patchUvs[2 * p + 1]
  {
    PatchStep(c, p);
    hide PatchWords, PointSum, Repeated;
    var j := i - PointSum(c.counts, p);
    RepeatedAt(c.patchUvs[2 * p], c.patchUvs[2 * p + 1], c.counts[p], j);
    SecondPart(PatchWords(c, p), Repeated(c.patchUvs[2 * p], c.patchUvs[2 * p + 1], c.counts[p]), j);
  }

  lemma FirstPart(before: seq<word32>, own: seq<word32>, j: nat)
    requires 2 * j + 1 < |before|
    ensures (before + own)[2 * j] == before[2 * j] && (before + own)[2 * j + 1] == before[2 * j + 1]
  {
  }

  /** Pair j of the second of two sequences of pairs. */
  lemma SecondPart(before: seq<word32>, own: seq<word32>, j: nat)
    requires 2 * j + 1 < |own|
    ensures (before + own)[|before| + 2 * j] == own[2 * j] && (before + own)[|before| + 2 * j + 1] == own[2 * j + 1]
  {
  }

  lemma PatchStep(c: Evaluated, n: nat)
    requires n < |c.counts| && |c.patchUvs| == 2 * |c.counts|
    ensures PatchWords(c, n + 1) == PatchWords(c, n) + Repeated(c.patchUvs[2 * n], c.patchUvs[2 * n + 1], c.counts[n])
    ensures PointSum(c.counts, n + 1) == PointSum(c.counts, n) + c.counts[n]
  {
  }

  /** The sizes of the stored channels agree, with three words a primitive. */
  lemma StoredFits(c: Evaluated)
    requires ValidCurves(c)
    ensures ChannelsFit(StoredChannels(c))
    ensures |StoredChannels(c).infos| / |StoredChannels(c).faceIds| == 3
  {
    var n := |c.counts|;
    hide InfoWords, PatchWords, PointSum, Finite, NonNegative;
    RemainderUnique(3 * n, n, 3, 0);
  }

  /** The range that curve p was stored as. */
  function RangeOfCurve(c: Evaluated, p: nat): Range
    requires ValidCurves(c) && p < |c.counts|
  {
    PointSumMonotone(c.counts, p, |c.counts|);
    Range(Key(c.faceIds[p], c.faceUvs[2 * p], c.faceUvs[2 * p + 1], c.patchUvs[2 * p], c.patchUvs[2 * p + 1]),
          0, PointSum(c.counts, p), c.counts[p])
  }

  /** Every point of a valid curve set passes the reader's checks. */
  lemma StoredPoint(c: Evaluated, p: nat, i: nat)
    requires ValidCurves(c) && p < |c.counts| && PointSum(c.counts, p) <= i < PointSum(c.counts, p + 1)
    ensures ChannelsFit(StoredChannels(c)) && i < |c.widths| && PointFits(StoredChannels(c), i)
  {
    StoredFits(c);
    PointSumMonotone(c.counts, p + 1, |c.counts|);
    hide InfoWords, PatchWords, PointSum, FiniteFloat, NonNegative;
    PatchAt(c, |c.counts|, p, i);
  }

  /** Each curve reads back as its own range. */
  lemma StoredCurve(c: Evaluated, p: nat)
    requires ValidCurves(c) && p < |c.counts|
    ensures ChannelsFit(StoredChannels(c)) && CurveAt(StoredChannels(c), 0, p) == Some(RangeOfCurve(c, p))
  {
    StoredFits(c);
    var n := |c.counts|;
    InfoAt(c.counts, n, p);
    PointSumMonotone(c.counts, p + 1, n);
    var first, count := PointSum(c.counts, p), c.counts[p];
    assert PointSum(c.counts, p + 1) == first + count;
    hide InfoWords, PatchWords, PointSum, PointFits, NonNegative, FiniteFloat;
    PatchAt(c, n, p, first);
    forall i | first <= i < first + count ensures PointFits(StoredChannels(c), i) { StoredPoint(c, p, i); }
  }

  function RangesOfCurves(c: Evaluated, n: nat): (r: seq<Range>)
    requires ValidCurves(c) && n <= |c.counts|
    ensures |r| == n
  {
    if n == 0 then [] else RangesOfCurves(c, n - 1) + [RangeOfCurve(c, n - 1)]
  }

  lemma {:induction false} StoredCurves(c: Evaluated, n: nat)
    requires ValidCurves(c) && n <= |c.counts|
    ensures ChannelsFit(StoredChannels(c)) && CurvesOf(StoredChannels(c), 0, n) == Some(RangesOfCurves(c, n))
  {
    StoredFits(c);
    if n > 0 {
      StoredCurves(c, n - 1);
      StoredCurve(c, n - 1);
    }
    hide StoredChannels, CurveAt, ValidCurves, RangeOfCurve, ChannelsFit;
  }

  /** The coordinates (0, t) of the first n curves. */
  function AllAlong(ratio: (nat, nat) -> word32, counts: seq<word32>, n: nat): seq<word32>
    requires n <= |counts|
  {
    if n == 0 then [] else AllAlong(ratio, counts, n - 1) + Along(ratio, counts[n - 1], counts[n - 1])
  }

  /** The first n curves of a set. */
  function FirstCurves(ratio: (nat, nat) -> word32, c: Evaluated, n: nat): Evaluated
    requires ValidCurves(c) && n <= |c.counts|
  {
    PointSumMonotone(c.counts, n, |c.counts|);
    var points := PointSum(c.counts, n);
    Evaluated(c.counts[..n], c.patchUvs[..2 * n], c.faceUvs[..2 * n], c.faceIds[..n],
              c.positions[..3 * points], c.widths[..points], AllAlong(ratio, c.counts, n))
  }

  lemma OneMoreUniform(ratio: (nat, nat) -> word32, c: Evaluated, n: nat)
    requires ValidCurves(c) && n < |c.counts|
    ensures var a, b := FirstCurves(ratio, c, n), FirstCurves(ratio, c, n + 1);
      var key := RangeOfCurve(c, n).key;
      && b.counts == a.counts + [c.counts[n]] && b.faceIds == a.faceIds + [key.face]
      && b.patchUvs == a.patchUvs + [key.patchU, key.patchV] && b.faceUvs == a.faceUvs + [key.faceU, key.faceV]
  {
    hide PointSum, Finite, NonNegative, AllAlong;
    Take(c.counts, n, n + 1);
    Take(c.faceIds, n, n + 1);
    Take(c.patchUvs, 2 * n, 2 * n + 2);
    Take(c.faceUvs, 2 * n, 2 * n + 2);
    assert c.patchUvs[2 * n..2 * n + 2] == [c.patchUvs[2 * n], c.patchUvs[2 * n + 1]];
    assert c.faceUvs[2 * n..2 * n + 2] == [c.faceUvs[2 * n], c.faceUvs[2 * n + 1]];
  }

  lemma OneMoreVarying(ratio: (nat, nat) -> word32, c: Evaluated, n: nat)
    requires ValidCurves(c) && n < |c.counts|
    ensures PointSum(c.counts, n) + c.counts[n] <= |c.widths| && |c.positions| == 3 * |c.widths|
    ensures var a, b := FirstCurves(ratio, c, n), FirstCurves(ratio, c, n + 1);
      var first, end := PointSum(c.counts, n), PointSum(c.counts, n) + c.counts[n];
      && b.positions == a.positions + c.positions[3 * first..3 * end] && b.widths == a.widths + c.widths[first..end]
      && b.texcoords == a.texcoords + Along(ratio, c.counts[n], c.counts[n])
  {
    PointSumMonotone(c.counts, n + 1, |c.counts|);
    var first, end := PointSum(c.counts, n), PointSum(c.counts, n) + c.counts[n];
    assert PointSum(c.counts, n + 1) == end;
    hide PointSum, Along, Finite, NonNegative;
    Take(c.positions, 3 * first, 3 * end);
    Take(c.widths, first, end);
  }

  /** Reading one curve adds exactly that curve. */
  lemma OneMoreCurve(ratio: (nat, nat) -> word32, c: Evaluated, n: nat)
    requires ValidCurves(c) && n < |c.counts|
    ensures ChannelsFit(StoredChannels(c)) && PointSum(c.counts, n) + c.counts[n] <= |c.widths|
    ensures FirstCurves(ratio, c, n + 1)
         == Appended(FirstCurves(ratio, c, n), CurveChannelsOf(ratio, StoredChannels(c), RangeOfCurve(c, n)))
  {
    StoredFits(c);
    OneMoreUniform(ratio, c, n);
    OneMoreVarying(ratio, c, n);
    hide InfoWords, PatchWords, PointSum, Along, ValidCurves, FirstCurves, ChannelsFit;
  }

  lemma Take(s: seq<word32>, i: nat, j: nat)
    requires i <= j <= |s|
    ensures s[..j] == s[..i] + s[i..j]
  {
  }

  lemma {:induction false} EmitStored(ratio: (nat, nat) -> word32, c: Evaluated, n: nat)
    requires ValidCurves(c) && n <= |c.counts|
    ensures ChannelsFit(StoredChannels(c)) && AllInside([StoredChannels(c)], RangesOfCurves(c, n))
    ensures EmittedChannels(ratio, [StoredChannels(c)], RangesOfCurves(c, n)) == FirstCurves(ratio, c, n)
  {
    hide *;
    StoredFits(c);
    if n == 0 {
      NoneEmitted(ratio, c);
    } else {
      EmitStored(ratio, c, n - 1);
      OneMoreCurve(ratio, c, n - 1);
      RangeInside(c, n - 1);
      MoreRanges(c, n);
      EmitStep(ratio, [StoredChannels(c)], RangesOfCurves(c, n - 1), RangeOfCurve(c, n - 1));
    }
  }

  lemma NoneEmitted(ratio: (nat, nat) -> word32, c: Evaluated)
    requires ValidCurves(c) && ChannelsFit(StoredChannels(c))
    ensures AllInside([StoredChannels(c)], RangesOfCurves(c, 0))
    ensures EmittedChannels(ratio, [StoredChannels(c)], RangesOfCurves(c, 0)) == FirstCurves(ratio, c, 0)
  {
    hide ValidCurves, StoredChannels, ChannelsFit;
  }

  lemma MoreRanges(c: Evaluated, n: nat)
    requires ValidCurves(c) && 0 < n <= |c.counts|
    ensures RangesOfCurves(c, n) == RangesOfCurves(c, n - 1) + [RangeOfCurve(c, n - 1)]
  {
    hide ValidCurves, RangeOfCurve;
  }

  ghost predicate AllInside(items: seq<Channels>, ranges: seq<Range>) {
    forall k | 0 <= k < |ranges| :: InItems(items, ranges[k])
  }

  lemma EmitStep(ratio: (nat, nat) -> word32, items: seq<Channels>, ranges: seq<Range>, r: Range)
    requires (forall k | 0 <= k < |items| :: ChannelsFit(items[k])) && AllInside(items, ranges) && InItems(items, r)
    ensures AllInside(items, ranges + [r])
    ensures EmittedChannels(ratio, items, ranges + [r])
         == Appended(EmittedChannels(ratio, items, ranges), CurveChannelsOf(ratio, items[r.item], r))
  {
    assert (ranges + [r])[..|ranges|] == ranges;
    hide ChannelsFit, InItem, CurveChannelsOf;
  }

  lemma RangeInside(c: Evaluated, p: nat)
    requires ValidCurves(c) && p < |c.counts|
    ensures InItems([StoredChannels(c)], RangeOfCurve(c, p)) && RangeOfCurve(c, p).item == 0
  {
    PointSumMonotone(c.counts, p + 1, |c.counts|);
  }

  // ---------------------------------------------------------------- the round trip

  /** What a document gives for the ids recorded at building. */
  lemma LookupBuilt(arrays: seq<Array>, target: nat, d: Document, ids: seq<word64>, k: nat)
    requires Grouped(arrays, target, d.groups, ids) && k < |ids|
    ensures DocumentLookup(d)(ids[k]) == Some(arrays[k])
  {
    assert ArrayAt(d.groups, ids[k]) == Some(arrays[k]);
  }

  lemma TypedBuilt(lookup: Lookup, id: word64, tag: word64, words: seq<word32>, size: nat)
    requires 1 <= size <= 3 && |words| % size == 0 && lookup(id) == Some(Array(tag, BytesOf(words)))
    ensures Typed(lookup, id, tag, size) == Some(words)
  {
    WordsOfBytes(words);
    WholeElements(|words|, size);
    hide WordsOf, BytesOf;
  }

  lemma WholeElements(n: nat, size: nat)
    requires 1 <= size <= 3 && n % size == 0
    ensures 4 * n % (4 * size) == 0
  {
    if size == 1 { assert n % 1 == 0; } else if size == 2 { assert n % 2 == 0; } else { assert n % 3 == 0; }
  }

  /** The channels of the item are the stored channels. */
  lemma ItemBuilt(c: Evaluated, f: Frames, target: nat, d: Document, ids: seq<word64>)
    requires ValidCurves(c) && Grouped(NamedArrays(c, f), target, d.groups, ids)
    ensures |ids| == 11 && ItemChannels(DocumentLookup(d), RecordedRefs(ids, true)) == Some(StoredChannels(c))
  {
    var a, s, lookup := NamedArrays(c, f), StoredChannels(c), DocumentLookup(d);
    StoredFits(c);
    ChannelSizes(c);
    LookupBuilt(a, target, d, ids, 0);
    LookupBuilt(a, target, d, ids, 1);
    LookupBuilt(a, target, d, ids, 2);
    LookupBuilt(a, target, d, ids, 6);
    LookupBuilt(a, target, d, ids, 7);
    LookupBuilt(a, target, d, ids, 9);
    hide Grouped, ValidCurves, StoredChannels, BytesOf, Typed, ChannelsFit, DocumentLookup;
    TypedBuilt(lookup, ids[0], UINT32_TAG, s.infos, 1);
    TypedBuilt(lookup, ids[1], VEC3_TAG, s.positions, 3);
    TypedBuilt(lookup, ids[2], VEC2_TAG, s.patchUvs, 2);
    TypedBuilt(lookup, ids[6], VEC2_TAG, s.faceUvs, 2);
    TypedBuilt(lookup, ids[7], UINT32_TAG, s.faceIds, 1);
    TypedBuilt(lookup, ids[9], FLOAT_TAG, s.widths, 1);
  }

  lemma ChannelSizes(c: Evaluated)
    requires ValidCurves(c)
    ensures var s := StoredChannels(c);
      |s.infos| % 1 == 0 && |s.positions| % 3 == 0 && |s.patchUvs| % 2 == 0 && |s.faceUvs| % 2 == 0
      && |s.faceIds| % 1 == 0 && |s.widths| % 1 == 0
  {
    hide InfoWords, PatchWords, PointSum, Finite, NonNegative;
    var points := PointSum(c.counts, |c.counts|);
    assert |c.positions| == 3 * points;
  }

  /** The item that a document's metadata records gives back every channel of the curves. */
  lemma BuiltChannels(ratio: (nat, nat) -> word32, c: Evaluated, f: Frames, target: nat, d: Document, ids: seq<word64>)
    requires ValidCurves(c) && Grouped(NamedArrays(c, f), target, d.groups, ids)
    ensures |ids| == 11
    ensures Materialized(ratio, DocumentLookup(d), Order.Source, [RecordedRefs(ids, true)])
         == Some(c.(texcoords := AllAlong(ratio, c.counts, |c.counts|)))
  {
    var n, s, refs := |c.counts|, StoredChannels(c), [RecordedRefs(ids, true)];
    ItemBuilt(c, f, target, d, ids);
    StoredCurves(c, n);
    EmitStored(ratio, c, n);
    WholeSet(ratio, c);
    assert |s.faceIds| == n && n > 0;
    hide Grouped, ValidCurves, StoredChannels, ItemChannels, CurvesOf, EmittedChannels, RangesOfCurves, FirstCurves,
      DocumentLookup, ChannelsFit, AllAlong;
    OneItem(DocumentLookup(d), RecordedRefs(ids, true), s, RangesOfCurves(c, n));
    assert RangesOfCurves(c, n) != [];
  }

  lemma OneItem(lookup: Lookup, r: ItemRefs, s: Channels, curves: seq<Range>)
    requires ItemChannels(lookup, r) == Some(s) && CurvesOf(s, 0, |s.faceIds|) == Some(curves)
    ensures ItemsOf(lookup, [r]) == Some(([s], curves))
  {
    hide ItemChannels, CurvesOf, ChannelsFit;
    assert [r][..0] == [];
    assert ItemsOf(lookup, []) == Some(([], []));
    assert [] + [s] == [s] && [] + curves == curves;
    assert ItemsOf(lookup, [r][..0]) == Some(([], []));
  }

  lemma WholeSet(ratio: (nat, nat) -> word32, c: Evaluated)
    requires ValidCurves(c)
    ensures FirstCurves(ratio, c, |c.counts|) == c.(texcoords := AllAlong(ratio, c.counts, |c.counts|))
  {
    hide PointSum, Finite, NonNegative, AllAlong;
    var whole, n := FirstCurves(ratio, c, |c.counts|), |c.counts|;
    assert whole.counts == c.counts && whole.faceIds == c.faceIds;
    assert whole.patchUvs == c.patchUvs && whole.faceUvs == c.faceUvs;
    assert whole.positions == c.positions && whole.widths == c.widths;
  }

  /** Canonical order fails exactly on doubles; otherwise it reads the same curves by increasing identity. */
  lemma CanonicalRead(ratio: (nat, nat) -> word32, lookup: Lookup, refs: seq<ItemRefs>)
    requires Materialized(ratio, lookup, Order.Source, refs).Some?
    ensures ItemsOf(lookup, refs).Some?
    ensures var (items, curves) := ItemsOf(lookup, refs).value;
      && (Materialized(ratio, lookup, Canonical, refs).Some? <==> Distinct(curves))
      && (Distinct(curves) ==>
            exists s: seq<Range> :: multiset(s) == multiset(curves) && (forall i, j :: 0 <= i < j < |s| ==> Less(s[i].key, s[j].key))
              && AllInside(items, s) && Materialized(ratio, lookup, Canonical, refs) == Some(EmittedChannels(ratio, items, s)))
  {
    hide EmittedChannels, Sorted, ChannelsFit;
    var (items, curves) := ItemsOf(lookup, refs).value;
    CanonicalOrder(curves);
    OrderedInside(items, curves);
    if Distinct(curves) {
      var s := Sorted(curves);
      assert multiset(s) == multiset(curves) && AllInside(items, s);
    }
  }

  /**
   Builds the document. It refuses invalid curves, an empty name, a zero target and an unknown level; on
   success its arrays are those of the curves, grouped for the target, with the ids in its metadata.
   */
  method BuildDocument(frames: Evaluated -> Frames, c: Evaluated, name: seq<byte>, target: word64, level: nat)
    returns (r: Option<Document>, ids: seq<word64>)
    ensures r.Some? ==> ValidCurves(c) && name != [] && target > 0 && level <= 9
    ensures ValidCurves(c) && name != [] && target > 0 && level <= 9 && GroupSize(NamedArrays(c, frames(c))) < U64 ==> r.Some?
    ensures r.Some? ==> Grouped(NamedArrays(c, frames(c)), target, r.value.groups, ids)
    ensures r.Some? ==>
      |ids| == |ARRAY_NAMES| && r.value == BuiltDocument(level, name, ids, r.value.groups)
  {
    r, ids := None, [];
    if !ValidCurves(c) || name == [] || target == 0 || level > 9 { return; }
    hide Grouped, GroupSize;
    var infos, patchUvs := BuildWords(c);
    var f := frames(c);
    var arrays := [Array(UINT32_TAG, BytesOf(infos)), Array(VEC3_TAG, BytesOf(c.positions)), Array(VEC2_TAG, BytesOf(patchUvs)),
                   Array(VEC3_TAG, f.normals), Array(VEC3_TAG, f.tangents), Array(VEC3_TAG, f.binormals),
                   Array(VEC2_TAG, BytesOf(c.faceUvs)), Array(UINT32_TAG, BytesOf(c.faceIds)),
                   Array(FLOAT_TAG, Zeros(4 * |c.widths|)), Array(FLOAT_TAG, BytesOf(c.widths)), Array(VEC3_TAG, f.directions)];
    assert arrays == NamedArrays(c, f);
    hide *;
    var ok, groups;
    ok, groups, ids := GroupArrays(arrays, target);
    if !ok { return; }
    SameCount(arrays, target, groups, ids);
    var text := WriteMetadata(|groups|, level, name, ids);
    r := Some(Document(text, 1, 1, false, true, level, groups));
    SameDocument(level, name, ids, groups, text);
  }

  /** A document with its metadata. */
  function BuiltDocument(level: nat, name: seq<byte>, ids: seq<word64>, groups: seq<Group>): Document
    requires |ids| == |ARRAY_NAMES|
  {
    Document(MetadataText(|groups|, level, name, ids), 1, 1, false, true, level, groups)
  }

  lemma SameDocument(level: nat, name: seq<byte>, ids: seq<word64>, groups: seq<Group>, text: seq<byte>)
    requires |ids| == |ARRAY_NAMES| && text == MetadataText(|groups|, level, name, ids)
    ensures Document(text, 1, 1, false, true, level, groups) == BuiltDocument(level, name, ids, groups)
  {
  }

  /** There are as many ids as arrays, and no more groups than arrays. */
  lemma SameCount(arrays: seq<Array>, target: nat, groups: seq<Group>, ids: seq<word64>)
    requires Grouped(arrays, target, groups, ids)
    ensures |ids| == |arrays| && |groups| <= |arrays|
  {
    FewGroups(groups);
  }

  lemma {:induction false} FewGroups(groups: seq<Group>)
    requires forall g | 0 <= g < |groups| :: groups[g].arrays != []
    ensures |groups| <= |AllArrays(groups)|
  {
    if groups != [] { FewGroups(groups[..|groups| - 1]); }
  }

  /** A curve's patch coordinates, once for every point. */
  method Repeat(u: word32, v: word32, count: nat) returns (own: seq<word32>)
    ensures own == Repeated(u, v, count)
  {
    own := [];
    for cv := 0 to count
      invariant own == Repeated(u, v, cv)
    {
      own := own + [u, v];
    }
  }

  lemma InfoStep(counts: seq<word32>, n: nat)
    requires n < |counts| && PointSum(counts, n) < U32 && PointSum(counts, n + 1) < U32
    ensures InfoWords(counts, n + 1) == InfoWords(counts, n) + [PointSum(counts, n), counts[n], 0]
  {
  }

  lemma NoWords(c: Evaluated)
    requires |c.patchUvs| == 2 * |c.counts|
    ensures PointSum(c.counts, 0) == 0 && InfoWords(c.counts, 0) == [] && PatchWords(c, 0) == []
  {
  }

  lemma ValidSizes(c: Evaluated)
    requires ValidCurves(c)
    ensures |c.patchUvs| == 2 * |c.counts| && PointSum(c.counts, |c.counts|) < U32
  {
  }

  /** The derived channels: offsets and counts, and each curve's patch coordinates at every point. */
  method BuildWords(c: Evaluated) returns (infos: seq<word32>, patchUvs: seq<word32>)
    requires ValidCurves(c)
    ensures infos == InfoWords(c.counts, |c.counts|) && patchUvs == PatchWords(c, |c.counts|)
  {
    hide *;
    ValidSizes(c);
    NoWords(c);
    infos, patchUvs := [], [];
    var first: nat := 0;
    for curve := 0 to |c.counts|
      invariant first == PointSum(c.counts, curve) < U32
      invariant infos == InfoWords(c.counts, curve) && patchUvs == PatchWords(c, curve)
    {
      PointSumMonotone(c.counts, curve + 1, |c.counts|);
      PatchStep(c, curve);
      InfoStep(c.counts, curve);
      infos := infos + [first, c.counts[curve], 0];
      var own := Repeat(c.patchUvs[2 * curve], c.patchUvs[2 * curve + 1], c.counts[curve]);
      patchUvs := patchUvs + own;
      first := first + c.counts[curve];
    }
  }

  /** Everything that reading a document's curves depends on: its metadata's items and its arrays. */
  function DocumentCurves(ratio: (nat, nat) -> word32, d: Document, order: Order): Option<Evaluated> {
    var refs :- RefsOf(d.metadata, true);
    Materialized(ratio, DocumentLookup(d), order, refs)
  }

  /**
   Reading a built document in source order gives back every channel of the curves, with the coordinates
   (0, t) along each, whatever the target size grouped the arrays into and whatever the item is called.
   */
  lemma BuildRoundTrip(ratio: (nat, nat) -> word32, c: Evaluated, f: Frames, target: nat, d: Document, ids: seq<word64>,
                       name: seq<byte>)
    requires ValidCurves(c) && Grouped(NamedArrays(c, f), target, d.groups, ids) && d.level <= 9
    requires |ids| == |ARRAY_NAMES| && d == BuiltDocument(d.level, name, ids, d.groups)
    ensures |d.groups| < U32 && HeaderOf(d.metadata) == Some(Header(1, 1, |d.groups|, false, true, d.level))
    ensures DocumentCurves(ratio, d, Order.Source) == Some(c.(texcoords := AllAlong(ratio, c.counts, |c.counts|)))
  {
    SameCount(NamedArrays(c, f), target, d.groups, ids);
    hide Grouped, ValidCurves, NamedArrays, Materialized, MetadataText, RefsOf, HeaderOf;
    MetadataUnderstood(|d.groups|, d.level, name, ids, true);
    BuiltChannels(ratio, c, f, target, d, ids);
  }

  /** The container's codec with the real metadata reader; the compressor remains a parameter. */
  function RealCodec(inflate: (seq<byte>, nat) -> Option<seq<byte>>, deflate: (seq<byte>, nat) -> seq<byte>): Codec {
    Codec(HeaderOf, inflate, deflate)
  }

  /**
   From curves to bytes and back: a built document whose sizes fit 64 bits serializes, and parsing the bytes and
   reading in source order gives the same channels, for every lossless compressor.
   */
  lemma RoundTripThroughBytes(codec: Codec, ratio: (nat, nat) -> word32, c: Evaluated, f: Frames, target: nat,
                       d: Document, ids: seq<word64>, name: seq<byte>)
    requires codec == RealCodec(codec.inflate, codec.deflate) && Lossless(codec)
    requires ValidCurves(c) && Grouped(NamedArrays(c, f), target, d.groups, ids) && d.level <= 9
    requires |ids| == |ARRAY_NAMES| && d == BuiltDocument(d.level, name, ids, d.groups)
    requires FILE_HEADER + |d.metadata| + |GroupsBytes(codec, d, d.groups)| < U64
    requires forall k | 0 <= k < |d.groups| :: |Records(d.groups[k].arrays)| < U64
    ensures Serialized(codec, d).Some? && ParsedDocument(codec, Serialized(codec, d).value) == Some(d)
    ensures DocumentCurves(ratio, d, Order.Source) == Some(c.(texcoords := AllAlong(ratio, c.counts, |c.counts|)))
  {
    BuildRoundTrip(ratio, c, f, target, d, ids, name);
    InOrder(NamedArrays(c, f), target, d.groups, ids);
    SerializesBuilt(codec, d);
    hide Serializable;
    ParseSerialized(codec, d);
  }

  lemma InOrder(arrays: seq<Array>, target: nat, groups: seq<Group>, ids: seq<word64>)
    requires Grouped(arrays, target, groups, ids)
    ensures forall k | 0 <= k < |groups| :: groups[k].index == k
  {
  }

  lemma SerializesBuilt(codec: Codec, d: Document)
    requires codec.header == HeaderOf && d.version == d.groupVersion == 1 && !d.base64 && d.deflate && |d.groups| < U32
    requires HeaderOf(d.metadata) == Some(Header(1, 1, |d.groups|, false, true, d.level))
    requires FILE_HEADER + |d.metadata| + |GroupsBytes(codec, d, d.groups)| < U64
    requires forall k | 0 <= k < |d.groups| :: d.groups[k].index == k && |Records(d.groups[k].arrays)| < U64
    ensures Serializable(codec, d)
  {
    hide HeaderOf, GroupsBytes, Records;
  }

  // ---------------------------------------------------------------- the channel reader

  lemma {:induction false} CurvesStop(c: Channels, item: nat, p: nat, n: nat)
    requires ChannelsFit(c) && p < n <= |c.faceIds| && CurveAt(c, item, p).None?
    ensures CurvesOf(c, item, n).None?
  {
    hide CurveAt, ChannelsFit;
    if p < n - 1 { CurvesStop(c, item, p, n - 1); }
  }

  method ReadCurves(c: Channels, item: nat) returns (r: Option<seq<Range>>)
    requires ChannelsFit(c)
    ensures r == CurvesOf(c, item, |c.faceIds|)
  {
    hide CurveAt, ChannelsFit;
    var curves: seq<Range> := [];
    for p := 0 to |c.faceIds|
      invariant CurvesOf(c, item, p) == Some(curves)
    {
      var curve := CurveAt(c, item, p);
      if curve.None? {
        CurvesStop(c, item, p, |c.faceIds|);
        return None;
      }
      curves := curves + [curve.value];
    }
    r := Some(curves);
  }

  lemma {:induction false} ItemsStop(lookup: Lookup, refs: seq<ItemRefs>, k: nat)
    requires k <= |refs| && ItemsOf(lookup, refs[..k]).None?
    ensures ItemsOf(lookup, refs).None?
  {
    hide ItemChannels, CurvesOf, ChannelsFit;
    if k < |refs| {
      assert refs[..|refs| - 1][..k] == refs[..k];
      ItemsStop(lookup, refs[..|refs| - 1], k);
    } else {
      assert refs[..k] == refs;
    }
  }

  method ReadItems(lookup: Lookup, refs: seq<ItemRefs>) returns (r: Option<(seq<Channels>, seq<Range>)>)
    ensures r == ItemsOf(lookup, refs)
  {
    hide ItemChannels, CurvesOf, ChannelsFit;
    var items: seq<Channels>, curves: seq<Range> := [], [];
    for k := 0 to |refs|
      invariant ItemsOf(lookup, refs[..k]) == Some((items, curves)) && |items| == k
    {
      assert refs[..k + 1][..k] == refs[..k];
      var c := ItemChannels(lookup, refs[k]);
      if c.None? {
        ItemsStop(lookup, refs, k + 1);
        return None;
      }
      var more := ReadCurves(c.value, k);
      if more.None? {
        ItemsStop(lookup, refs, k + 1);
        return None;
      }
      items, curves := items + [c.value], curves + more.value;
    }
    assert refs[..|refs|] == refs;
    r := Some((items, curves));
  }

  method EmitChannels(ratio: (nat, nat) -> word32, items: seq<Channels>, curves: seq<Range>) returns (r: Evaluated)
    requires (forall k | 0 <= k < |items| :: ChannelsFit(items[k])) && AllInside(items, curves)
    ensures r == EmittedChannels(ratio, items, curves)
  {
    hide ChannelsFit, CurveChannelsOf, Appended;
    r := NO_CURVES;
    for k := 0 to |curves|
      invariant AllInside(items, curves[..k]) && r == EmittedChannels(ratio, items, curves[..k])
    {
      assert curves[..k] + [curves[k]] == curves[..k + 1];
      assert InItems(items, curves[k]);
      EmitStep(ratio, items, curves[..k], curves[k]);
      r := Appended(r, CurveChannelsOf(ratio, items[curves[k].item], curves[k]));
    }
    assert curves[..|curves|] == curves;
  }

  /** The result of reading a document, said of its items and its arrays' bytes. */
  ghost predicate ShowsDocument(ratio: (nat, nat) -> word32, d: Document, order: Order, r: Option<Evaluated>) {
    var refs := RefsOf(d.metadata, true);
    if refs.None? then r.None? else C.ChannelsAsStored(ratio, order, refs.value, DocumentLookup(d), r)
  }

  lemma DocumentShown(ratio: (nat, nat) -> word32, d: Document, order: Order)
    ensures ShowsDocument(ratio, d, order, DocumentCurves(ratio, d, order))
  {
    hide RefsOf, C.ChannelsAsStored, DocumentLookup, Materialized;
    var refs := RefsOf(d.metadata, true);
    if refs.Some? { C.MaterializedIsStored(ratio, order, refs.value, DocumentLookup(d)); }
  }

  /** Reads the curves of a document, in stored or in canonical order: those of all its items, as they are stored. */
  method MaterializeCurves(ratio: (nat, nat) -> word32, d: Document, order: Order) returns (r: Option<Evaluated>)
    ensures r == DocumentCurves(ratio, d, order)
    ensures ShowsDocument(ratio, d, order, r)
  {
    hide ShowsDocument, C.ChannelsAsStored;
    DocumentShown(ratio, d, order);
    hide ItemsOf, EmittedChannels, Ordered, ChannelsFit, InItem, DocumentLookup, RefsOf;
    var refs := ReadRefs(d.metadata, true);
    if refs.None? { return None; }
    var read := ReadItems(DocumentLookup(d), refs.value);
    if read.None? { return None; }
    var (items, curves) := read.value;
    if curves == [] { return None; }
    var sorted := curves;
    if order.Canonical? {
      OrderedInside(items, curves);
      SortedIsOrdered(curves);
      var ordered := OrderRanges(curves);
      if ordered.None? { return None; }
      sorted := ordered.value;
    }
    var all := EmitChannels(ratio, items, sorted);
    r := Some(all);
  }
}
