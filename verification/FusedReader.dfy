/** The selective reader that decodes only the arrays it needs, against the staged reader. */
module FusedReader {
  import opened Wrappers
  import opened Bytes
  import opened XgenContainer
  import opened PackedCurves
  import opened Sorting
  import L = PackedLayout

  /** The container's codec, the metadata's items, and the floating-point halving. */
  datatype Reader = Reader(codec: Codec, items: (seq<byte>, Order) -> Option<seq<ItemRefs>>, half: word32 -> word32)

  function GroupOf(id: word64): nat { id / U32 }

  function ArrayOf(id: word64): nat { id % U32 }

  function ArrayById(d: Document, id: word64): Option<Array> {
    if GroupOf(id) >= |d.groups| || d.groups[GroupOf(id)].index != GroupOf(id)
       || ArrayOf(id) >= |d.groups[GroupOf(id)].arrays| then None
    else Some(d.groups[GroupOf(id)].arrays[ArrayOf(id)])
  }

  function DocumentLookup(d: Document): Lookup {
    (id: word64) => ArrayById(d, id)
  }

  /** The staged reading: parse the whole document, then resolve and pack. */
  function Staged(reader: Reader, bytes: seq<byte>, order: Order): Option<Curves> {
    var d :- ParsedDocument(reader.codec, bytes);
    var refs :- reader.items(d.metadata, order);
    Packed(reader.half, order, refs, DocumentLookup(d))
  }

  /** The result of a reading, said of the document and its items: the stored curves of all of them. */
  ghost predicate ReadsCurves(reader: Reader, bytes: seq<byte>, order: Order, r: Option<Curves>) {
    var d := ParsedDocument(reader.codec, bytes);
    if d.None? || reader.items(d.value.metadata, order).None? then r.None?
    else L.AsStored(reader.half, order, reader.items(d.value.metadata, order).value, DocumentLookup(d.value), r)
  }

  lemma StagedReadsCurves(reader: Reader, bytes: seq<byte>, order: Order)
    ensures ReadsCurves(reader, bytes, order, Staged(reader, bytes, order))
  {
    hide ParsedDocument, Packed, L.AsStored, DocumentLookup;
    var d := ParsedDocument(reader.codec, bytes);
    if d.Some? && reader.items(d.value.metadata, order).Some? {
      L.PackedIsStored(reader.half, order, reader.items(d.value.metadata, order).value, DocumentLookup(d.value));
    }
  }

  // ---------------------------------------------------------------- packing

  method ResolveItems(lookup: Lookup, order: Order, refs: seq<ItemRefs>) returns (r: Option<seq<View>>, total: nat)
    ensures r == Views(lookup, order, refs)
    ensures r.Some? ==> total == CurveTotal(r.value)
  {
    hide ItemView, ViewFits;
    var views: seq<View> := [];
    total := 0;
    for k := 0 to |refs|
      invariant Views(lookup, order, refs[..k]) == Some(views) && total == CurveTotal(views)
    {
      assert refs[..k + 1][..k] == refs[..k];
      var v := ItemView(lookup, order, refs[k]);
      if v.None? {
        ViewsStop(lookup, order, refs, k);
        return None, 0;
      }
      assert (views + [v.value])[..k] == views;
      views := views + [v.value];
      total := total + v.value.primitives;
    }
    assert refs[..|refs|] == refs;
    r := Some(views);
  }

  lemma {:induction false} ViewsStop(lookup: Lookup, order: Order, refs: seq<ItemRefs>, k: nat)
    requires k < |refs| && ItemView(lookup, order, refs[k]).None?
    ensures Views(lookup, order, refs).None?
  {
    hide ItemView;
    if k < |refs| - 1 { ViewsStop(lookup, order, refs[..|refs| - 1], k); }
  }

  lemma {:induction false} RangesStop(order: Order, views: seq<View>, n: nat, item: nat)
    requires item < n <= |views| && forall k | 0 <= k < |views| :: ViewFits(order, views[k])
    requires ItemRanges(order, views[item], item, views[item].primitives).None?
    ensures Ranges(order, views, n).None?
  {
    hide ItemRanges, ViewFits;
    if item < n - 1 { RangesStop(order, views, n - 1, item); }
  }

  lemma {:induction false} ItemStops(order: Order, v: View, item: nat, p: nat, n: nat)
    requires ViewFits(order, v) && p < n <= v.primitives && RangeOf(order, v, item, p).None?
    ensures ItemRanges(order, v, item, n).None?
  {
    hide RangeOf, ViewFits;
    if p < n - 1 { ItemStops(order, v, item, p, n - 1); }
  }

  lemma {:induction false} PointTotalAppend(a: seq<Range>, b: seq<Range>)
    ensures PointTotal(a + b) == PointTotal(a) + PointTotal(b)
  {
    if b == [] {
      assert a + b == a;
    } else {
      assert (a + b)[..|a + b| - 1] == a + b[..|b| - 1];
      PointTotalAppend(a, b[..|b| - 1]);
    }
  }

  method CollectItem(order: Order, v: View, item: nat) returns (r: Option<seq<Range>>, total: nat)
    requires ViewFits(order, v)
    ensures r == ItemRanges(order, v, item, v.primitives)
    ensures r.Some? ==> total == PointTotal(r.value)
  {
    hide RangeOf, ViewFits;
    var ranges: seq<Range> := [];
    total := 0;
    for p := 0 to v.primitives
      invariant ItemRanges(order, v, item, p) == Some(ranges) && total == PointTotal(ranges)
    {
      var range := RangeOf(order, v, item, p);
      if range.None? {
        ItemStops(order, v, item, p, v.primitives);
        return None, 0;
      }
      assert (ranges + [range.value])[..|ranges|] == ranges;
      ranges := ranges + [range.value];
      total := total + range.value.count;
    }
    r := Some(ranges);
  }

  method CollectRanges(order: Order, views: seq<View>) returns (r: Option<seq<Range>>, total: nat)
    requires forall k | 0 <= k < |views| :: ViewFits(order, views[k])
    ensures r == Ranges(order, views, |views|)
    ensures r.Some? ==> total == PointTotal(r.value)
  {
    hide ItemRanges, ViewFits;
    var ranges: seq<Range> := [];
    total := 0;
    for k := 0 to |views|
      invariant Ranges(order, views, k) == Some(ranges) && total == PointTotal(ranges)
    {
      var more, points := CollectItem(order, views[k], k);
      if more.None? {
        RangesStop(order, views, |views|, k);
        return None, 0;
      }
      PointTotalAppend(ranges, more.value);
      ranges := ranges + more.value;
      total := total + points;
    }
    r := Some(ranges);
  }

  lemma {:induction false} PointsStop(half: word32 -> word32, order: Order, v: View, first: nat, c: nat, n: nat)
    requires ViewFits(order, v) && c < n && first + n <= v.points && PointAt(half, order, v, first + c).None?
    ensures PointsOf(half, order, v, first, n).None?
  {
    hide PointAt, ViewFits;
    if c < n - 1 { PointsStop(half, order, v, first, c, n - 1); }
  }

  method EmitRange(half: word32 -> word32, order: Order, v: View, first: nat, count: nat) returns (r: Option<seq<Point>>)
    requires ViewFits(order, v) && first + count <= v.points
    ensures r == PointsOf(half, order, v, first, count)
  {
    hide PointAt, ViewFits;
    var points: seq<Point> := [];
    for c := 0 to count
      invariant PointsOf(half, order, v, first, c) == Some(points)
    {
      var point := PointAt(half, order, v, first + c);
      if point.None? {
        PointsStop(half, order, v, first, c, count);
        return None;
      }
      points := points + [point.value];
    }
    r := Some(points);
  }

  lemma {:induction false} EmittedStops(half: word32 -> word32, order: Order, views: seq<View>, ranges: seq<Range>, k: nat)
    requires AllFit(order, views, ranges) && k < |ranges| && InViews(views, ranges[k])
    requires PointsOf(half, order, views[ranges[k].item], ranges[k].first, ranges[k].count).None?
    ensures Emitted(half, order, views, ranges).None?
  {
    hide PointsOf, ViewFits;
    if k < |ranges| - 1 {
      assert ranges[..|ranges| - 1][k] == ranges[k];
      EmittedStops(half, order, views, ranges[..|ranges| - 1], k);
    }
  }

  method Emit(half: word32 -> word32, order: Order, views: seq<View>, ranges: seq<Range>) returns (r: Option<Curves>)
    requires AllFit(order, views, ranges)
    ensures r == Emitted(half, order, views, ranges)
  {
    hide PointsOf, ViewFits;
    var counts: seq<word32>, points: seq<Point> := [], [];
    for k := 0 to |ranges|
      invariant Emitted(half, order, views, ranges[..k]) == Some(Curves(counts, points))
    {
      assert ranges[..k + 1][..k] == ranges[..k];
      assert InViews(views, ranges[k]);
      var more := EmitRange(half, order, views[ranges[k].item], ranges[k].first, ranges[k].count);
      if more.None? {
        EmittedStops(half, order, views, ranges, k);
        return None;
      }
      counts := counts + [ranges[k].count];
      points := points + more.value;
    }
    assert ranges[..|ranges|] == ranges;
    r := Some(Curves(counts, points));
  }

  /** Sorting, and the check that no two neighbours share an identity. */
  method OrderRanges(ranges: seq<Range>) returns (r: Option<seq<Range>>)
    ensures r == Ordered(ranges)
  {
    var sorted := Sorted(ranges);
    for k := 0 to |sorted|
      invariant !Repeats(sorted, k)
    {
      if k > 0 && sorted[k - 1].key == sorted[k].key { return None; }
    }
    r := Some(sorted);
  }

  /** Resolves the items, checks every range, orders the curves and flattens them. */
  method Pack(half: word32 -> word32, order: Order, refs: seq<ItemRefs>, lookup: Lookup) returns (r: Option<Curves>)
    ensures r == Packed(half, order, refs, lookup)
    ensures L.AsStored(half, order, refs, lookup, r)
  {
    hide L.AsStored;
    L.PackedIsStored(half, order, refs, lookup);
    hide Views, Ranges, CurveTotal, PointTotal, Emitted, Ordered, ViewFits;
    var views, curveTotal := ResolveItems(lookup, order, refs);
    if views.None? { return None; }
    if curveTotal == 0 || curveTotal >= U64 { return None; }
    var ranges, pointTotal := CollectRanges(order, views.value);
    if ranges.None? || pointTotal >= U64 { return None; }
    if order.Source? {
      r := Emit(half, order, views.value, ranges.value);
    } else {
      OrderedFits(order, views.value, ranges.value);
      var ordered := OrderRanges(ranges.value);
      if ordered.None? { return None; }
      SortedIsOrdered(ranges.value);
      r := Emit(half, order, views.value, ordered.value);
    }
  }

  lemma SortedIsOrdered(ranges: seq<Range>)
    ensures Ordered(ranges).Some? ==> Ordered(ranges).value == Sorted(ranges)
  {
  }

  // ---------------------------------------------------------------- selecting the arrays

  /** An array the renderer needs: its identity, its expected type, and its bytes once decoded. */
  datatype Slot = Slot(id: word64, tag: word64, bytes: seq<byte>, loaded: bool)

  /** An array of one group and the slot that waits for it. */
  datatype Pick = Pick(at: nat, slot: nat)

  ghost predicate Indexed(slots: seq<Slot>, slotOf: map<word64, nat>) {
    && (forall id | id in slotOf :: slotOf[id] < |slots| && slots[slotOf[id]].id == id)
    && (forall k | 0 <= k < |slots| :: slots[k].id in slotOf && slotOf[slots[k].id] == k)
  }

  ghost predicate Selected(slots: seq<Slot>, slotOf: map<word64, nat>, w: Want) {
    w.id in slotOf && slotOf[w.id] < |slots| && slots[slotOf[w.id]].tag == w.tag
  }

  /** Every want has a slot of its type, and every slot comes from a want and is still empty. */
  ghost predicate Selects(slots: seq<Slot>, slotOf: map<word64, nat>, wants: seq<Want>) {
    && Indexed(slots, slotOf)
    && (forall w | w in wants :: Selected(slots, slotOf, w))
    && (forall k | 0 <= k < |slots| :: Want(slots[k].id, slots[k].tag) in wants)
  }

  ghost predicate Conflict(wants: seq<Want>) {
    exists v, w :: v in wants && w in wants && v.id == w.id && v.tag != w.tag
  }

  method SelectOne(slots: seq<Slot>, slotOf: map<word64, nat>, w: Want, ghost wants: seq<Want>)
    returns (ok: bool, newSlots: seq<Slot>, newSlotOf: map<word64, nat>)
    requires Selects(slots, slotOf, wants)
    ensures ok ==> Selects(newSlots, newSlotOf, wants + [w])
    ensures !ok ==> Conflict(wants + [w])
  {
    newSlots, newSlotOf := slots, slotOf;
    if w.id in slotOf {
      var k := slotOf[w.id];
      if slots[k].tag != w.tag {
        assert Want(slots[k].id, slots[k].tag) in wants + [w] && w in wants + [w];
        return false, slots, slotOf;
      }
    } else {
      newSlotOf := slotOf[w.id := |slots|];
      newSlots := slots + [Slot(w.id, w.tag, [], false)];
    }
    ok := true;
  }

  method Select(order: Order, refs: seq<ItemRefs>) returns (ok: bool, slots: seq<Slot>, slotOf: map<word64, nat>)
    ensures ok ==> Selects(slots, slotOf, Wants(order, refs))
    ensures !ok ==> Conflict(Wants(order, refs))
  {
    hide Selects, Conflict, WantsOf;
    slots, slotOf := [], map[];
    NothingSelected();
    for k := 0 to |refs|
      invariant Selects(slots, slotOf, Wants(order, refs[..k]))
    {
      var item := WantsOf(order, refs[k]);
      ghost var before := Wants(order, refs[..k]);
      assert refs[..k + 1][..k] == refs[..k];
      assert Wants(order, refs[..k + 1]) == before + item;
      assert before + item[..0] == before;
      for j := 0 to |item|
        invariant Selects(slots, slotOf, before + item[..j])
      {
        assert before + item[..j] + [item[j]] == before + item[..j + 1];
        ok, slots, slotOf := SelectOne(slots, slotOf, item[j], before + item[..j]);
        if !ok {
          WantsTake(order, refs, k + 1);
          ConflictLasts(before + item[..j + 1], before + item);
          ConflictLasts(before + item, Wants(order, refs));
          return;
        }
      }
      assert before + item[..|item|] == before + item;
    }
    assert refs[..|refs|] == refs;
    ok := true;
  }

  lemma NothingSelected()
    ensures Selects([], map[], [])
  {
  }

  lemma {:induction false} WantsTake(order: Order, refs: seq<ItemRefs>, k: nat)
    requires k <= |refs|
    ensures Wants(order, refs[..k]) <= Wants(order, refs)
  {
    hide WantsOf;
    if k == |refs| {
      assert refs[..k] == refs;
    } else {
      WantsTake(order, refs[..|refs| - 1], k);
      assert refs[..|refs| - 1][..k] == refs[..k];
    }
  }

  lemma ConflictLasts(a: seq<Want>, b: seq<Want>)
    requires Conflict(a) && a <= b
    ensures Conflict(b)
  {
    var v, w :| v in a && w in a && v.id == w.id && v.tag != w.tag;
    assert v in b && w in b;
  }

  // ---------------------------------------------------------------- the picks of each group

  ghost predicate InRange(stored: seq<Stored>, id: word64) {
    GroupOf(id) < |stored| && ArrayOf(id) < stored[GroupOf(id)].arrayCount
  }

  ghost predicate Increasing(picks: seq<Pick>) {
    IncreasingKeys(picks, (p: Pick) => p.at)
  }

  /** The picks of a group are exactly the first n slots that live in it. */
  ghost predicate PicksOf(slots: seq<Slot>, n: nat, picks: seq<Pick>, group: nat) {
    && (forall p | p in picks ::
          p.slot < n <= |slots| && GroupOf(slots[p.slot].id) == group && ArrayOf(slots[p.slot].id) == p.at)
    && (forall k | 0 <= k < n <= |slots| && GroupOf(slots[k].id) == group :: Pick(ArrayOf(slots[k].id), k) in picks)
  }

  ghost predicate DistinctPicks(picks: seq<Pick>) {
    DistinctKeys(picks, (p: Pick) => p.at)
  }

  /** Slots with different identities give picks with different arrays. */
  lemma IdentityOf(a: word64, b: word64)
    ensures a == b <==> GroupOf(a) == GroupOf(b) && ArrayOf(a) == ArrayOf(b)
  {
  }

  lemma AddPick(slots: seq<Slot>, slotOf: map<word64, nat>, n: nat, picks: seq<Pick>, group: nat)
    requires Indexed(slots, slotOf) && n < |slots| && PicksOf(slots, n, picks, group) && DistinctPicks(picks)
    ensures GroupOf(slots[n].id) != group ==> PicksOf(slots, n + 1, picks, group)
    ensures GroupOf(slots[n].id) == group ==>
      var more := picks + [Pick(ArrayOf(slots[n].id), n)];
      PicksOf(slots, n + 1, more, group) && DistinctPicks(more)
  {
    var id := slots[n].id;
    if GroupOf(id) == group {
      var more := picks + [Pick(ArrayOf(id), n)];
      forall q | q in picks ensures q.at != ArrayOf(id) {
        assert slotOf[slots[q.slot].id] == q.slot && slotOf[id] == n;
        IdentityOf(slots[q.slot].id, id);
      }
      DistinctAppend(picks, Pick(ArrayOf(id), n), (p: Pick) => p.at);
      forall k | 0 <= k < n + 1 && GroupOf(slots[k].id) == group ensures Pick(ArrayOf(slots[k].id), k) in more {
        if k < n { assert Pick(ArrayOf(slots[k].id), k) in picks; } else { assert more[|picks|] in more; }
      }
    }
  }

  ghost predicate AllPicks(slots: seq<Slot>, n: nat, groups: seq<seq<Pick>>) {
    forall g | 0 <= g < |groups| :: PicksOf(slots, n, groups[g], g)
  }

  ghost predicate AllDistinct(groups: seq<seq<Pick>>) {
    forall g | 0 <= g < |groups| :: DistinctPicks(groups[g])
  }

  lemma AddToGroups(slots: seq<Slot>, slotOf: map<word64, nat>, n: nat, groups: seq<seq<Pick>>)
    requires Indexed(slots, slotOf) && n < |slots| && AllPicks(slots, n, groups) && AllDistinct(groups)
    requires GroupOf(slots[n].id) < |groups|
    ensures var g := GroupOf(slots[n].id);
      var more := groups[g := groups[g] + [Pick(ArrayOf(slots[n].id), n)]];
      AllPicks(slots, n + 1, more) && AllDistinct(more)
  {
    var h := GroupOf(slots[n].id);
    var more := groups[h := groups[h] + [Pick(ArrayOf(slots[n].id), n)]];
    forall g | 0 <= g < |groups| ensures PicksOf(slots, n + 1, more[g], g) && DistinctPicks(more[g]) {
      AddPick(slots, slotOf, n, groups[g], g);
    }
  }

  /** Sorts each group's selection, or finds a reference that no stored group can hold. */
  method GroupSelections(stored: seq<Stored>, slots: seq<Slot>, ghost slotOf: map<word64, nat>)
    returns (r: Option<seq<seq<Pick>>>)
    requires Indexed(slots, slotOf)
    ensures r.None? ==> exists k :: 0 <= k < |slots| && !InRange(stored, slots[k].id)
    ensures r.Some? ==> forall k | 0 <= k < |slots| :: InRange(stored, slots[k].id)
    ensures r.Some? ==> |r.value| == |stored| && AllPicks(slots, |slots|, r.value)
    ensures r.Some? ==> forall g | 0 <= g < |stored| :: Increasing(r.value[g])
  {
    var groups: seq<seq<Pick>> := seq(|stored|, _ => []);
    for k := 0 to |slots|
      invariant |groups| == |stored| && AllPicks(slots, k, groups) && AllDistinct(groups)
      invariant forall i | 0 <= i < k :: InRange(stored, slots[i].id)
    {
      hide AllPicks, AllDistinct, Indexed;
      var g, at := GroupOf(slots[k].id), ArrayOf(slots[k].id);
      if g >= |stored| || at >= stored[g].arrayCount { return None; }
      AddToGroups(slots, slotOf, k, groups);
      groups := groups[g := groups[g] + [Pick(at, k)]];
    }
    var sorted := seq(|groups|, g requires 0 <= g < |groups| => SortBy(groups[g], (p: Pick) => p.at));
    forall g | 0 <= g < |stored| ensures Increasing(sorted[g]) && PicksOf(slots, |slots|, sorted[g], g) {
      SortIncreasing(groups[g], (p: Pick) => p.at);
    }
    r := Some(sorted);
  }

  // ---------------------------------------------------------------- decoding one group

  /** A slot after the arrays of its group have been read. */
  function Filled(s: Slot, arrays: seq<Array>, group: nat): Slot {
    if GroupOf(s.id) == group && ArrayOf(s.id) < |arrays| then s.(bytes := arrays[ArrayOf(s.id)].bytes, loaded := true) else s
  }

  predicate Matches(s: Slot, arrays: seq<Array>, group: nat) {
    GroupOf(s.id) == group && ArrayOf(s.id) < |arrays| ==> arrays[ArrayOf(s.id)].tag == s.tag
  }

  ghost predicate FilledFrom(slots: seq<Slot>, cur: seq<Slot>, arrays: seq<Array>, group: nat) {
    && |cur| == |slots|
    && forall k | 0 <= k < |slots| :: cur[k] == Filled(slots[k], arrays, group) && Matches(slots[k], arrays, group)
  }

  /** The first `next` picks are those among the first n arrays. */
  ghost predicate Passed(picks: seq<Pick>, next: nat, n: nat) {
    next <= |picks| && forall i | 0 <= i < |picks| :: picks[i].at < n <==> i < next
  }

  lemma PassArray(picks: seq<Pick>, next: nat, n: nat)
    requires Increasing(picks) && Passed(picks, next, n)
    ensures next < |picks| && picks[next].at == n ==> Passed(picks, next + 1, n + 1)
    ensures !(next < |picks| && picks[next].at == n) ==>
      Passed(picks, next, n + 1) && forall p | p in picks :: p.at != n
  {
    if next < |picks| && picks[next].at == n {
      forall i | 0 <= i < |picks| ensures picks[i].at < n + 1 <==> i < next + 1 {
        if i > next { assert picks[next].at < picks[i].at; }
      }
    } else {
      forall i | 0 <= i < |picks| ensures picks[i].at != n && (picks[i].at < n + 1 <==> i < next) {
        if i > next { assert picks[next].at < picks[i].at; }
      }
    }
  }

  /** Filling one slot with one more array. */
  lemma FillOne(slots: seq<Slot>, cur: seq<Slot>, arrays: seq<Array>, a: Array, group: nat, k: nat)
    requires FilledFrom(slots, cur, arrays, group) && k < |slots|
    requires GroupOf(slots[k].id) == group && ArrayOf(slots[k].id) == |arrays| && a.tag == slots[k].tag
    requires forall i | 0 <= i < |slots| && i != k :: slots[i].id != slots[k].id
    ensures FilledFrom(slots, cur[k := cur[k].(bytes := a.bytes, loaded := true)], arrays + [a], group)
  {
    var more := arrays + [a];
    forall i | 0 <= i < |slots| && i != k
      ensures cur[i] == Filled(slots[i], more, group) && Matches(slots[i], more, group)
    {
      IdentityOf(slots[i].id, slots[k].id);
    }
  }

  lemma FillNone(slots: seq<Slot>, cur: seq<Slot>, arrays: seq<Array>, a: Array, group: nat)
    requires FilledFrom(slots, cur, arrays, group)
    requires forall i | 0 <= i < |slots| && GroupOf(slots[i].id) == group :: ArrayOf(slots[i].id) != |arrays|
    ensures FilledFrom(slots, cur, arrays + [a], group)
  {
  }

  /** A slot of the group whose array, once decoded, has another type. */
  ghost predicate Mismatch(slots: seq<Slot>, arrays: seq<Array>, group: nat) {
    exists k :: 0 <= k < |slots| && !Matches(slots[k], arrays, group)
  }

  /** Hands array number |arrays| to the slot that waits for it, if there is one. */
  method TakeArray(slots: seq<Slot>, ghost slotOf: map<word64, nat>, cur: seq<Slot>, picks: seq<Pick>, next: nat,
                   ghost arrays: seq<Array>, n: nat, a: Array, ghost group: nat)
    returns (ok: bool, newCur: seq<Slot>, newNext: nat)
    requires Indexed(slots, slotOf) && PicksOf(slots, |slots|, picks, group) && Increasing(picks)
    requires Passed(picks, next, |arrays|) && FilledFrom(slots, cur, arrays, group) && n == |arrays|
    ensures ok ==> Passed(picks, newNext, |arrays| + 1) && FilledFrom(slots, newCur, arrays + [a], group)
    ensures !ok ==> Mismatch(slots, arrays + [a], group)
  {
    ok, newCur, newNext := true, cur, next;
    PassArray(picks, next, n);
    if next < |picks| && picks[next].at == n {
      var k := picks[next].slot;
      assert picks[next] in picks;
      if a.tag != cur[k].tag {
        assert !Matches(slots[k], arrays + [a], group);
        return false, cur, next;
      }
      FillOne(slots, cur, arrays, a, group, k);
      newCur := cur[k := cur[k].(bytes := a.bytes, loaded := true)];
      newNext := next + 1;
    } else {
      FillNone(slots, cur, arrays, a, group);
    }
  }

  lemma MismatchLasts(slots: seq<Slot>, a: seq<Array>, b: seq<Array>, group: nat)
    requires Mismatch(slots, a, group) && a <= b
    ensures Mismatch(slots, b, group)
  {
    var k :| 0 <= k < |slots| && !Matches(slots[k], a, group);
    assert !Matches(slots[k], b, group);
  }

  lemma NothingFilled(slots: seq<Slot>, picks: seq<Pick>, group: nat)
    ensures FilledFrom(slots, slots, [], group) && Passed(picks, 0, 0)
  {
  }

  lemma MoreData(arrays: seq<Array>, a: Array)
    ensures DataSize([]) == 0 && DataSize(arrays + [a]) == DataSize(arrays) + |a.bytes|
  {
    assert (arrays + [a])[..|arrays|] == arrays;
  }

  /** A group is decoded when its records use up its payload and its size. */
  lemma DecodedIs(codec: Codec, h: Header, g: Stored)
    ensures DataSize([]) == 0
    ensures Expanded(codec, h, g).None? ==> DecodedGroup(codec, h, g).None?
    ensures Expanded(codec, h, g).Some? ==>
      var raw := Expanded(codec, h, g).value;
      var x := RecordsFrom(raw, 0, g.arrayCount, []);
      && (x.None? ==> DecodedGroup(codec, h, g).None?)
      && (x.Some? ==>
            DecodedGroup(codec, h, g) ==
              if x.value.1 == |raw| && DataSize(x.value.0) == g.rawSize then Some(Group(g.index, g.flags, x.value.0)) else None)
  {
    hide RecordsFrom, Expanded, DataSize;
    assert DataSize([]) == 0 by { MoreData([], Array(0, [])); }
  }

  method DecodeSelected(codec: Codec, h: Header, g: Stored, picks: seq<Pick>, slots: seq<Slot>, ghost slotOf: map<word64, nat>)
    returns (r: Option<seq<Slot>>)
    requires Indexed(slots, slotOf) && PicksOf(slots, |slots|, picks, g.index) && Increasing(picks)
    requires forall p | p in picks :: p.at < g.arrayCount
    ensures r.Some? ==> DecodedGroup(codec, h, g).Some?
    ensures r.Some? ==> FilledFrom(slots, r.value, DecodedGroup(codec, h, g).value.arrays, g.index)
    ensures r.None? ==> DecodedGroup(codec, h, g).None? || Mismatch(slots, DecodedGroup(codec, h, g).value.arrays, g.index)
  {
    hide RecordsFrom, Indexed, PicksOf, Increasing, Passed, FilledFrom, Mismatch, DecodedGroup, Expanded, DataSize;
    DecodedIs(codec, h, g);
    var raw :- Expanded(codec, h, g);
    ghost var arrays: seq<Array> := [];
    var n: nat, next: nat, offset: nat, dataSum: nat := 0, 0, 0, 0;
    var cur := slots;
    NothingFilled(slots, picks, g.index);
    while n < g.arrayCount
      invariant offset <= |raw| && dataSum == DataSize(arrays) && |arrays| == n <= g.arrayCount
      invariant RecordsFrom(raw, offset, g.arrayCount - n, arrays) == RecordsFrom(raw, 0, g.arrayCount, [])
      invariant Passed(picks, next, n) && FilledFrom(slots, cur, arrays, g.index)
    {
      var record := ReadRecord(raw, offset, g.arrayCount - n, arrays);
      if record.None? { return None; }
      var a := record.value.0;
      offset := record.value.1;
      var ok;
      ok, cur, next := TakeArray(slots, slotOf, cur, picks, next, arrays, n, a, g.index);
      if !ok {
        if DecodedGroup(codec, h, g).Some? {
          MismatchLasts(slots, arrays + [a], DecodedGroup(codec, h, g).value.arrays, g.index);
        }
        return None;
      }
      MoreData(arrays, a);
      dataSum := dataSum + |a.bytes|;
      arrays := arrays + [a];
      n := n + 1;
    }
    NoneLeft(raw, offset, arrays);
    AllPassed(picks, next, n);
    if offset != |raw| || dataSum != g.rawSize || next != |picks| { return None; }
    r := Some(cur);
  }

  /** The final count of the selected arrays never fails: every selected array lies inside its group. */
  lemma AllPassed(picks: seq<Pick>, next: nat, n: nat)
    requires Passed(picks, next, n) && forall p | p in picks :: p.at < n
    ensures next == |picks|
  {
    if next < |picks| {
      ElementIn(picks, next);
      assert false;
    }
  }

  lemma ElementIn(picks: seq<Pick>, k: nat)
    requires k < |picks|
    ensures picks[k] in picks
  {
  }

  // ---------------------------------------------------------------- the whole selective reading

  /** The slots after the first groups have been decoded. */
  ghost predicate FilledAll(slots: seq<Slot>, cur: seq<Slot>, groups: seq<Group>) {
    && |cur| == |slots|
    && forall k | 0 <= k < |slots| ::
         var g := GroupOf(slots[k].id);
         if g < |groups| then
           cur[k] == Filled(slots[k], groups[g].arrays, g) && Matches(slots[k], groups[g].arrays, g)
         else cur[k] == slots[k]
  }

  lemma FillGroup(slots: seq<Slot>, cur: seq<Slot>, next: seq<Slot>, groups: seq<Group>, g: Group)
    requires FilledAll(slots, cur, groups) && FilledFrom(cur, next, g.arrays, |groups|)
    ensures FilledAll(slots, next, groups + [g])
  {
    var more := groups + [g];
    forall k | 0 <= k < |slots|
      ensures var n := GroupOf(slots[k].id);
        if n < |more| then next[k] == Filled(slots[k], more[n].arrays, n) && Matches(slots[k], more[n].arrays, n)
        else next[k] == slots[k]
    {
      assert next[k] == Filled(cur[k], g.arrays, |groups|) && Matches(cur[k], g.arrays, |groups|);
    }
  }

  lemma KeepsIdentities(slots: seq<Slot>, cur: seq<Slot>, slotOf: map<word64, nat>, groups: seq<Group>, picks: seq<Pick>, g: nat)
    requires FilledAll(slots, cur, groups) && Indexed(slots, slotOf) && PicksOf(slots, |slots|, picks, g)
    ensures Indexed(cur, slotOf) && PicksOf(cur, |cur|, picks, g)
  {
  }

  /** What the staged reading of these bytes needs: its document, its references, its wants. */
  ghost predicate Reads(reader: Reader, bytes: seq<byte>, order: Order, h: Header, stored: seq<Stored>, refs: seq<ItemRefs>) {
    && FileHeader(reader.codec, bytes).Some?
    && var (text, header) := FileHeader(reader.codec, bytes).value;
    && h == header && FileGroups(h, bytes, |text|) == Some(stored) && reader.items(text, order) == Some(refs)
  }

  /** Once headers and references have been read, the staged result depends only on the decoded groups. */
  lemma StagedDecodes(reader: Reader, bytes: seq<byte>, order: Order, h: Header, stored: seq<Stored>, refs: seq<ItemRefs>)
    requires Reads(reader, bytes, order, h, stored, refs)
    ensures DecodedGroups(reader.codec, h, stored).None? ==> Staged(reader, bytes, order).None?
    ensures DecodedGroups(reader.codec, h, stored).Some? ==>
      && ParsedDocument(reader.codec, bytes).Some?
      && ParsedDocument(reader.codec, bytes).value.groups == DecodedGroups(reader.codec, h, stored).value
      && Staged(reader, bytes, order)
      == Packed(reader.half, order, refs, DocumentLookup(ParsedDocument(reader.codec, bytes).value))
  {
    hide DecodedGroups, FileGroups, FileHeader;
  }

  /** A staged reading that succeeds has resolved every want. */
  lemma StagedNeeds(reader: Reader, bytes: seq<byte>, order: Order, h: Header, stored: seq<Stored>, refs: seq<ItemRefs>, w: Want)
    requires Reads(reader, bytes, order, h, stored, refs) && w in Wants(order, refs) && Staged(reader, bytes, order).Some?
    ensures DecodedGroups(reader.codec, h, stored).Some?
    ensures Resolves(DocumentLookup(ParsedDocument(reader.codec, bytes).value), w)
  {
    StagedDecodes(reader, bytes, order, h, stored, refs);
    hide Reads, Staged, DecodedGroups, PackedViews, Wants, ParsedDocument;
    ViewsNeed(DocumentLookup(ParsedDocument(reader.codec, bytes).value), order, refs, w);
  }

  lemma ConflictFails(reader: Reader, bytes: seq<byte>, order: Order, h: Header, stored: seq<Stored>, refs: seq<ItemRefs>)
    requires Reads(reader, bytes, order, h, stored, refs) && Conflict(Wants(order, refs))
    ensures Staged(reader, bytes, order).None?
  {
    if Staged(reader, bytes, order).Some? {
      var v, w :| v in Wants(order, refs) && w in Wants(order, refs) && v.id == w.id && v.tag != w.tag;
      hide Reads, Staged, Wants;
      StagedNeeds(reader, bytes, order, h, stored, refs, v);
      StagedNeeds(reader, bytes, order, h, stored, refs, w);
      assert false;
    }
  }

  /** The stored groups are numbered in order, and so are the decoded ones. */
  lemma DecodedShape(codec: Codec, h: Header, bytes: seq<byte>, textSize: nat, stored: seq<Stored>, k: nat)
    requires FILE_HEADER + textSize <= |bytes| && FileGroups(h, bytes, textSize) == Some(stored) && k < |stored|
    ensures stored[k].index == k
    ensures DecodedGroups(codec, h, stored).Some? ==>
      var g := DecodedGroups(codec, h, stored).value[k];
      DecodedGroup(codec, h, stored[k]) == Some(g) && g.index == k && |g.arrays| == stored[k].arrayCount
  {
    hide DecodedGroup, DecodedGroups, StoredFrom;
    StoredBounds(bytes, FILE_HEADER + textSize, h.groupCount, [], k);
  }

  lemma ReadsShape(reader: Reader, bytes: seq<byte>, order: Order, h: Header, stored: seq<Stored>, refs: seq<ItemRefs>, k: nat)
    requires Reads(reader, bytes, order, h, stored, refs) && k < |stored|
    ensures stored[k].index == k
    ensures DecodedGroups(reader.codec, h, stored).Some? ==>
      var g := DecodedGroups(reader.codec, h, stored).value[k];
      DecodedGroup(reader.codec, h, stored[k]) == Some(g) && g.index == k && |g.arrays| == stored[k].arrayCount
  {
    hide FileGroups, DecodedGroups, DecodedGroup;
    DecodedShape(reader.codec, h, bytes, |FileHeader(reader.codec, bytes).value.0|, stored, k);
  }

  lemma NoArray(d: Document, stored: seq<Stored>, w: Want)
    requires |d.groups| == |stored| && !InRange(stored, w.id)
    requires GroupOf(w.id) < |stored| ==> |d.groups[GroupOf(w.id)].arrays| == stored[GroupOf(w.id)].arrayCount
    ensures !Resolves(DocumentLookup(d), w)
  {
  }

  lemma WrongType(d: Document, arrays: seq<Array>, w: Want)
    requires GroupOf(w.id) < |d.groups| && d.groups[GroupOf(w.id)].arrays == arrays
    requires ArrayOf(w.id) < |arrays| && arrays[ArrayOf(w.id)].tag != w.tag
    ensures !Resolves(DocumentLookup(d), w)
  {
  }

  lemma OutOfRangeFails(reader: Reader, bytes: seq<byte>, order: Order, h: Header, stored: seq<Stored>, refs: seq<ItemRefs>, w: Want)
    requires Reads(reader, bytes, order, h, stored, refs) && w in Wants(order, refs) && !InRange(stored, w.id)
    ensures Staged(reader, bytes, order).None?
  {
    hide Reads, Staged, Wants, DecodedGroup, DecodedGroups, Packed, ParsedDocument, Resolves, InRange;
    StagedDecodes(reader, bytes, order, h, stored, refs);
    if DecodedGroups(reader.codec, h, stored).Some? {
      if GroupOf(w.id) < |stored| { ReadsShape(reader, bytes, order, h, stored, refs, GroupOf(w.id)); }
      NoArray(ParsedDocument(reader.codec, bytes).value, stored, w);
      if Staged(reader, bytes, order).Some? {
        StagedNeeds(reader, bytes, order, h, stored, refs, w);
        assert false;
      }
    }
  }

  lemma MismatchFails(reader: Reader, bytes: seq<byte>, order: Order, h: Header, stored: seq<Stored>, refs: seq<ItemRefs>,
                      w: Want, g: nat)
    requires Reads(reader, bytes, order, h, stored, refs) && w in Wants(order, refs) && g < |stored| && GroupOf(w.id) == g
    requires DecodedGroup(reader.codec, h, stored[g]).Some?
    requires var arrays := DecodedGroup(reader.codec, h, stored[g]).value.arrays;
      ArrayOf(w.id) < |arrays| && arrays[ArrayOf(w.id)].tag != w.tag
    ensures Staged(reader, bytes, order).None?
  {
    hide Reads, Staged, Wants, DecodedGroup, DecodedGroups, Packed, ParsedDocument, Resolves;
    StagedDecodes(reader, bytes, order, h, stored, refs);
    if DecodedGroups(reader.codec, h, stored).Some? {
      ReadsShape(reader, bytes, order, h, stored, refs, g);
      WrongType(ParsedDocument(reader.codec, bytes).value, DecodedGroup(reader.codec, h, stored[g]).value.arrays, w);
      if Staged(reader, bytes, order).Some? {
        StagedNeeds(reader, bytes, order, h, stored, refs, w);
        assert false;
      }
    }
  }

  /** The view of a decoded slot. */
  function SlotLookup(slots: seq<Slot>, slotOf: map<word64, nat>): Lookup {
    (id: word64) => if id in slotOf && slotOf[id] < |slots| then Some(Array(slots[slotOf[id]].tag, slots[slotOf[id]].bytes)) else None
  }

  /** A filled slot shows the document's array. */
  lemma SlotView(s: Slot, filled: Slot, groups: seq<Group>, d: Document)
    requires GroupOf(s.id) < |groups| && d.groups == groups && groups[GroupOf(s.id)].index == GroupOf(s.id)
    requires ArrayOf(s.id) < |groups[GroupOf(s.id)].arrays|
    requires var arrays := groups[GroupOf(s.id)].arrays;
      filled == Filled(s, arrays, GroupOf(s.id)) && Matches(s, arrays, GroupOf(s.id))
    ensures DocumentLookup(d)(s.id) == Some(Array(filled.tag, filled.bytes))
  {
  }

  /** After decoding, every slot is loaded and shows what the document holds. */
  lemma SlotsAgree(reader: Reader, bytes: seq<byte>, order: Order, h: Header, stored: seq<Stored>, refs: seq<ItemRefs>,
                   slots: seq<Slot>, slotOf: map<word64, nat>, cur: seq<Slot>, groups: seq<Group>, w: Want)
    requires Reads(reader, bytes, order, h, stored, refs) && w in Wants(order, refs)
    requires Selects(slots, slotOf, Wants(order, refs)) && FilledAll(slots, cur, groups)
    requires DecodedGroups(reader.codec, h, stored) == Some(groups)
    requires forall k | 0 <= k < |slots| :: InRange(stored, slots[k].id)
    ensures ParsedDocument(reader.codec, bytes).Some?
    ensures SlotLookup(cur, slotOf)(w.id) == DocumentLookup(ParsedDocument(reader.codec, bytes).value)(w.id)
  {
    hide Reads, Staged, Wants, DecodedGroup, DecodedGroups, ParsedDocument, Packed;
    assert Selected(slots, slotOf, w);
    var k := slotOf[w.id];
    var g := GroupOf(w.id);
    StagedDecodes(reader, bytes, order, h, stored, refs);
    assert InRange(stored, slots[k].id);
    ReadsShape(reader, bytes, order, h, stored, refs, g);
    SlotView(slots[k], cur[k], groups, ParsedDocument(reader.codec, bytes).value);
  }

  /** A slot is loaded as soon as its group has been decoded. */
  lemma AllLoaded(stored: seq<Stored>, slots: seq<Slot>, cur: seq<Slot>, groups: seq<Group>)
    requires FilledAll(slots, cur, groups) && |groups| == |stored|
    requires forall k | 0 <= k < |slots| :: InRange(stored, slots[k].id)
    requires forall k | 0 <= k < |stored| :: |groups[k].arrays| == stored[k].arrayCount
    ensures forall k | 0 <= k < |cur| :: cur[k].loaded
  {
    forall k | 0 <= k < |cur| ensures cur[k].loaded {
      assert InRange(stored, slots[k].id);
    }
  }

  /** The picks of a group lie inside it. */
  lemma PicksInside(stored: seq<Stored>, slots: seq<Slot>, picks: seq<Pick>, g: nat)
    requires forall k | 0 <= k < |slots| :: InRange(stored, slots[k].id)
    requires g < |stored| && PicksOf(slots, |slots|, picks, g)
    ensures forall p | p in picks :: p.at < stored[g].arrayCount
  {
    forall p | p in picks ensures p.at < stored[g].arrayCount {
      assert InRange(stored, slots[p.slot].id);
    }
  }

  lemma GroupsStop(codec: Codec, h: Header, stored: seq<Stored>, k: nat)
    requires k < |stored| && DecodedGroup(codec, h, stored[k]).None?
    ensures DecodedGroups(codec, h, stored).None?
  {
    hide DecodedGroup;
  }

  lemma MoreDecoded(codec: Codec, h: Header, stored: seq<Stored>, k: nat, groups: seq<Group>)
    requires k < |stored| && DecodedGroups(codec, h, stored[..k]) == Some(groups) && DecodedGroup(codec, h, stored[k]).Some?
    ensures DecodedGroups(codec, h, stored[..k + 1]) == Some(groups + [DecodedGroup(codec, h, stored[k]).value])
  {
    hide DecodedGroup;
    assert stored[..k + 1][..k] == stored[..k];
  }

  /** Decodes the groups one after the other, keeping only the selected arrays. */
  method DecodeAll(reader: Reader, ghost bytes: seq<byte>, ghost order: Order, h: Header, stored: seq<Stored>,
                   ghost refs: seq<ItemRefs>, slots: seq<Slot>, ghost slotOf: map<word64, nat>, picks: seq<seq<Pick>>)
    returns (r: Option<seq<Slot>>)
    requires Reads(reader, bytes, order, h, stored, refs) && Selects(slots, slotOf, Wants(order, refs))
    requires |picks| == |stored| && AllPicks(slots, |slots|, picks) && forall g | 0 <= g < |picks| :: Increasing(picks[g])
    requires forall k | 0 <= k < |slots| :: InRange(stored, slots[k].id)
    ensures r.None? ==> Staged(reader, bytes, order).None?
    ensures r.Some? ==> DecodedGroups(reader.codec, h, stored).Some?
    ensures r.Some? ==> FilledAll(slots, r.value, DecodedGroups(reader.codec, h, stored).value)
    ensures r.Some? ==> forall k | 0 <= k < |r.value| :: r.value[k].loaded
  {
    hide Reads, Staged, Wants, DecodedGroup, Indexed, PicksOf, Increasing, FilledFrom, FilledAll, Mismatch, InRange;
    var cur := slots;
    ghost var groups: seq<Group> := [];
    NoneDecoded(reader.codec, h, slots);
    for k := 0 to |stored|
      invariant DecodedGroups(reader.codec, h, stored[..k]) == Some(groups) && |groups| == k
      invariant FilledAll(slots, cur, groups)
      invariant forall g | 0 <= g < k :: |groups[g].arrays| == stored[g].arrayCount
    {
      hide DecodedGroups;
      assert PicksOf(slots, |slots|, picks[k], k);
      KeepsIdentities(slots, cur, slotOf, groups, picks[k], k);
      ReadsShape(reader, bytes, order, h, stored, refs, k);
      PicksInside(stored, slots, picks[k], k);
      var decoded := DecodeSelected(reader.codec, h, stored[k], picks[k], cur, slotOf);
      if decoded.None? {
        DecodeFails(reader, bytes, order, h, stored, refs, slots, slotOf, cur, groups);
        return None;
      }
      MoreDecoded(reader.codec, h, stored, k, groups);
      FillGroup(slots, cur, decoded.value, groups, DecodedGroup(reader.codec, h, stored[k]).value);
      cur := decoded.value;
      groups := groups + [DecodedGroup(reader.codec, h, stored[k]).value];
    }
    assert stored[..|stored|] == stored;
    AllLoaded(stored, slots, cur, groups);
    for k := 0 to |cur| {
      if !cur[k].loaded { return None; }
    }
    r := Some(cur);
  }

  lemma NoneDecoded(codec: Codec, h: Header, slots: seq<Slot>)
    ensures DecodedGroups(codec, h, []) == Some([]) && FilledAll(slots, slots, [])
  {
  }

  /** When a group cannot be decoded selectively, the staged reading fails too. */
  lemma DecodeFails(reader: Reader, bytes: seq<byte>, order: Order, h: Header, stored: seq<Stored>, refs: seq<ItemRefs>,
                    slots: seq<Slot>, slotOf: map<word64, nat>, cur: seq<Slot>, groups: seq<Group>)
    requires Reads(reader, bytes, order, h, stored, refs) && Selects(slots, slotOf, Wants(order, refs))
    requires |groups| < |stored| && FilledAll(slots, cur, groups)
    requires var g := DecodedGroup(reader.codec, h, stored[|groups|]);
      g.None? || Mismatch(cur, g.value.arrays, |groups|)
    ensures Staged(reader, bytes, order).None?
  {
    hide Reads, Staged, Wants, DecodedGroup, Indexed, DecodedGroups;
    var n := |groups|;
    var g := DecodedGroup(reader.codec, h, stored[n]);
    if g.None? {
      GroupsStop(reader.codec, h, stored, n);
      StagedDecodes(reader, bytes, order, h, stored, refs);
    } else {
      var k :| 0 <= k < |cur| && !Matches(cur[k], g.value.arrays, n);
      assert cur[k] == slots[k];
      MismatchFails(reader, bytes, order, h, stored, refs, Want(slots[k].id, slots[k].tag), n);
    }
  }

  /** The staged reading stops as soon as a header, the references or the stored groups cannot be read. */
  lemma StagedStops(reader: Reader, bytes: seq<byte>, order: Order)
    requires FileHeader(reader.codec, bytes).Some? ==>
      var (text, h) := FileHeader(reader.codec, bytes).value;
      reader.items(text, order).None? || FileGroups(h, bytes, |text|).None?
    ensures Staged(reader, bytes, order).None?
  {
    hide FileHeader, FileGroups, DecodedGroups, Packed;
  }

  lemma ReadsHolds(reader: Reader, bytes: seq<byte>, order: Order, text: seq<byte>, h: Header,
                   stored: seq<Stored>, refs: seq<ItemRefs>)
    requires FileHeader(reader.codec, bytes) == Some((text, h)) && FileGroups(h, bytes, |text|) == Some(stored)
    requires reader.items(text, order) == Some(refs)
    ensures Reads(reader, bytes, order, h, stored, refs)
  {
    hide FileHeader, FileGroups;
  }

  lemma SelectsIndexed(slots: seq<Slot>, slotOf: map<word64, nat>, wants: seq<Want>)
    requires Selects(slots, slotOf, wants)
    ensures Indexed(slots, slotOf)
    ensures forall k | 0 <= k < |slots| :: Want(slots[k].id, slots[k].tag) in wants
  {
  }

  /** The selective reader gives exactly what the staged reading gives, on every input and in both orders. */
  method Fused(reader: Reader, bytes: seq<byte>, order: Order) returns (r: Option<Curves>)
    ensures r == Staged(reader, bytes, order)
    ensures ReadsCurves(reader, bytes, order, r)
  {
    hide ReadsCurves, L.AsStored;
    StagedReadsCurves(reader, bytes, order);
    hide Staged, Reads, Selects, Wants, FilledAll, DecodedGroups, Conflict, AllPicks, Indexed, FileHeader, FileGroups, InRange,
      SlotLookup, DocumentLookup, ParsedDocument, Increasing;
    var header := ReadFileHeader(reader.codec, bytes);
    if header.None? {
      StagedStops(reader, bytes, order);
      return None;
    }
    var (text, h) := header.value;
    var refs := reader.items(text, order);
    if refs.None? {
      StagedStops(reader, bytes, order);
      return None;
    }
    var ok, slots, slotOf := Select(order, refs.value);
    var stored := ReadGroups(h, bytes, |text|);
    if stored.None? {
      StagedStops(reader, bytes, order);
      return None;
    }
    ReadsHolds(reader, bytes, order, text, h, stored.value, refs.value);
    if !ok {
      ConflictFails(reader, bytes, order, h, stored.value, refs.value);
      return None;
    }
    SelectsIndexed(slots, slotOf, Wants(order, refs.value));
    var picks := GroupSelections(stored.value, slots, slotOf);
    if picks.None? {
      ghost var k :| 0 <= k < |slots| && !InRange(stored.value, slots[k].id);
      OutOfRangeFails(reader, bytes, order, h, stored.value, refs.value, Want(slots[k].id, slots[k].tag));
      return None;
    }
    var cur := DecodeAll(reader, bytes, order, h, stored.value, refs.value, slots, slotOf, picks.value);
    if cur.None? { return None; }
    StagedDecodes(reader, bytes, order, h, stored.value, refs.value);
    forall w | w in Wants(order, refs.value)
      ensures SlotLookup(cur.value, slotOf)(w.id) == DocumentLookup(ParsedDocument(reader.codec, bytes).value)(w.id)
    {
      SlotsAgree(reader, bytes, order, h, stored.value, refs.value, slots, slotOf, cur.value,
                 DecodedGroups(reader.codec, h, stored.value).value, w);
    }
    ViewsAgree(SlotLookup(cur.value, slotOf), DocumentLookup(ParsedDocument(reader.codec, bytes).value), order, refs.value);
    r := Pack(reader.half, order, refs.value, SlotLookup(cur.value, slotOf));
  }

  /** The staged reader itself: the whole document first, then its renderer arrays. */
  method ReadStaged(reader: Reader, bytes: seq<byte>, order: Order) returns (r: Option<Curves>)
    ensures r == Staged(reader, bytes, order)
    ensures ReadsCurves(reader, bytes, order, r)
  {
    hide ReadsCurves, L.AsStored;
    StagedReadsCurves(reader, bytes, order);
    hide ParsedDocument, Packed, DocumentLookup;
    var d := ParseDocument(reader.codec, bytes);
    if d.None? { return None; }
    var refs := reader.items(d.value.metadata, order);
    if refs.None? { return None; }
    r := Pack(reader.half, order, refs.value, DocumentLookup(d.value));
  }
}
