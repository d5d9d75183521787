/**
 How a guide cache's curves are matched to a description's guides: by the authored identifiers at the end of
 the curve names when they determine a pairing, and by the assignment of least cost otherwise.
 */
module GuideMatching {
  import opened Bytes
  import opened Decimals
  import opened Wrappers
  import opened Permutations
  import Sorting
  import Assignment

  const COMMA: byte := 0x2c

  // ---------------------------------------------------------------- the identifier at the end of a name

  /** Where the digits at the end of a name begin. */
  function IdStart(name: seq<byte>): (begin: nat)
    ensures begin <= |name| && AllDigits(name[begin..]) && (begin == 0 || !IsDigit(name[begin - 1]))
  {
    if name == [] || !IsDigit(name[|name| - 1]) then |name| else IdStart(name[..|name| - 1])
  }

  /** The number at the end of a name, if there is one and it fits. */
  function TrailingId(name: seq<byte>): Option<nat> {
    var digits := name[IdStart(name)..];
    if digits == [] || NumberOf(digits) >= U64 then None else Some(NumberOf(digits))
  }

  method ReadTrailingId(name: seq<byte>) returns (id: Option<nat>)
    ensures id == TrailingId(name)
  {
    var begin := |name|;
    while begin != 0 && IsDigit(name[begin - 1])
      invariant 0 <= begin <= |name| && IdStart(name[..begin]) == IdStart(name)
    {
      assert name[..begin][..begin - 1] == name[..begin - 1];
      begin := begin - 1;
    }
    if begin == |name| { return None; }
    var number := NumberOf(name[begin..]);
    id := if number < U64 then Some(number) else None;
  }

  /** A name that ends in an identifier: after anything but a digit, its decimal form behind zeros. */
  ghost predicate EndsWith(name: seq<byte>, prefix: seq<byte>, zeros: nat, id: nat) {
    name == prefix + (Zeros(zeros) + Decimal(id)) && (prefix == [] || !IsDigit(prefix[|prefix| - 1]))
  }

  ghost predicate EndsIn(name: seq<byte>, id: nat) {
    exists prefix: seq<byte>, zeros: nat :: EndsWith(name, prefix, zeros, id)
  }

  lemma DigitsFrom(name: seq<byte>, k: nat)
    requires k <= |name| && AllDigits(name[k..])
    ensures forall i :: k <= i < |name| ==> IsDigit(name[i])
  {
    forall i | k <= i < |name| ensures IsDigit(name[i]) { assert name[k..][i - k] == name[i]; }
  }

  lemma IdStartUnique(name: seq<byte>, begin: nat)
    requires begin <= |name| && AllDigits(name[begin..]) && (begin == 0 || !IsDigit(name[begin - 1]))
    ensures IdStart(name) == begin
  {
    var k := IdStart(name);
    DigitsFrom(name, k);
    DigitsFrom(name, begin);
  }

  lemma IdEnds(name: seq<byte>, id: nat)
    requires TrailingId(name) == Some(id)
    ensures id < U64 && EndsIn(name, id)
  {
    hide NumberOf, Decimal, Zeros;
    var begin := IdStart(name);
    var zeros := DecimalOfNumber(name[begin..]);
    var prefix := name[..begin];
    assert EndsWith(name, prefix, zeros, id);
  }

  lemma EndReads(name: seq<byte>, prefix: seq<byte>, digits: seq<byte>)
    requires name == prefix + digits && AllDigits(digits) && digits != [] && NumberOf(digits) < U64
    requires prefix == [] || !IsDigit(prefix[|prefix| - 1])
    ensures TrailingId(name) == Some(NumberOf(digits))
  {
    assert name[|prefix|..] == digits;
    assert prefix == [] || name[|prefix| - 1] == prefix[|prefix| - 1];
    IdStartUnique(name, |prefix|);
  }

  lemma EndRead(name: seq<byte>, id: nat)
    requires id < U64 && EndsIn(name, id)
    ensures TrailingId(name) == Some(id)
  {
    hide NumberOf, Decimal, Zeros, IdStart, TrailingId;
    var prefix: seq<byte>, zeros: nat :| EndsWith(name, prefix, zeros, id);
    NumberOfDecimal(zeros, id);
    EndReads(name, prefix, Zeros(zeros) + Decimal(id));
  }

  /** A name has an identifier exactly when it ends in that number's digits and the number fits. */
  lemma TrailingIdMeans(name: seq<byte>, id: nat)
    ensures TrailingId(name) == Some(id) <==> id < U64 && EndsIn(name, id)
  {
    if TrailingId(name) == Some(id) {
      IdEnds(name, id);
    }
    if id < U64 && EndsIn(name, id) {
      EndRead(name, id);
    }
  }

  // ---------------------------------------------------------------- the authored names

  /** The position of the first comma, or the end of the text. */
  function Find(text: seq<byte>): (end: nat)
    ensures end <= |text| && (end < |text| ==> text[end] == COMMA)
    ensures forall i :: 0 <= i < end ==> text[i] != COMMA
  {
    if text == [] || text[0] == COMMA then 0 else 1 + Find(text[1..])
  }

  function Split(text: seq<byte>): (entries: seq<seq<byte>>)
    ensures entries != []
    decreases |text|
  {
    var end := Find(text);
    if end == |text| then [text] else [text[..end]] + Split(text[end + 1..])
  }

  /** The identifiers of the entries that are not empty, if all of those have one. */
  function Ids(entries: seq<seq<byte>>): Option<seq<nat>> {
    if entries == [] then Some([]) else WithEntry(entries[0], Ids(entries[1..]))
  }

  function WithEntry(entry: seq<byte>, rest: Option<seq<nat>>): Option<seq<nat>> {
    if entry == [] then rest
    else if TrailingId(entry).None? then None
    else Prepended([TrailingId(entry).value], rest)
  }

  function Prepended(ids: seq<nat>, rest: Option<seq<nat>>): Option<seq<nat>> {
    if rest.None? then None else Some(ids + rest.value)
  }

  /** The identifiers of a list of names; none at all when one is missing. */
  function WireIds(text: seq<byte>): seq<nat> {
    var ids := Ids(Split(text));
    if ids.None? then [] else ids.value
  }

  lemma IdsOfSplit(text: seq<byte>)
    ensures var end := Find(text);
            Ids(Split(text)) == WithEntry(text[..end], if end == |text| then Some([]) else Ids(Split(text[end + 1..])))
  {
    hide Find, WithEntry;
    var end := Find(text);
    if end == |text| {
      assert Split(text) == [text] && [text][1..] == [] && text[..end] == text;
    } else {
      var rest := Split(text[end + 1..]);
      assert ([text[..end]] + rest)[1..] == rest;
    }
  }

  lemma PrependedTwice(a: seq<nat>, b: seq<nat>, rest: Option<seq<nat>>)
    ensures Prepended(a, Prepended(b, rest)) == Prepended(a + b, rest)
    ensures Prepended([], rest) == rest
  {
    if rest.Some? {
      assert a + (b + rest.value) == a + b + rest.value && [] + rest.value == rest.value;
    }
  }

  method ReadWireIds(text: seq<byte>) returns (ids: seq<nat>)
    ensures ids == WireIds(text)
  {
    hide Split, Ids, Find, TrailingId;
    ids := [];
    var begin := 0;
    assert text[0..] == text;
    PrependedTwice([], [], Ids(Split(text)));
    while true
      invariant 0 <= begin <= |text| && Ids(Split(text)) == Prepended(ids, Ids(Split(text[begin..])))
      decreases |text| - begin
    {
      var end := begin + Find(text[begin..]);
      var entry := text[begin..end];
      ghost var rest := if end == |text| then Some([]) else Ids(Split(text[end + 1..]));
      IdsOfSplit(text[begin..]);
      assert entry == text[begin..][..end - begin] && (end < |text| ==> text[begin..][end - begin + 1..] == text[end + 1..]);
      assert Ids(Split(text[begin..])) == WithEntry(entry, rest);
      if entry != [] {
        var id := ReadTrailingId(entry);
        if id.None? { return []; }
        PrependedTwice(ids, [id.value], rest);
        ids := ids + [id.value];
      }
      assert Ids(Split(text)) == Prepended(ids, rest);
      if end == |text| { return; }
      begin := end + 1;
    }
  }

  function Joined(names: seq<seq<byte>>): seq<byte> {
    if names == [] then [] else if |names| == 1 then names[0] else names[0] + [COMMA] + Joined(names[1..])
  }

  ghost predicate CommaFree(name: seq<byte>) {
    COMMA !in name
  }

  lemma FindAfter(name: seq<byte>, rest: seq<byte>)
    requires CommaFree(name) && (rest == [] || rest[0] == COMMA)
    ensures Find(name + rest) == |name|
  {
    var text := name + rest;
    assert forall i :: 0 <= i < |name| ==> text[i] == name[i] && name[i] in name;
    assert rest == [] || text[|name|] == rest[0];
  }

  lemma {:induction false} SplitJoined(names: seq<seq<byte>>)
    requires names != [] && forall i :: 0 <= i < |names| ==> CommaFree(names[i])
    ensures Split(Joined(names)) == names
  {
    if |names| == 1 {
      FindAfter(names[0], []);
      assert names[0] + [] == names[0];
    } else {
      var rest := [COMMA] + Joined(names[1..]);
      FindAfter(names[0], rest);
      assert Joined(names) == names[0] + rest;
      SplitJoined(names[1..]);
    }
  }

  lemma {:induction false} IdsOfNames(names: seq<seq<byte>>, ids: seq<nat>)
    requires |ids| == |names| && forall i :: 0 <= i < |names| ==> TrailingId(names[i]) == Some(ids[i])
    ensures Ids(names) == Some(ids)
  {
    if names != [] {
      IdsOfNames(names[1..], ids[1..]);
      assert ids == [ids[0]] + ids[1..];
    }
  }

  /** Names without commas that end in identifiers, joined by commas, give those identifiers in that order. */
  lemma WireIdsOfNames(names: seq<seq<byte>>, ids: seq<nat>)
    requires |ids| == |names| && forall i :: 0 <= i < |names| ==> CommaFree(names[i])
    requires forall i :: 0 <= i < |names| ==> ids[i] < U64 && EndsIn(names[i], ids[i])
    ensures WireIds(Joined(names)) == ids
  {
    forall i | 0 <= i < |names| ensures TrailingId(names[i]) == Some(ids[i]) { TrailingIdMeans(names[i], ids[i]); }
    if names == [] {
      assert Split([]) == [[]];
    } else {
      SplitJoined(names);
      IdsOfNames(names, ids);
    }
  }

  function NotEmpty(names: seq<seq<byte>>): seq<seq<byte>> {
    if names == [] then [] else (if names[0] == [] then [] else [names[0]]) + NotEmpty(names[1..])
  }

  lemma {:induction false} IdsSkipEmpty(names: seq<seq<byte>>)
    ensures Ids(NotEmpty(names)) == Ids(names)
  {
    if names != [] {
      IdsSkipEmpty(names[1..]);
      if names[0] == [] {
        assert NotEmpty(names) == NotEmpty(names[1..]);
      } else {
        assert NotEmpty(names)[1..] == NotEmpty(names[1..]);
      }
    }
  }

  lemma {:induction false} NotEmptyCommaFree(names: seq<seq<byte>>)
    requires forall i :: 0 <= i < |names| ==> CommaFree(names[i])
    ensures forall i :: 0 <= i < |NotEmpty(names)| ==> CommaFree(NotEmpty(names)[i])
  {
    hide CommaFree;
    if names != [] { NotEmptyCommaFree(names[1..]); }
  }

  lemma {:induction false} IdMissing(names: seq<seq<byte>>, k: nat)
    requires k < |names| && names[k] != [] && TrailingId(names[k]).None?
    ensures Ids(names).None?
  {
    if k > 0 { IdMissing(names[1..], k - 1); }
  }

  lemma IdsOfJoined(names: seq<seq<byte>>)
    requires forall i :: 0 <= i < |names| ==> CommaFree(names[i])
    ensures Ids(Split(Joined(names))) == Ids(names)
  {
    if names == [] {
      assert Split([]) == [[]];
    } else {
      SplitJoined(names);
    }
  }

  /** Empty names between commas do not count, and one name without an identifier leaves no identifiers at all. */
  lemma WireIdsOfEntries(names: seq<seq<byte>>)
    requires forall i :: 0 <= i < |names| ==> CommaFree(names[i])
    ensures WireIds(Joined(names)) == WireIds(Joined(NotEmpty(names)))
    ensures (exists k :: 0 <= k < |names| && names[k] != [] && TrailingId(names[k]).None?) ==> WireIds(Joined(names)) == []
  {
    hide Ids, Split, Joined, CommaFree, TrailingId;
    IdsOfJoined(names);
    NotEmptyCommaFree(names);
    IdsOfJoined(NotEmpty(names));
    IdsSkipEmpty(names);
    if k: nat :| k < |names| && names[k] != [] && TrailingId(names[k]).None? { IdMissing(names, k); }
  }

  // ---------------------------------------------------------------- the authored pairing

  /** A cached curve's identifier and its index. */
  datatype CacheId = CacheId(id: nat, curve: nat)

  ghost predicate AllNamed(names: seq<seq<byte>>) {
    forall i :: 0 <= i < |names| ==> TrailingId(names[i]).Some?
  }

  /** The identifiers of curves, which must all have one. */
  ghost function CacheIdsOf(names: seq<seq<byte>>): seq<CacheId>
    requires AllNamed(names)
  {
    seq(|names|, i requires 0 <= i < |names| => CacheId(TrailingId(names[i]).value, i))
  }

  method ReadCacheIds(names: seq<seq<byte>>) returns (ids: seq<CacheId>)
    ensures ids == if AllNamed(names) then CacheIdsOf(names) else []
  {
    ids := [];
    for curve := 0 to |names|
      invariant AllNamed(names[..curve]) && ids == CacheIdsOf(names[..curve])
    {
      var id := ReadTrailingId(names[curve]);
      if id.None? { return []; }
      assert forall i :: 0 <= i < curve ==> names[..curve][i] == names[..curve + 1][i];
      ids := ids + [CacheId(id.value, curve)];
    }
    assert names[..|names|] == names;
  }

  /** The pairing that the identifiers ask for: distinct identifiers, each guide with the curve of its own. */
  ghost predicate Matches(wire: seq<nat>, names: seq<seq<byte>>, m: seq<nat>) {
    && |m| == |wire| == |names| && IsPermutation(m) && IsInjective(wire)
    && forall g :: 0 <= g < |m| ==> TrailingId(names[m[g]]) == Some(wire[g])
  }

  ghost predicate Compatible(guideCvs: seq<nat>, curveCvs: seq<nat>, m: seq<nat>) {
    && |m| == |guideCvs| == |curveCvs|
    && forall g :: 0 <= g < |m| ==> m[g] < |m| && guideCvs[g] == curveCvs[m[g]]
  }

  /** The authored pairing of guides and curves that also agree on their numbers of points. */
  ghost predicate Authored(wire: seq<nat>, names: seq<seq<byte>>, guideCvs: seq<nat>, curveCvs: seq<nat>, m: seq<nat>) {
    Matches(wire, names, m) && Compatible(guideCvs, curveCvs, m)
  }

  lemma Onto(m: seq<nat>, x: nat) returns (g: nat)
    requires IsPermutation(m) && x < |m|
    ensures g < |m| && m[g] == x
  {
    Pigeonhole(m, |m|);
    assert x in m;
    g :| 0 <= g < |m| && m[g] == x;
  }

  /** Identifiers ask for one pairing at most. */
  lemma MatchesUnique(wire: seq<nat>, names: seq<seq<byte>>, m: seq<nat>, k: seq<nat>)
    requires Matches(wire, names, m) && Matches(wire, names, k)
    ensures m == k
  {
    forall g | 0 <= g < |m| ensures m[g] == k[g] {
      var h := Onto(m, k[g]);
      assert wire[h] == wire[g];
    }
  }

  function Itself(x: nat): int { x }
  function IdOf(c: CacheId): int { c.id }

  function SortedWire(wire: seq<nat>): seq<nat> { Sorting.SortBy(wire, Itself) }
  function SortedCache(ids: seq<CacheId>): seq<CacheId> { Sorting.SortBy(ids, IdOf) }

  /** What the source tests before it pairs: identifiers distinct on both sides, and the same after sorting. */
  predicate SameIds(wire: seq<nat>, cache: seq<CacheId>) {
    var a, b := SortedWire(wire), SortedCache(cache);
    && Sorting.AdjacentDiffer(a, Itself) && Sorting.AdjacentDiffer(b, IdOf)
    && |a| == |b| && forall i :: 0 <= i < |a| ==> a[i] == b[i].id
  }

  /** The first place of a sorted sequence that is not below x. */
  function LowerBound(s: seq<nat>, x: nat): (k: nat)
    ensures k <= |s| && (forall i :: 0 <= i < k ==> s[i] < x) && (k < |s| ==> s[k] >= x)
  {
    if s == [] || s[0] >= x then 0 else 1 + LowerBound(s[1..], x)
  }

  lemma RankFinds(s: seq<nat>, x: nat)
    requires Sorting.IncreasingKeys(s, Itself) && x in s
    ensures LowerBound(s, x) < |s| && s[LowerBound(s, x)] == x
  {
    var j :| 0 <= j < |s| && s[j] == x;
    var k := LowerBound(s, x);
    assert forall i :: 0 <= i < j ==> s[i] < x by {
      forall i | 0 <= i < j ensures s[i] < x { assert Itself(s[i]) < Itself(s[j]); }
    }
  }

  lemma InjectiveIsDistinct(wire: seq<nat>)
    ensures IsInjective(wire) <==> Sorting.DistinctKeys(wire, Itself)
  {
    if IsInjective(wire) {
      forall i, j | 0 <= i < j < |wire| ensures Itself(wire[i]) != Itself(wire[j]) { assert wire[i] != wire[j]; }
    }
    if Sorting.DistinctKeys(wire, Itself) {
      forall i, j | 0 <= i < j < |wire| ensures wire[i] != wire[j] { assert Itself(wire[i]) != Itself(wire[j]); }
    }
  }

  /** Every guide's rank among the sorted identifiers leads to a curve of its own identifier. */
  lemma RankedCurve(wire: seq<nat>, names: seq<seq<byte>>, g: nat)
    requires |wire| == |names| && AllNamed(names) && g < |wire| && SameIds(wire, CacheIdsOf(names))
    ensures IsInjective(wire)
    ensures var rank, sorted := LowerBound(SortedWire(wire), wire[g]), SortedCache(CacheIdsOf(names));
            rank < |sorted| && sorted[rank].curve < |names| && TrailingId(names[sorted[rank].curve]) == Some(wire[g])
  {
    Sorting.SortedNeighbours(wire, Itself);
    InjectiveIsDistinct(wire);
    assert wire[g] in wire;
    RankFinds(SortedWire(wire), wire[g]);
    var rank, sorted := LowerBound(SortedWire(wire), wire[g]), SortedCache(CacheIdsOf(names));
    assert sorted[rank] in sorted;
    assert sorted[rank] in CacheIdsOf(names);
  }

  /** When identifiers ask for a pairing, all curves have one and the source's tests succeed. */
  lemma MatchedIds(wire: seq<nat>, names: seq<seq<byte>>, m: seq<nat>)
    requires Matches(wire, names, m)
    ensures |wire| == |names| && AllNamed(names) && SameIds(wire, CacheIdsOf(names))
  {
    forall i | 0 <= i < |names| ensures TrailingId(names[i]).Some? { var g := Onto(m, i); }
    var cache := CacheIdsOf(names);
    forall i, j | 0 <= i < j < |cache| ensures IdOf(cache[i]) != IdOf(cache[j]) {
      var g := Onto(m, i);
      var h := Onto(m, j);
      assert g < h || h < g;
    }
    InjectiveIsDistinct(wire);
    Sorting.SortedNeighbours(wire, Itself);
    Sorting.SortedNeighbours(cache, IdOf);
    SameSorted(wire, names, m);
  }

  lemma SameSorted(wire: seq<nat>, names: seq<seq<byte>>, m: seq<nat>)
    requires Matches(wire, names, m) && AllNamed(names)
    requires Sorting.IncreasingKeys(SortedWire(wire), Itself)
    requires Sorting.IncreasingKeys(SortedCache(CacheIdsOf(names)), IdOf)
    ensures var a, b := SortedWire(wire), SortedCache(CacheIdsOf(names));
            |a| == |b| && forall i :: 0 <= i < |a| ==> a[i] == b[i].id
  {
    var cache := CacheIdsOf(names);
    var a, b := SortedWire(wire), SortedCache(cache);
    var c: seq<nat> := seq(|b|, i requires 0 <= i < |b| => b[i].id);
    forall i, j | 0 <= i < j < |c| ensures Itself(c[i]) < Itself(c[j]) { assert IdOf(b[i]) < IdOf(b[j]); }
    forall y: nat ensures y in a <==> y in c {
      if y in a {
        assert y in wire;
        var g :| 0 <= g < |wire| && wire[g] == y;
        assert cache[m[g]] in b;
        var i :| 0 <= i < |b| && b[i] == cache[m[g]];
        assert c[i] == y;
      }
      if y in c {
        var i :| 0 <= i < |c| && c[i] == y;
        assert b[i] in cache;
        var k :| 0 <= k < |cache| && cache[k] == b[i];
        var g := Onto(m, k);
        assert wire[g] in wire && wire[g] == y;
      }
    }
    Sorting.IncreasingUnique(a, c, Itself);
  }

  lemma NoneRepeat(wire: seq<nat>)
    requires wire == []
    ensures IsInjective(wire)
  {
  }

  /** A pairing by rank uses every curve once, because no curve has two identifiers. */
  lemma PairingMatches(wire: seq<nat>, names: seq<seq<byte>>, m: seq<nat>)
    requires |m| == |wire| == |names| && IsInjective(wire)
    requires forall g :: 0 <= g < |m| ==> m[g] < |names| && TrailingId(names[m[g]]) == Some(wire[g])
    ensures Matches(wire, names, m)
  {
    forall g, h | 0 <= g < h < |m| ensures m[g] != m[h] {
      assert wire[g] != wire[h];
    }
  }

  /** Finds the authored pairing by ranks, and fails exactly when there is none. */
  method AuthoredMapping(wireNames: seq<byte>, names: seq<seq<byte>>, guideCvs: seq<nat>, curveCvs: seq<nat>)
      returns (r: Option<seq<nat>>)
    requires |guideCvs| == |curveCvs| == |names|
    ensures r.Some? ==> Authored(WireIds(wireNames), names, guideCvs, curveCvs, r.value)
    ensures r.None? ==> forall m :: !Authored(WireIds(wireNames), names, guideCvs, curveCvs, m)
  {
    hide Matches, TrailingId, SameIds, LowerBound, SortedWire, SortedCache, WireIds, IsPermutation, IsInjective;
    var count := |guideCvs|;
    var wire := ReadWireIds(wireNames);
    var cache := ReadCacheIds(names);
    forall m | Matches(wire, names, m) ensures |cache| == |names| == |wire| && SameIds(wire, cache) {
      MatchedIds(wire, names, m);
    }
    if |wire| != count || |cache| != count || !SameIds(wire, cache) { return None; }
    var sortedWire, sortedCache := SortedWire(wire), SortedCache(cache);
    var mapping: seq<nat> := [];
    var compatible := true;
    for guide := 0 to count
      invariant |mapping| == guide
      invariant forall g :: 0 <= g < guide ==> mapping[g] < |names| && TrailingId(names[mapping[g]]) == Some(wire[g])
      invariant compatible <==> forall g :: 0 <= g < guide ==> guideCvs[g] == curveCvs[mapping[g]]
    {
      RankedCurve(wire, names, guide);
      var rank := LowerBound(sortedWire, wire[guide]);
      var curve := sortedCache[rank].curve;
      mapping := mapping + [curve];
      compatible := compatible && guideCvs[guide] == curveCvs[curve];
    }
    if count > 0 { RankedCurve(wire, names, 0); } else { NoneRepeat(wire); }
    PairingMatches(wire, names, mapping);
    if compatible { return Some(mapping); }
    forall m ensures !Authored(wire, names, guideCvs, curveCvs, m) {
      if Matches(wire, names, m) { MatchesUnique(wire, names, mapping, m); }
    }
    r := None;
  }

  // ---------------------------------------------------------------- the whole matching

  datatype Failure = CvCounts | Roots

  /** What the source puts into the cost matrix for guides and curves with different numbers of points. */
  ghost predicate CostsOf(cost: Assignment.Matrix, guideCvs: seq<nat>, curveCvs: seq<nat>) {
    && Assignment.Square(cost) && |cost| == |guideCvs| == |curveCvs|
    && forall g, c :: 0 <= g < |cost| && 0 <= c < |cost| && guideCvs[g] != curveCvs[c] ==>
         cost[g][c] == Assignment.INCOMPATIBLE_COST
  }

  ghost predicate SomeAuthored(wire: seq<nat>, names: seq<seq<byte>>, guideCvs: seq<nat>, curveCvs: seq<nat>) {
    exists m :: Authored(wire, names, guideCvs, curveCvs, m)
  }

  /** Costs are distances, and some pairing costs less than one incompatible pair. */
  ghost predicate CheapPairing(cost: Assignment.Matrix) {
    && Assignment.Square(cost)
    && (forall g, c :: 0 <= g < |cost| && 0 <= c < |cost| ==> cost[g][c] >= 0.0)
    && exists p: seq<nat> :: |p| == |cost| && IsPermutation(p) && Assignment.Total(cost, p) < Assignment.INCOMPATIBLE_COST
  }

  ghost predicate UsesIncompatible(cost: Assignment.Matrix, m: seq<nat>) {
    Assignment.Optimal(cost, m) && exists g :: 0 <= g < |cost| && cost[g][m[g]] >= Assignment.INCOMPATIBLE_COST
  }

  /** Where some pairing is cheap, no optimal one uses an incompatible pair. */
  lemma CheapIsCompatible(cost: Assignment.Matrix, m: seq<nat>)
    requires CheapPairing(cost)
    ensures !UsesIncompatible(cost, m)
  {
    if Assignment.Optimal(cost, m) {
      var p: seq<nat> :|
        |p| == |cost| && IsPermutation(p) && Assignment.Total(cost, p) < Assignment.INCOMPATIBLE_COST;
      forall g | 0 <= g < |cost| ensures cost[g][m[g]] < Assignment.INCOMPATIBLE_COST {
        Assignment.CheapMeansCompatible(cost, m, p, g);
      }
    }
  }

  /**
   The mapping of guides to curves. `rootsAgree` stands for the comparison of root distances, which only a
   mapping found by cost has to pass.
   */
  method MapGuides(cost: Assignment.Matrix, wireNames: seq<byte>, names: seq<seq<byte>>, guideCvs: seq<nat>,
                   curveCvs: seq<nat>, rootsAgree: seq<nat> -> bool) returns (r: Result<seq<nat>, Failure>)
    requires CostsOf(cost, guideCvs, curveCvs) && |names| == |curveCvs|
    ensures r.Ok? ==> IsPermutation(r.value) && Compatible(guideCvs, curveCvs, r.value)
    ensures r.Ok? && SomeAuthored(WireIds(wireNames), names, guideCvs, curveCvs) ==>
      Authored(WireIds(wireNames), names, guideCvs, curveCvs, r.value)
    ensures r.Ok? && !SomeAuthored(WireIds(wireNames), names, guideCvs, curveCvs) ==>
      Assignment.Optimal(cost, r.value) && rootsAgree(r.value)
    ensures r == Err(CvCounts) ==> exists m :: UsesIncompatible(cost, m)
    ensures r == Err(Roots) ==>
      && !SomeAuthored(WireIds(wireNames), names, guideCvs, curveCvs)
      && exists m: seq<nat> :: Assignment.Optimal(cost, m) && !rootsAgree(m)
    ensures CheapPairing(cost)
      && (SomeAuthored(WireIds(wireNames), names, guideCvs, curveCvs)
          || forall m: seq<nat> :: Assignment.Optimal(cost, m) ==> rootsAgree(m))
      ==> r.Ok?
  {
    hide CheapPairing;
    var outcome := Assignment.Assign(cost);
    if outcome.Incompatible? {
      ghost var m: seq<nat> :|
        Assignment.Optimal(cost, m) && exists g :: 0 <= g < |cost| && cost[g][m[g]] >= Assignment.INCOMPATIBLE_COST;
      assert UsesIncompatible(cost, m);
      if CheapPairing(cost) { CheapIsCompatible(cost, m); }
      return Err(CvCounts);
    }
    var mapping := outcome.mapping;
    var authored := AuthoredMapping(wireNames, names, guideCvs, curveCvs);
    if authored.Some? { return Ok(authored.value); }
    if !rootsAgree(mapping) { return Err(Roots); }
    r := Ok(mapping);
  }

  /** A guide whose points behind the root are those of a curve. */
  function Moved<P>(guide: seq<P>, curve: seq<P>): (r: seq<P>)
    requires guide != [] && curve != []
  {
    [guide[0]] + curve[1..]
  }

  /** The first n guides have received their curves, and the rest and their curves are as they were. */
  ghost predicate MovedUpTo<P(!new)>(was: seq<seq<P>>, curves: seq<seq<P>>, mapping: seq<nat>, n: nat,
                               guidesNow: seq<seq<P>>, curvesNow: seq<seq<P>>)
    requires |was| == |curves| == |mapping| == |guidesNow| == |curvesNow| && IsPermutation(mapping)
    requires forall g :: 0 <= g < |was| ==> was[g] != [] && curves[g] != []
  {
    && (forall g {:trigger guidesNow[g]} :: 0 <= g < |was| ==>
          guidesNow[g] == if g < n then Moved(was[g], curves[mapping[g]]) else was[g])
    && (forall g {:trigger mapping[g]} :: 0 <= g < |was| ==>
          curvesNow[mapping[g]] == if g < n then [] else curves[mapping[g]])
  }

  lemma NoneMoved<P(!new)>(was: seq<seq<P>>, curves: seq<seq<P>>, mapping: seq<nat>)
    requires |was| == |curves| == |mapping| && IsPermutation(mapping)
    requires forall g :: 0 <= g < |was| ==> was[g] != [] && curves[g] != []
    ensures MovedUpTo(was, curves, mapping, 0, was, curves)
  {
  }

  lemma AllMoved<P(!new)>(was: seq<seq<P>>, curves: seq<seq<P>>, mapping: seq<nat>,
                    guidesNow: seq<seq<P>>, curvesNow: seq<seq<P>>)
    requires |was| == |curves| == |mapping| == |guidesNow| == |curvesNow| && IsPermutation(mapping)
    requires forall g :: 0 <= g < |was| ==> was[g] != [] && curves[g] != []
    requires MovedUpTo(was, curves, mapping, |was|, guidesNow, curvesNow)
    ensures forall g :: 0 <= g < |was| ==> guidesNow[g] == Moved(was[g], curves[mapping[g]])
    ensures forall c :: 0 <= c < |was| ==> curvesNow[c] == []
  {
    forall c | 0 <= c < |was| ensures curvesNow[c] == [] { var g := Onto(mapping, c); }
  }

  lemma MoveOne<P(!new)>(was: seq<seq<P>>, curves: seq<seq<P>>, mapping: seq<nat>, n: nat,
                   guidesNow: seq<seq<P>>, curvesNow: seq<seq<P>>)
    requires |was| == |curves| == |mapping| == |guidesNow| == |curvesNow| && IsPermutation(mapping) && n < |was|
    requires forall g :: 0 <= g < |was| ==> was[g] != [] && curves[g] != []
    requires MovedUpTo(was, curves, mapping, n, guidesNow, curvesNow)
    ensures var k := mapping[n];
            && guidesNow[n] != [] && curvesNow[k] != []
            && MovedUpTo(was, curves, mapping, n + 1, guidesNow[n := curvesNow[k][0 := guidesNow[n][0]]], curvesNow[k := []])
  {
    var k := mapping[n];
    assert forall g {:trigger mapping[g]} :: 0 <= g < |was| && g != n ==> mapping[g] != k;
    assert guidesNow[n] == was[n] && curvesNow[k] == curves[k];
    assert curves[k][0 := was[n][0]] == Moved(was[n], curves[k]);
  }

  /**
   Moves every curve into its guide behind the guide's own root. A curve that has been moved is left empty, so
   this relies on the mapping not using one twice.
   */
  method ApplyCurves<P(!new)>(guides: array<seq<P>>, curves: array<seq<P>>, mapping: seq<nat>)
    requires guides != curves && guides.Length == curves.Length == |mapping| && IsPermutation(mapping)
    requires forall g :: 0 <= g < guides.Length ==> guides[g] != [] && curves[g] != []
    modifies guides, curves
    ensures forall g :: 0 <= g < guides.Length ==> guides[g] == Moved(old(guides[g]), old(curves[mapping[g]]))
    ensures forall c :: 0 <= c < curves.Length ==> curves[c] == []
  {
    hide Moved, MovedUpTo;
    ghost var was, had := guides[..], curves[..];
    NoneMoved(was, had, mapping);
    for guide := 0 to guides.Length
      invariant MovedUpTo(was, had, mapping, guide, guides[..], curves[..])
    {
      var k := mapping[guide];
      MoveOne(was, had, mapping, guide, guides[..], curves[..]);
      ghost var guidesNow, curvesNow := guides[..], curves[..];
      curves[k] := curves[k][0 := guides[guide][0]];
      guides[guide] := curves[k];
      curves[k] := [];
      assert guides[..] == guidesNow[guide := curvesNow[k][0 := guidesNow[guide][0]]];
      assert curves[..] == curvesNow[k := []];
    }
    AllMoved(was, had, mapping, guides[..], curves[..]);
    forall g | 0 <= g < guides.Length ensures guides[g] == Moved(was[g], had[mapping[g]]) {
      assert guides[g] == guides[..][g];
    }
    forall c | 0 <= c < curves.Length ensures curves[c] == [] { assert curves[c] == curves[..][c]; }
  }
}
