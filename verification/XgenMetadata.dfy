/** The metadata text of a document: its writer, and the readers of its header and items. */
module XgenMetadata {
  import opened Wrappers
  import opened Bytes
  import opened Decimals
  import opened JsonText
  import opened JsonTree
  import opened JsonReader
  import opened XgenContainer
  import opened PackedCurves

  // ---------------------------------------------------------------- names

  /** The bytes of a plain name. */
  function Ascii(s: string): (r: seq<byte>)
    ensures |r| == |s|
  {
    seq(|s|, i requires 0 <= i < |s| => s[i] as int % 256)
  }

  /** A name that needs no escaping. */
  predicate Plain(s: string) {
    forall i :: 0 <= i < |s| ==> ' ' <= s[i] <= '~' && s[i] != '"' && s[i] != '\\'
  }

  lemma AsciiDiffers(a: string, b: string)
    requires Plain(a) && Plain(b) && a != b
    ensures Ascii(a) != Ascii(b)
  {
    if Ascii(a) == Ascii(b) {
      forall i | 0 <= i < |a| ensures a[i] == b[i] { assert Ascii(a)[i] == Ascii(b)[i]; }
    }
  }

  lemma {:induction false} PlainEscaped(text: seq<byte>)
    requires forall i :: 0 <= i < |text| ==> 0x20 <= text[i] && text[i] != QUOTE && text[i] != BACKSLASH
    ensures Escaped(text) == text
  {
    if text != [] {
      PlainEscaped(text[1..]);
      assert EscapedByte(text[0]) == [text[0]];
      assert text == [text[0]] + text[1..];
    }
  }

  lemma AsciiEscaped(s: string)
    requires Plain(s)
    ensures Escaped(Ascii(s)) == Ascii(s)
  {
    PlainEscaped(Ascii(s));
  }

  // ---------------------------------------------------------------- reading: specification

  function FirstWith(members: seq<Member>, key: seq<byte>): Option<Json> {
    if members == [] then None
    else if members[0].key == key then Some(members[0].value)
    else FirstWith(members[1..], key)
  }

  /** The value that an object has under a name. */
  function ValueOf(v: Json, name: string): Option<Json> {
    if v.Object? then FirstWith(v.members, Ascii(name)) else None
  }

  /** An unsigned integer of 64 bits: digits only. */
  function WordOf(v: Json): Option<word64> {
    if !v.Number? || v.digits == [] || !AllDigits(v.digits) || NumberOf(v.digits) >= U64 then None
    else Some(NumberOf(v.digits))
  }

  function TruthOf(v: Json): Option<bool> { if v.Boolean? then Some(v.truth) else None }

  function WordIn(v: Json, name: string): Option<word64> {
    var found :- ValueOf(v, name);
    WordOf(found)
  }

  function TruthIn(v: Json, name: string): Option<bool> {
    var found :- ValueOf(v, name);
    TruthOf(found)
  }

  /** What a header object says, if it is one that the container supports. */
  function HeaderIn(header: Json): Option<Header> {
    var version :- WordIn(header, "Version");
    var groupVersion :- WordIn(header, "GroupVersion");
    var groupCount :- WordIn(header, "GroupCount");
    var level :- WordIn(header, "GroupDeflateLevel");
    if version >= U32 || groupVersion >= U32 || groupCount >= U32 || level > 9 then None
    else
      var kind :- ValueOf(header, "Type");
      if kind != Text(Ascii("XgSplineData")) then None
      else
        var base64 :- TruthIn(header, "GroupBase64");
        var deflate :- TruthIn(header, "GroupDeflate");
        if version != 1 || groupVersion != 1 || base64 then None
        else Some(Header(version, groupVersion, groupCount, base64, deflate, level))
  }

  /** What a metadata text says about the container. */
  function HeaderOf(text: seq<byte>): Option<Header> {
    var root :- Parsed(text);
    var header :- ValueOf(root, "Header");
    HeaderIn(header)
  }

  /** The references of one item; the surface coordinates only where they are needed. */
  function RefsIn(item: Json, surface: bool): Option<ItemRefs> {
    var infos :- WordIn(item, "PrimitiveInfos");
    var positions :- WordIn(item, "Positions");
    var widths :- WordIn(item, "WIDTH_CV");
    if !surface then Some(ItemRefs(infos, positions, widths, 0, 0, 0))
    else
      var patchUvs :- WordIn(item, "PatchUVs");
      var faceUvs :- WordIn(item, "FaceUV");
      var faceIds :- WordIn(item, "FaceId");
      Some(ItemRefs(infos, positions, widths, patchUvs, faceUvs, faceIds))
  }

  function AllRefsIn(items: seq<Json>, surface: bool): (r: Option<seq<ItemRefs>>)
    ensures r.Some? ==> |r.value| == |items|
  {
    if items == [] then Some([])
    else
      var init :- AllRefsIn(items[..|items| - 1], surface);
      var last :- RefsIn(items[|items| - 1], surface);
      Some(init + [last])
  }

  /** The references of every item of a metadata text that is accepted; there must be items. */
  function RefsOf(text: seq<byte>, surface: bool): Option<seq<ItemRefs>> {
    var root :- Parsed(text);
    var header :- ValueOf(root, "Header");
    var _ :- HeaderIn(header);
    var items :- ValueOf(root, "Items");
    if !items.List? || items.elements == [] then None else AllRefsIn(items.elements, surface)
  }

  // ---------------------------------------------------------------- writing: specification

  /** The names of the eleven arrays, in the order in which they are stored. */
  const ARRAY_NAMES: seq<string> := ["PrimitiveInfos", "Positions", "PatchUVs", "MeshN", "MeshU", "MeshV", "FaceUV", "FaceId",
                                     "FrozenSet", "WIDTH_CV", "DIRECTION_CV"]

  function Named(name: string, value: Json): Member { Member(Ascii(name), value) }

  function HeaderMembers(groups: nat, level: nat): seq<Member> {
    [Named("Version", Number(Decimal(1))), Named("Type", Text(Ascii("XgSplineData"))),
     Named("GroupVersion", Number(Decimal(1))), Named("GroupCount", Number(Decimal(groups))),
     Named("GroupBase64", Boolean(false)), Named("GroupDeflate", Boolean(true)),
     Named("GroupDeflateLevel", Number(Decimal(level)))]
  }

  const ITEM_ID := "00000000-0000-0000-0000-000000000001"

  function ItemStart(name: seq<byte>): seq<Member> {
    [Named("Name", Text(name)), Named("Id", Text(Ascii(ITEM_ID))), Named("Mode", Text(Ascii("Density")))]
  }

  function IdMembers(ids: seq<word64>): (r: seq<Member>)
    requires |ids| <= |ARRAY_NAMES|
    ensures |r| == |ids|
  {
    seq(|ids|, k requires 0 <= k < |ids| => Named(ARRAY_NAMES[k], Number(Decimal(ids[k]))))
  }

  function ItemMembers(name: seq<byte>, ids: seq<word64>): seq<Member>
    requires |ids| <= |ARRAY_NAMES|
  {
    ItemStart(name) + IdMembers(ids)
  }

  function MetadataTree(groups: nat, level: nat, name: seq<byte>, ids: seq<word64>): Json
    requires |ids| == |ARRAY_NAMES|
  {
    Object([Named("Header", Object(HeaderMembers(groups, level))), Named("Items", List([Object(ItemMembers(name, ids))])),
            Named("RefMeshArray", List([])), Named("CustomData", Object([]))])
  }

  const NEW_LINE: byte := 0x0a

  /** The outermost members stand on lines of their own; everything else is without space. */
  const STYLE: Style := Style((place, path) => if place == BeforeKey && |path| == 1 then [NEW_LINE, 0x20, 0x20]
                                               else if place == AfterValue && path == [3] then [NEW_LINE]
                                               else [])

  function MetadataText(groups: nat, level: nat, name: seq<byte>, ids: seq<word64>): seq<byte>
    requires |ids| == |ARRAY_NAMES|
  {
    Padded(MetadataTree(groups, level, name, ids), [], STYLE)
  }

  // ---------------------------------------------------------------- the metadata that was written is understood

  lemma {:induction false} FirstWithAt(members: seq<Member>, k: nat)
    requires DifferentKeys(members) && k < |members|
    ensures FirstWith(members, members[k].key) == Some(members[k].value)
  {
    if k > 0 { FirstWithAt(members[1..], k - 1); }
  }

  /** Members with the same names differ in their keys when the names are plain and different. */
  lemma NamesDiffer(members: seq<Member>, names: seq<string>)
    requires |members| == |names| && forall k :: 0 <= k < |names| ==> members[k].key == Ascii(names[k]) && Plain(names[k])
    requires forall i, k :: 0 <= i < k < |names| ==> names[i] != names[k]
    ensures DifferentKeys(members)
  {
    forall i, k | 0 <= i < k < |members| ensures members[i].key != members[k].key {
      AsciiDiffers(names[i], names[k]);
    }
  }

  const HEADER_NAMES: seq<string> := ["Version", "Type", "GroupVersion", "GroupCount", "GroupBase64", "GroupDeflate", "GroupDeflateLevel"]
  const ITEM_NAMES: seq<string> := ["Name", "Id", "Mode"] + ARRAY_NAMES
  const ROOT_NAMES: seq<string> := ["Header", "Items", "RefMeshArray", "CustomData"]

  lemma HeaderKeys(groups: nat, level: nat)
    ensures DifferentKeys(HeaderMembers(groups, level))
  {
    var members := HeaderMembers(groups, level);
    hide Ascii;
    NamesDiffer(members, HEADER_NAMES);
  }

  lemma ItemKeys(name: seq<byte>, ids: seq<word64>)
    requires |ids| == |ARRAY_NAMES|
    ensures DifferentKeys(ItemMembers(name, ids))
  {
    var members := ItemMembers(name, ids);
    ItemNames();
    hide Ascii, Plain, Decimal;
    forall k | 0 <= k < |members| ensures members[k].key == Ascii(ITEM_NAMES[k]) {
      if k >= 3 { assert members[k] == IdMembers(ids)[k - 3] && ITEM_NAMES[k] == ARRAY_NAMES[k - 3]; }
    }
    NamesDiffer(members, ITEM_NAMES);
  }

  lemma ItemNames()
    ensures forall k :: 0 <= k < |ITEM_NAMES| ==> Plain(ITEM_NAMES[k])
    ensures forall i, k :: 0 <= i < k < |ITEM_NAMES| ==> ITEM_NAMES[i] != ITEM_NAMES[k]
  {
  }

  lemma RootKeys(groups: nat, level: nat, name: seq<byte>, ids: seq<word64>)
    requires |ids| == |ARRAY_NAMES|
    ensures DifferentKeys(MetadataTree(groups, level, name, ids).members)
  {
    hide Ascii;
    NamesDiffer(MetadataTree(groups, level, name, ids).members, ROOT_NAMES);
  }

  /** Decimal digits are a JSON number. */
  lemma DecimalIsNumber(n: nat)
    ensures NumberEnd(Decimal(n), 0) == Some(|Decimal(n)|) && WordOf(Number(Decimal(n))) == if n < U64 then Some(n) else None
  {
    var s := Decimal(n);
    DecimalStart(n);
    AllDigitsEnd(s, if |s| > 1 then 1 else 0);
    NumberOfDecimal(0, n);
    assert Zeros(0) + s == s;
    hide Decimal, NumberOf;
  }

  lemma {:induction false} AllDigitsEnd(s: seq<byte>, at: nat)
    requires AllDigits(s) && at <= |s|
    ensures DigitsEnd(s, at) == |s|
    decreases |s| - at
  {
    if at < |s| { AllDigitsEnd(s, at + 1); }
  }

  lemma {:induction false} MembersAllPrintable(members: seq<Member>, depth: nat)
    requires forall k :: 0 <= k < |members| ==> Printable(members[k].value, depth)
    ensures MembersPrintable(members, depth)
  {
    hide Printable;
    if members != [] { MembersAllPrintable(members[1..], depth); }
  }

  lemma HeaderPrintable(groups: nat, level: nat)
    ensures Printable(Object(HeaderMembers(groups, level)), 1)
  {
    var members := HeaderMembers(groups, level);
    HeaderKeys(groups, level);
    DecimalIsNumber(1);
    DecimalIsNumber(groups);
    DecimalIsNumber(level);
    hide Ascii, Decimal, NumberEnd, DifferentKeys;
    MembersAllPrintable(members, 2);
  }

  lemma ItemPrintable(name: seq<byte>, ids: seq<word64>)
    requires |ids| == |ARRAY_NAMES|
    ensures Printable(Object(ItemMembers(name, ids)), 2)
  {
    var members := ItemMembers(name, ids);
    ItemKeys(name, ids);
    forall k | 0 <= k < |ids| ensures Printable(Number(Decimal(ids[k])), 3) { DecimalIsNumber(ids[k]); }
    hide Ascii, Decimal, NumberEnd, DifferentKeys;
    forall k | 0 <= k < |members| ensures Printable(members[k].value, 3) {
      if k >= 3 { assert members[k] == IdMembers(ids)[k - 3]; }
    }
    MembersAllPrintable(members, 3);
  }

  lemma TreePrintable(groups: nat, level: nat, name: seq<byte>, ids: seq<word64>)
    requires |ids| == |ARRAY_NAMES|
    ensures Printable(MetadataTree(groups, level, name, ids), 0)
  {
    var tree := MetadataTree(groups, level, name, ids);
    RootKeys(groups, level, name, ids);
    HeaderPrintable(groups, level);
    ItemPrintable(name, ids);
    hide Ascii, HeaderMembers, ItemMembers, DifferentKeys;
    var item := Object(ItemMembers(name, ids));
    assert AllPrintable([item], 2) by { assert [item][1..] == []; }
    MembersAllPrintable(tree.members, 1);
  }

  lemma StyleSpaced()
    ensures Spaced(STYLE)
  {
  }

  lemma WordAtName(members: seq<Member>, k: nat, name: string, n: nat)
    requires DifferentKeys(members) && k < |members| && members[k] == Named(name, Number(Decimal(n))) && n < U64
    ensures WordIn(Object(members), name) == Some(n)
  {
    FirstWithAt(members, k);
    DecimalIsNumber(n);
  }

  lemma HeaderReads(groups: nat, level: nat)
    requires groups < U32 && level <= 9
    ensures HeaderIn(Object(HeaderMembers(groups, level))) == Some(Header(1, 1, groups, false, true, level))
  {
    var members := HeaderMembers(groups, level);
    HeaderKeys(groups, level);
    hide Ascii, Decimal, DifferentKeys, FirstWith;
    WordAtName(members, 0, "Version", 1);
    WordAtName(members, 2, "GroupVersion", 1);
    WordAtName(members, 3, "GroupCount", groups);
    WordAtName(members, 6, "GroupDeflateLevel", level);
    FirstWithAt(members, 1);
    FirstWithAt(members, 4);
    FirstWithAt(members, 5);
  }

  /** The references that the item records. */
  function RecordedRefs(ids: seq<word64>, surface: bool): ItemRefs
    requires |ids| == 11
  {
    ItemRefs(ids[0], ids[1], ids[9], if surface then ids[2] else 0, if surface then ids[6] else 0, if surface then ids[7] else 0)
  }

  lemma ItemReads(name: seq<byte>, ids: seq<word64>, surface: bool)
    requires |ids| == |ARRAY_NAMES|
    ensures RefsIn(Object(ItemMembers(name, ids)), surface) == Some(RecordedRefs(ids, surface))
  {
    var members := ItemMembers(name, ids);
    ItemKeys(name, ids);
    hide Ascii, Decimal, DifferentKeys, FirstWith, WordIn;
    WordAtName(members, 3, "PrimitiveInfos", ids[0]);
    WordAtName(members, 4, "Positions", ids[1]);
    WordAtName(members, 5, "PatchUVs", ids[2]);
    WordAtName(members, 9, "FaceUV", ids[6]);
    WordAtName(members, 10, "FaceId", ids[7]);
    WordAtName(members, 12, "WIDTH_CV", ids[9]);
  }

  /** The readers understand what the writer wrote, for every name, level and set of ids. */
  lemma MetadataUnderstood(groups: nat, level: nat, name: seq<byte>, ids: seq<word64>, surface: bool)
    requires groups < U32 && level <= 9 && |ids| == |ARRAY_NAMES|
    ensures HeaderOf(MetadataText(groups, level, name, ids)) == Some(Header(1, 1, groups, false, true, level))
    ensures RefsOf(MetadataText(groups, level, name, ids), surface) == Some([RecordedRefs(ids, surface)])
  {
    var tree := MetadataTree(groups, level, name, ids);
    RootKeys(groups, level, name, ids);
    TreePrintable(groups, level, name, ids);
    StyleSpaced();
    hide Padded, Parsed, Printable, Spaced, DifferentKeys, FirstWith, HeaderIn, HeaderMembers, ItemMembers, Ascii, RefsIn, RecordedRefs;
    PrintRoundTrip(tree, STYLE);
    FirstWithAt(tree.members, 0);
    FirstWithAt(tree.members, 1);
    HeaderReads(groups, level);
    ItemReads(name, ids, surface);
    OneItem(Object(ItemMembers(name, ids)), surface, RecordedRefs(ids, surface));
    RootReads(MetadataText(groups, level, name, ids), tree, Object(HeaderMembers(groups, level)),
              List([Object(ItemMembers(name, ids))]), surface);
  }

  lemma OneItem(item: Json, surface: bool, refs: ItemRefs)
    requires RefsIn(item, surface) == Some(refs)
    ensures AllRefsIn([item], surface) == Some([refs])
  {
    hide RefsIn;
    assert [item][..0] == [] && [] + [refs] == [refs];
  }

  lemma RootReads(text: seq<byte>, root: Json, header: Json, items: Json, surface: bool)
    requires Parsed(text) == Some(root) && ValueOf(root, "Header") == Some(header) && ValueOf(root, "Items") == Some(items)
    requires items.List? && items.elements != []
    ensures HeaderOf(text) == HeaderIn(header)
    ensures HeaderIn(header).Some? ==> RefsOf(text, surface) == AllRefsIn(items.elements, surface)
  {
    hide Parsed, ValueOf, HeaderIn, AllRefsIn;
  }

  // ---------------------------------------------------------------- the readers

  method FindMember(v: Json, name: string) returns (r: Option<Json>)
    ensures r == ValueOf(v, name)
  {
    if !v.Object? { return None; }
    var key := Ascii(name);
    for k := 0 to |v.members|
      invariant FirstWith(v.members[k..], key) == FirstWith(v.members, key)
    {
      assert v.members[k..][0] == v.members[k] && v.members[k..][1..] == v.members[k + 1..];
      if v.members[k].key == key { return Some(v.members[k].value); }
    }
    r := None;
  }

  method ReadWord(v: Json, name: string) returns (r: Option<word64>)
    ensures r == WordIn(v, name)
  {
    hide ValueOf;
    var found := FindMember(v, name);
    r := if found.None? then None else WordOf(found.value);
  }

  method ReadTruth(v: Json, name: string) returns (r: Option<bool>)
    ensures r == TruthIn(v, name)
  {
    hide ValueOf;
    var found := FindMember(v, name);
    r := if found.None? then None else TruthOf(found.value);
  }

  method ReadHeader(header: Json) returns (r: Option<Header>)
    ensures r == HeaderIn(header)
  {
    hide ValueOf, WordIn, TruthIn;
    var version := ReadWord(header, "Version");
    if version.None? { return None; }
    var groupVersion := ReadWord(header, "GroupVersion");
    if groupVersion.None? { return None; }
    var groupCount := ReadWord(header, "GroupCount");
    if groupCount.None? { return None; }
    var level := ReadWord(header, "GroupDeflateLevel");
    if level.None? { return None; }
    if version.value >= U32 || groupVersion.value >= U32 || groupCount.value >= U32 || level.value > 9 { return None; }
    var kind := FindMember(header, "Type");
    if kind.None? || kind.value != Text(Ascii("XgSplineData")) { return None; }
    var base64 := ReadTruth(header, "GroupBase64");
    if base64.None? { return None; }
    var deflate := ReadTruth(header, "GroupDeflate");
    if deflate.None? { return None; }
    if version.value != 1 || groupVersion.value != 1 { return None; }
    if base64.value { return None; }
    r := Some(Header(version.value, groupVersion.value, groupCount.value, base64.value, deflate.value, level.value));
  }

  /** Parses a metadata text and its header. */
  method ParseMetadata(text: seq<byte>) returns (r: Option<(Json, Header)>)
    ensures r.None? <==> HeaderOf(text).None?
    ensures r.Some? ==> Parsed(text) == Some(r.value.0) && HeaderOf(text) == Some(r.value.1)
  {
    hide Parsed, ValueOf, HeaderIn;
    var parser := new JsonParser(text);
    var root := parser.Parse();
    if root.None? { return None; }
    var header := FindMember(root.value, "Header");
    if header.None? { return None; }
    var h := ReadHeader(header.value);
    r := if h.None? then None else Some((root.value, h.value));
  }

  method ReadItemRefs(item: Json, surface: bool) returns (r: Option<ItemRefs>)
    ensures r == RefsIn(item, surface)
  {
    hide WordIn;
    var infos := ReadWord(item, "PrimitiveInfos");
    if infos.None? { return None; }
    var positions := ReadWord(item, "Positions");
    if positions.None? { return None; }
    var widths := ReadWord(item, "WIDTH_CV");
    if widths.None? { return None; }
    if !surface { return Some(ItemRefs(infos.value, positions.value, widths.value, 0, 0, 0)); }
    var patchUvs := ReadWord(item, "PatchUVs");
    if patchUvs.None? { return None; }
    var faceUvs := ReadWord(item, "FaceUV");
    if faceUvs.None? { return None; }
    var faceIds := ReadWord(item, "FaceId");
    if faceIds.None? { return None; }
    r := Some(ItemRefs(infos.value, positions.value, widths.value, patchUvs.value, faceUvs.value, faceIds.value));
  }

  lemma {:induction false} RefsStop(items: seq<Json>, surface: bool, k: nat)
    requires k < |items| && RefsIn(items[k], surface).None?
    ensures AllRefsIn(items, surface).None?
  {
    hide RefsIn;
    if k < |items| - 1 { RefsStop(items[..|items| - 1], surface, k); }
  }

  /** The references of a metadata text's items. */
  method ReadRefs(text: seq<byte>, surface: bool) returns (r: Option<seq<ItemRefs>>)
    ensures r == RefsOf(text, surface)
  {
    hide Parsed, ValueOf, HeaderIn, RefsIn;
    var metadata := ParseMetadata(text);
    if metadata.None? { return None; }
    var items := FindMember(metadata.value.0, "Items");
    if items.None? || !items.value.List? || items.value.elements == [] { return None; }
    var elements := items.value.elements;
    var refs: seq<ItemRefs> := [];
    for k := 0 to |elements|
      invariant AllRefsIn(elements[..k], surface) == Some(refs)
    {
      assert elements[..k + 1][..k] == elements[..k];
      var one := ReadItemRefs(elements[k], surface);
      if one.None? {
        RefsStop(elements, surface, k);
        return None;
      }
      refs := refs + [one.value];
    }
    assert elements[..|elements|] == elements;
    r := Some(refs);
  }

  // ---------------------------------------------------------------- the writer

  /** One more member at the end of a list. */
  lemma {:induction false} PrintedMore(members: seq<Member>, m: Member, path: seq<nat>, k: nat, style: Style)
    requires members != []
    ensures PrintedMembers(members + [m], path, k, style)
         == PrintedMembers(members, path, k, style) + [COMMA] + PrintedMember(m, path + [k + |members|], style)
  {
    hide PrintedMember;
    var all := members + [m];
    if |members| == 1 {
      assert all[1..] == [m];
    } else {
      assert all[1..] == members[1..] + [m];
      PrintedMore(members[1..], m, path, k + 1, style);
    }
  }

  /** The printed members of an object, of which there may be none. */
  ghost function TextOf(members: seq<Member>, path: seq<nat>): seq<byte> {
    if members == [] then [] else PrintedMembers(members, path, 0, STYLE)
  }

  lemma NoText(path: seq<nat>)
    ensures TextOf([], path) == []
  {
  }

  lemma MoreText(members: seq<Member>, m: Member, path: seq<nat>)
    ensures TextOf(members, path) == [] <==> members == []
    ensures var member := PrintedMember(m, path + [|members|], STYLE);
      TextOf(members + [m], path) == if members == [] then member else TextOf(members, path) + [COMMA] + member
  {
    hide PrintedMember;
    if members == [] {
      assert members + [m] == [m];
      OneText(m, path);
    } else {
      PrintedMore(members, m, path, 0, STYLE);
      SomeText(members, path);
    }
  }

  lemma OneText(m: Member, path: seq<nat>)
    ensures TextOf([m], path) == PrintedMember(m, path + [0], STYLE)
  {
    hide PrintedMember;
    assert PrintedMember(m, path + [0], STYLE) + [] == PrintedMember(m, path + [0], STYLE);
  }

  lemma SomeText(members: seq<Member>, path: seq<nat>)
    requires members != []
    ensures TextOf(members, path) != []
  {
    MembersSplit(members, path, 0, STYLE);
    MemberSplit(members[0], path + [0], STYLE, []);
    hide PrintedMembers, PrintedMember;
  }

  /** A member of an inner object has no space around it. */
  lemma InnerMember(m: Member, path: seq<nat>)
    requires |path| > 1
    ensures PrintedMember(m, path, STYLE)
         == [QUOTE] + ((Escaped(m.key) + [QUOTE]) + ([COLON] + Printed(m.value, path, STYLE)))
  {
    hide Printed, Escaped;
    var value := Printed(m.value, path, STYLE);
    assert Padded(m.value, path, STYLE) == [] + (value + []) == value;
    assert [] + ([COLON] + value) == [COLON] + value;
  }

  /** A member of the whole object stands on its own line; the last one is followed by a new line. */
  lemma OuterMember(m: Member, k: nat)
    ensures PrintedMember(m, [k], STYLE)
         == [NEW_LINE, 0x20, 0x20]
            + ([QUOTE] + ((Escaped(m.key) + [QUOTE])
            + ([COLON] + (Printed(m.value, [k], STYLE) + if k == 3 then [NEW_LINE] else []))))
  {
    hide Printed, Escaped;
    var after: seq<byte> := if k == 3 then [NEW_LINE] else [];
    var value := Printed(m.value, [k], STYLE) + after;
    assert STYLE.pad(AfterValue, [k]) == after;
    assert Padded(m.value, [k], STYLE) == [] + value == value;
    assert [] + ([COLON] + value) == [COLON] + value;
  }

  /** Adds a member with a plain name to an inner object: comma, quoted name, colon, value. */
  method AddMember(text: seq<byte>, ghost members: seq<Member>, name: string, value: seq<byte>, ghost v: Json, ghost path: seq<nat>)
    returns (r: seq<byte>, ghost all: seq<Member>)
    requires path != [] && text == TextOf(members, path)
    requires Plain(name) && value == Printed(v, path + [|members|], STYLE)
    ensures all == members + [Named(name, v)] && r == TextOf(all, path)
  {
    AsciiEscaped(name);
    MoreText(members, Named(name, v), path);
    InnerMember(Named(name, v), path + [|members|]);
    hide Printed, PrintedMember, Ascii, Escaped, TextOf;
    var member := [QUOTE] + ((Ascii(name) + [QUOTE]) + ([COLON] + value));
    r := if text == [] then member else text + [COMMA] + member;
    all := members + [Named(name, v)];
  }

  method AddNumber(text: seq<byte>, ghost members: seq<Member>, name: string, n: nat, ghost path: seq<nat>)
    returns (r: seq<byte>, ghost all: seq<Member>)
    requires path != [] && text == TextOf(members, path) && Plain(name)
    ensures all == members + [Named(name, Number(Decimal(n)))] && r == TextOf(all, path)
  {
    r, all := AddMember(text, members, name, Decimal(n), Number(Decimal(n)), path);
  }

  method AddTruth(text: seq<byte>, ghost members: seq<Member>, name: string, truth: bool, ghost path: seq<nat>)
    returns (r: seq<byte>, ghost all: seq<Member>)
    requires path != [] && text == TextOf(members, path) && Plain(name)
    ensures all == members + [Named(name, Boolean(truth))] && r == TextOf(all, path)
  {
    r, all := AddMember(text, members, name, if truth then TRUE else FALSE, Boolean(truth), path);
  }

  method AddText(text: seq<byte>, ghost members: seq<Member>, name: string, value: seq<byte>, ghost path: seq<nat>)
    returns (r: seq<byte>, ghost all: seq<Member>)
    requires path != [] && text == TextOf(members, path) && Plain(name)
    ensures all == members + [Named(name, Text(value))] && r == TextOf(all, path)
  {
    var escaped := JsonEscape(value);
    r, all := AddMember(text, members, name, [QUOTE] + (escaped + [QUOTE]), Text(value), path);
  }

  /** The members of the header. */
  method WriteHeader(groups: nat, level: nat) returns (text: seq<byte>)
    ensures text == TextOf(HeaderMembers(groups, level), [0])
  {
    HeaderNames();
    ghost var all: seq<Member> := [];
    text := [];
    hide Plain, TextOf, Ascii, Decimal;
    NoText([0]);
    text, all := AddNumber(text, all, "Version", 1, [0]);
    text, all := AddText(text, all, "Type", Ascii("XgSplineData"), [0]);
    text, all := AddNumber(text, all, "GroupVersion", 1, [0]);
    text, all := AddNumber(text, all, "GroupCount", groups, [0]);
    text, all := AddTruth(text, all, "GroupBase64", false, [0]);
    text, all := AddTruth(text, all, "GroupDeflate", true, [0]);
    text, all := AddNumber(text, all, "GroupDeflateLevel", level, [0]);
    assert all == HeaderMembers(groups, level);
  }

  lemma HeaderNames()
    ensures Plain("Version") && Plain("Type") && Plain("GroupVersion") && Plain("GroupCount") && Plain("GroupBase64")
         && Plain("GroupDeflate") && Plain("GroupDeflateLevel")
  {
  }

  /** The members of the item: its name and identity, and one id for each array. */
  method WriteItem(name: seq<byte>, ids: seq<word64>) returns (text: seq<byte>)
    requires |ids| == |ARRAY_NAMES|
    ensures text == TextOf(ItemMembers(name, ids), [1, 0])
  {
    ItemNames();
    StartNames();
    ghost var all: seq<Member> := [];
    text := [];
    hide Plain, TextOf, Ascii, Decimal;
    NoText([1, 0]);
    text, all := AddText(text, all, "Name", name, [1, 0]);
    text, all := AddText(text, all, "Id", Ascii(ITEM_ID), [1, 0]);
    text, all := AddText(text, all, "Mode", Ascii("Density"), [1, 0]);
    assert all == ItemStart(name) + IdMembers(ids)[..0];
    for k := 0 to |ids|
      invariant all == ItemStart(name) + IdMembers(ids)[..k] && text == TextOf(all, [1, 0])
    {
      assert ITEM_NAMES[k + 3] == ARRAY_NAMES[k];
      text, all := AddNumber(text, all, ARRAY_NAMES[k], ids[k], [1, 0]);
      assert IdMembers(ids)[..k + 1] == IdMembers(ids)[..k] + [IdMembers(ids)[k]];
    }
    assert IdMembers(ids)[..|ids|] == IdMembers(ids);
  }

  lemma StartNames()
    ensures Plain("Name") && Plain("Id") && Plain("Mode")
  {
  }

  /** Adds a member of the whole object on its own line. */
  method AddLine(text: seq<byte>, ghost members: seq<Member>, name: string, value: seq<byte>, ghost v: Json, last: bool)
    returns (r: seq<byte>, ghost all: seq<Member>)
    requires text == TextOf(members, []) && last == (|members| == 3)
    requires Plain(name) && value == Printed(v, [|members|], STYLE)
    ensures all == members + [Named(name, v)] && r == TextOf(all, [])
  {
    AsciiEscaped(name);
    MoreText(members, Named(name, v), []);
    assert [] + [|members|] == [|members|];
    OuterMember(Named(name, v), |members|);
    hide Printed, PrintedMember, Ascii, Escaped, TextOf;
    var line := [NEW_LINE, 0x20, 0x20]
      + ([QUOTE] + ((Ascii(name) + [QUOTE]) + ([COLON] + (value + if last then [NEW_LINE] else []))));
    r := if text == [] then line else text + [COMMA] + line;
    all := members + [Named(name, v)];
  }

  lemma HeaderPrinted(members: seq<Member>)
    requires members != []
    ensures Printed(Object(members), [0], STYLE) == [OPEN_OBJECT] + (TextOf(members, [0]) + [CLOSE_OBJECT])
  {
    ObjectSplit(members, [0], STYLE);
  }

  lemma ItemsPrinted(item: seq<Member>)
    requires item != []
    ensures Printed(List([Object(item)]), [1], STYLE)
         == [OPEN_LIST] + ([OPEN_OBJECT] + (TextOf(item, [1, 0]) + [CLOSE_OBJECT]) + [CLOSE_LIST])
  {
    var v := Object(item);
    var inner := PrintedElements([v], [1], 0, STYLE);
    ListSplit([v], [1], STYLE);
    ElementsSplit([v], [1], 0, STYLE);
    assert [1] + [0] == [1, 0];
    ObjectSplit(item, [1, 0], STYLE);
    hide Printed, PrintedElements;
    assert Padded(v, [1, 0], STYLE) == [] + (Printed(v, [1, 0], STYLE) + []) == Printed(v, [1, 0], STYLE);
  }

  lemma EmptyPrinted()
    ensures Printed(List([]), [2], STYLE) == [OPEN_LIST, CLOSE_LIST] && Printed(Object([]), [3], STYLE) == [OPEN_OBJECT, CLOSE_OBJECT]
  {
    ListSplit([], [2], STYLE);
    ObjectSplit([], [3], STYLE);
  }

  lemma WholePrinted(members: seq<Member>)
    requires members != []
    ensures Padded(Object(members), [], STYLE) == [OPEN_OBJECT] + (TextOf(members, []) + [CLOSE_OBJECT])
  {
    ObjectSplit(members, [], STYLE);
    hide Printed;
    var whole := Printed(Object(members), [], STYLE);
    assert [] + (whole + []) == whole;
  }

  /** The whole metadata text. */
  method WriteMetadata(groups: nat, level: nat, name: seq<byte>, ids: seq<word64>) returns (text: seq<byte>)
    requires |ids| == |ARRAY_NAMES|
    ensures text == MetadataText(groups, level, name, ids)
  {
    RootNames();
    HeaderPrinted(HeaderMembers(groups, level));
    ItemsPrinted(ItemMembers(name, ids));
    EmptyPrinted();
    WholePrinted(MetadataTree(groups, level, name, ids).members);
    ghost var all: seq<Member> := [];
    var lines: seq<byte> := [];
    hide Plain, Ascii, HeaderMembers, ItemMembers, Printed, TextOf;
    NoText([]);
    var header := WriteHeader(groups, level);
    var item := WriteItem(name, ids);
    lines, all := AddLine(lines, all, "Header", [OPEN_OBJECT] + (header + [CLOSE_OBJECT]),
                          Object(HeaderMembers(groups, level)), false);
    lines, all := AddLine(lines, all, "Items", [OPEN_LIST] + ([OPEN_OBJECT] + (item + [CLOSE_OBJECT]) + [CLOSE_LIST]),
                          List([Object(ItemMembers(name, ids))]), false);
    lines, all := AddLine(lines, all, "RefMeshArray", [OPEN_LIST, CLOSE_LIST], List([]), false);
    lines, all := AddLine(lines, all, "CustomData", [OPEN_OBJECT, CLOSE_OBJECT], Object([]), true);
    assert all == MetadataTree(groups, level, name, ids).members;
    text := [OPEN_OBJECT] + (lines + [CLOSE_OBJECT]);
  }

  lemma RootNames()
    ensures Plain("Header") && Plain("Items") && Plain("RefMeshArray") && Plain("CustomData")
  {
  }
}
