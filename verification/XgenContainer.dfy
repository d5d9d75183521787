/** The XgSplineData byte container: its writer, its staged reader, and the round trips between them. */
module XgenContainer {
  import opened Wrappers
  import opened Bytes

  const FILE_MAGIC: word64 := 0x8099_cead
  const GROUP_MAGIC: word64 := 0x041e_065f
  const FILE_HEADER: nat := 16
  const GROUP_HEADER: nat := 48
  const ARRAY_HEADER: nat := 16

  /** What the metadata text says about the container. */
  datatype Header = Header(version: nat, groupVersion: nat, groupCount: word32, base64: bool, deflate: bool, level: nat)

  datatype Array = Array(tag: word64, bytes: seq<byte>)

  datatype Group = Group(index: nat, flags: word64, arrays: seq<Array>)

  datatype Document = Document(metadata: seq<byte>, version: nat, groupVersion: nat, base64: bool, deflate: bool,
                               level: nat, groups: seq<Group>)

  /**
   The code the container relies on: the metadata reader, and the compressor. `header`
   already rejects unsupported versions and base64 text.
   */
  datatype Codec = Codec(header: seq<byte> -> Option<Header>,
                         inflate: (seq<byte>, nat) -> Option<seq<byte>>,
                         deflate: (seq<byte>, nat) -> seq<byte>)

  /** Decompressing what the compressor wrote, with the right expected size, gives it back. */
  ghost predicate Lossless(codec: Codec) {
    forall raw: seq<byte>, level: nat :: codec.inflate(codec.deflate(raw, level), |raw|) == Some(raw)
  }

  /** A group as stored: its header fields and its payload. */
  datatype Stored = Stored(index: nat, arrayCount: word64, rawSize: word64, flags: word64, payload: seq<byte>)

  // ---------------------------------------------------------------- reading: specification

  /** The stored group at an offset, which must carry the given index, and the offset after it. */
  function StoredAt(bytes: seq<byte>, offset: nat, ordinal: nat): (r: Option<(Stored, nat)>)
    ensures r.Some? ==> offset + GROUP_HEADER <= r.value.1 <= |bytes|
    ensures r.Some? ==> r.value.0.index == ordinal && r.value.1 == offset + GROUP_HEADER + |r.value.0.payload|
    ensures r.Some? ==> r.value.0.arrayCount * ARRAY_HEADER + r.value.0.rawSize < U64
  {
    if offset + GROUP_HEADER > |bytes| then None
    else
      var magic, size := WordAt(bytes, offset).value, WordAt(bytes, offset + 8).value;
      var index, count := WordAt(bytes, offset + 16).value, WordAt(bytes, offset + 24).value;
      var raw, flags := WordAt(bytes, offset + 32).value, WordAt(bytes, offset + 40).value;
      if magic != GROUP_MAGIC || size < 32 || index != ordinal then None
      else if count > (U64 - 1 - raw) / ARRAY_HEADER then None
      else if size - 32 > |bytes| - offset - GROUP_HEADER then None
      else
        var end := offset + GROUP_HEADER + (size - 32);
        Some((Stored(ordinal, count, raw, flags, bytes[offset + GROUP_HEADER..end]), end))
  }

  /** The remaining stored groups, which must end exactly at the end of the bytes. */
  function StoredFrom(bytes: seq<byte>, offset: nat, count: nat, known: seq<Stored>): (r: Option<seq<Stored>>)
    requires offset <= |bytes|
    ensures r.Some? ==> known <= r.value && |r.value| == if |known| <= count then count else |known|
    decreases if count < |known| then 0 else count - |known|
  {
    if |known| >= count then (if offset == |bytes| then Some(known) else None)
    else
      var (g, end) :- StoredAt(bytes, offset, |known|);
      StoredFrom(bytes, end, count, known + [g])
  }

  /** The array records from an offset on, and the offset after them. */
  function RecordsFrom(raw: seq<byte>, offset: nat, left: nat, known: seq<Array>): (r: Option<(seq<Array>, nat)>)
    requires offset <= |raw|
    ensures r.Some? ==> offset <= r.value.1 <= |raw| && known <= r.value.0 && |r.value.0| == |known| + left
    decreases left
  {
    if left == 0 then Some((known, offset))
    else if |raw| - offset < ARRAY_HEADER then None
    else
      var tag, size := WordAt(raw, offset).value, WordAt(raw, offset + 8).value;
      var start := offset + ARRAY_HEADER;
      if size > |raw| - start then None
      else RecordsFrom(raw, start + size, left - 1, known + [Array(tag, raw[start..start + size])])
  }

  function DataSize(arrays: seq<Array>): nat {
    if arrays == [] then 0 else DataSize(arrays[..|arrays| - 1]) + |arrays[|arrays| - 1].bytes|
  }

  /** The expanded payload, of exactly the size its header announces. */
  function Expanded(codec: Codec, h: Header, g: Stored): (r: Option<seq<byte>>)
    ensures r.Some? ==> |r.value| == g.rawSize + g.arrayCount * ARRAY_HEADER
  {
    var size := g.rawSize + g.arrayCount * ARRAY_HEADER;
    if h.deflate then
      var raw :- codec.inflate(g.payload, size);
      if |raw| == size then Some(raw) else None
    else if |g.payload| == size then Some(g.payload)
    else None
  }

  function DecodedGroup(codec: Codec, h: Header, g: Stored): (r: Option<Group>)
    ensures r.Some? ==> r.value.index == g.index && |r.value.arrays| == g.arrayCount
  {
    var raw :- Expanded(codec, h, g);
    var (arrays, end) :- RecordsFrom(raw, 0, g.arrayCount, []);
    if end == |raw| && DataSize(arrays) == g.rawSize then Some(Group(g.index, g.flags, arrays)) else None
  }

  function DecodedGroups(codec: Codec, h: Header, gs: seq<Stored>): (r: Option<seq<Group>>)
    ensures r.Some? ==> |r.value| == |gs|
    ensures r.Some? <==> forall k | 0 <= k < |gs| :: DecodedGroup(codec, h, gs[k]).Some?
    ensures r.Some? ==> forall k | 0 <= k < |gs| :: DecodedGroup(codec, h, gs[k]) == Some(r.value[k])
  {
    if gs == [] then Some([])
    else
      var init :- DecodedGroups(codec, h, gs[..|gs| - 1]);
      var last :- DecodedGroup(codec, h, gs[|gs| - 1]);
      Some(init + [last])
  }

  /** The file header: the metadata text and what it says. */
  function FileHeader(codec: Codec, bytes: seq<byte>): (r: Option<(seq<byte>, Header)>)
    ensures r.Some? ==> FILE_HEADER + |r.value.0| <= |bytes|
  {
    if |bytes| < FILE_HEADER || WordAt(bytes, 0) != Some(FILE_MAGIC) then None
    else
      var size := WordAt(bytes, 8).value;
      if size > |bytes| - FILE_HEADER then None
      else
        var text := bytes[FILE_HEADER..FILE_HEADER + size];
        var h :- codec.header(text);
        Some((text, h))
  }

  /** The stored groups of a file whose header has been read. */
  function FileGroups(h: Header, bytes: seq<byte>, textSize: nat): (r: Option<seq<Stored>>)
    requires FILE_HEADER + textSize <= |bytes|
    ensures r.Some? ==> |r.value| == h.groupCount
  {
    var offset := FILE_HEADER + textSize;
    if h.groupCount > (|bytes| - offset) / GROUP_HEADER then None
    else StoredFrom(bytes, offset, h.groupCount, [])
  }

  function ParsedDocument(codec: Codec, bytes: seq<byte>): Option<Document> {
    var (text, h) :- FileHeader(codec, bytes);
    var stored :- FileGroups(h, bytes, |text|);
    var groups :- DecodedGroups(codec, h, stored);
    Some(Document(text, h.version, h.groupVersion, h.base64, h.deflate, h.level, groups))
  }

  // ---------------------------------------------------------------- writing: specification

  function Record(a: Array): seq<byte> {
    Digits(a.tag, 8) + Digits(|a.bytes|, 8) + a.bytes
  }

  function Records(arrays: seq<Array>): (r: seq<byte>)
    ensures |r| == DataSize(arrays) + ARRAY_HEADER * |arrays|
  {
    if arrays == [] then [] else Records(arrays[..|arrays| - 1]) + Record(arrays[|arrays| - 1])
  }

  /** What is stored for a group: its records, compressed when the document says so. */
  function Payload(codec: Codec, d: Document, g: Group): seq<byte> {
    if d.deflate then codec.deflate(Records(g.arrays), d.level) else Records(g.arrays)
  }

  function GroupBytes(codec: Codec, d: Document, g: Group): seq<byte> {
    var stored := Payload(codec, d, g);
    Digits(GROUP_MAGIC, 8) + Digits(32 + |stored|, 8) + Digits(g.index, 8) + Digits(|g.arrays|, 8)
    + Digits(DataSize(g.arrays), 8) + Digits(g.flags, 8) + stored
  }

  function GroupsBytes(codec: Codec, d: Document, gs: seq<Group>): seq<byte> {
    if gs == [] then [] else GroupsBytes(codec, d, gs[..|gs| - 1]) + GroupBytes(codec, d, gs[|gs| - 1])
  }

  /** The document's fields agree with its metadata, its groups are numbered in order, and every size fits 64 bits. */
  predicate Serializable(codec: Codec, d: Document) {
    var h := codec.header(d.metadata);
    && h.Some? && h.value == Header(d.version, d.groupVersion, h.value.groupCount, d.base64, d.deflate, d.level)
    && h.value.groupCount == |d.groups| && !d.base64
    && (forall k | 0 <= k < |d.groups| :: d.groups[k].index == k)
    && (forall k | 0 <= k < |d.groups| :: |Records(d.groups[k].arrays)| < U64)
    && FILE_HEADER + |d.metadata| + |GroupsBytes(codec, d, d.groups)| < U64
  }

  function Serialized(codec: Codec, d: Document): Option<seq<byte>> {
    if !Serializable(codec, d) then None
    else
      Some(Digits(FILE_MAGIC, 8) + Digits(|d.metadata|, 8) + d.metadata + GroupsBytes(codec, d, d.groups))
  }

  // ---------------------------------------------------------------- parsing what was written

  lemma WordBetween(bytes: seq<byte>, offset: nat, value: word64)
    requires offset + 8 <= |bytes| && bytes[offset..offset + 8] == Digits(value, 8)
    ensures WordAt(bytes, offset) == Some(value)
  {
    hide Digits, Little, Pow256;
    Pow256Eight();
    LittleDigits(value, 8);
  }

  /** The part of a concatenation that starts after `before`. */
  lemma PartAt(before: seq<byte>, part: seq<byte>, after: seq<byte>)
    ensures (before + part + after)[|before|..|before| + |part|] == part
  {
  }

  lemma RecordWords(before: seq<byte>, a: Array, after: seq<byte>)
    requires |a.bytes| < U64
    ensures var raw, n := before + Record(a) + after, |before|;
      && n + ARRAY_HEADER + |a.bytes| <= |raw|
      && WordAt(raw, n) == Some(a.tag) && WordAt(raw, n + 8) == Some(|a.bytes|)
      && raw[n + ARRAY_HEADER..n + ARRAY_HEADER + |a.bytes|] == a.bytes
  {
    hide Digits, Little, Pow256, WordAt;
    var raw, n := before + Record(a) + after, |before|;
    var d0, d1 := Digits(a.tag, 8), Digits(|a.bytes|, 8);
    PartAt(before, d0, d1 + a.bytes + after);
    assert raw == before + d0 + (d1 + a.bytes + after);
    PartAt(before + d0, d1, a.bytes + after);
    assert raw == before + d0 + d1 + (a.bytes + after);
    PartAt(before + d0 + d1, a.bytes, after);
    assert raw == before + d0 + d1 + a.bytes + after;
    WordBetween(raw, n, a.tag);
    WordBetween(raw, n + 8, |a.bytes|);
  }

  lemma {:induction false} RecordsTake(arrays: seq<Array>, k: nat)
    requires k <= |arrays|
    ensures Records(arrays[..k]) <= Records(arrays)
    ensures k < |arrays| ==> Records(arrays[..k + 1]) == Records(arrays[..k]) + Record(arrays[k])
  {
    if k == |arrays| {
      assert arrays[..k] == arrays;
    } else {
      RecordsTake(arrays[..|arrays| - 1], k);
      assert arrays[..|arrays| - 1][..k] == arrays[..k];
      assert arrays[..k + 1][..k] == arrays[..k];
    }
  }

  /** Reading one written record. */
  lemma RecordStep(before: seq<byte>, a: Array, after: seq<byte>, left: nat, known: seq<Array>)
    requires |a.bytes| < U64 && left > 0
    ensures var raw := before + Record(a) + after;
      RecordsFrom(raw, |before|, left, known) == RecordsFrom(raw, |before| + |Record(a)|, left - 1, known + [a])
  {
    RecordWords(before, a, after);
    hide Digits, Little, Pow256, WordAt;
  }

  /** Reading written records gives the arrays back. */
  lemma {:induction false} RecordsParse(arrays: seq<Array>, k: nat)
    requires |Records(arrays)| < U64 && k <= |arrays|
    ensures |Records(arrays[..k])| <= |Records(arrays)|
    ensures RecordsFrom(Records(arrays), |Records(arrays[..k])|, |arrays| - k, arrays[..k])
         == Some((arrays, |Records(arrays)|))
    decreases |arrays| - k
  {
    hide Record, Records, RecordsFrom, DataSize;
    var raw := Records(arrays);
    RecordsTake(arrays, k);
    if k == |arrays| {
      assert arrays[..k] == arrays;
      NoneLeft(raw, |raw|, arrays);
    } else {
      RecordsTake(arrays, k + 1);
      var before := Records(arrays[..k]);
      var after := raw[|before| + |Record(arrays[k])|..];
      assert raw == before + Record(arrays[k]) + after;
      RecordSmall(before, arrays[k], after, raw);
      RecordStep(before, arrays[k], after, |arrays| - k, arrays[..k]);
      assert arrays[..k + 1] == arrays[..k] + [arrays[k]];
      RecordsParse(arrays, k + 1);
    }
  }

  lemma RecordSmall(before: seq<byte>, a: Array, after: seq<byte>, raw: seq<byte>)
    requires raw == before + Record(a) + after && |raw| < U64
    ensures |a.bytes| < U64
  {
    hide Digits;
  }

  /** The stored form of a group of a document. */
  ghost function StoredForm(codec: Codec, d: Document, g: Group): Stored
    requires |g.arrays| < U64 && DataSize(g.arrays) < U64
  {
    Stored(g.index, |g.arrays|, DataSize(g.arrays), g.flags, Payload(codec, d, g))
  }

  /** Six consecutive words and what follows them. */
  lemma SixWords(before: seq<byte>, v: seq<word64>, rest: seq<byte>)
    requires |v| == 6
    ensures var bytes := before + (Digits(v[0], 8) + Digits(v[1], 8) + Digits(v[2], 8)
                                   + Digits(v[3], 8) + Digits(v[4], 8) + Digits(v[5], 8)) + rest;
      forall k | 0 <= k < 6 :: WordAt(bytes, |before| + 8 * k) == Some(v[k])
  {
    hide Digits, Little, Pow256, WordAt;
    var d := seq(6, k requires 0 <= k < 6 => Digits(v[k], 8));
    var bytes := before + (d[0] + d[1] + d[2] + d[3] + d[4] + d[5]) + rest;
    forall k | 0 <= k < 6 ensures WordAt(bytes, |before| + 8 * k) == Some(v[k]) {
      var n := |before| + 8 * k;
      assert bytes[n..n + 8] == d[k];
      WordBetween(bytes, n, v[k]);
    }
  }

  lemma GroupWords(before: seq<byte>, codec: Codec, d: Document, g: Group, after: seq<byte>)
    requires |Records(g.arrays)| < U64 && g.index < U64 && 32 + |Payload(codec, d, g)| < U64
    ensures StoredAt(before + GroupBytes(codec, d, g) + after, |before|, g.index)
         == Some((StoredForm(codec, d, g), |before| + |GroupBytes(codec, d, g)|))
  {
    hide Digits, Little, Pow256, WordAt, Records, DataSize, Payload;
    var bytes, n := before + GroupBytes(codec, d, g) + after, |before|;
    var stored := Payload(codec, d, g);
    var v: seq<word64> := [GROUP_MAGIC, 32 + |stored|, g.index, |g.arrays|, DataSize(g.arrays), g.flags];
    SixWords(before, v, stored + after);
    var head := Digits(v[0], 8) + Digits(v[1], 8) + Digits(v[2], 8) + Digits(v[3], 8) + Digits(v[4], 8) + Digits(v[5], 8);
    assert GroupBytes(codec, d, g) == head + stored;
    assert bytes == before + head + (stored + after);
    PartAt(before + head, stored, after);
    assert bytes == before + head + stored + after;
    assert WordAt(bytes, n + 8 * 0) == Some(v[0]) && WordAt(bytes, n + 8 * 1) == Some(v[1]);
    assert WordAt(bytes, n + 8 * 2) == Some(v[2]) && WordAt(bytes, n + 8 * 3) == Some(v[3]);
    assert WordAt(bytes, n + 8 * 4) == Some(v[4]) && WordAt(bytes, n + 8 * 5) == Some(v[5]);
  }

  lemma {:induction false} GroupsTake(codec: Codec, d: Document, gs: seq<Group>, k: nat)
    requires k <= |gs|
    ensures GroupsBytes(codec, d, gs[..k]) <= GroupsBytes(codec, d, gs)
    ensures k < |gs| ==>
      GroupsBytes(codec, d, gs[..k + 1]) == GroupsBytes(codec, d, gs[..k]) + GroupBytes(codec, d, gs[k])
  {
    hide GroupBytes;
    if k == |gs| {
      assert gs[..k] == gs;
    } else {
      GroupsTake(codec, d, gs[..|gs| - 1], k);
      assert gs[..|gs| - 1][..k] == gs[..k];
      assert gs[..k + 1][..k] == gs[..k];
    }
  }

  lemma {:induction false} GroupsSize(codec: Codec, d: Document, gs: seq<Group>)
    ensures |GroupsBytes(codec, d, gs)| >= GROUP_HEADER * |gs|
  {
    hide Digits, Payload;
    if gs != [] { GroupsSize(codec, d, gs[..|gs| - 1]); }
  }

  ghost function StoredForms(codec: Codec, d: Document): (r: seq<Stored>)
    requires Serializable(codec, d)
    ensures |r| == |d.groups|
  {
    seq(|d.groups|, k requires 0 <= k < |d.groups| =>
      GroupFits(codec, d, k);
      StoredForm(codec, d, d.groups[k]))
  }

  lemma GroupFits(codec: Codec, d: Document, k: nat)
    requires Serializable(codec, d) && k < |d.groups|
    ensures var g := d.groups[k];
      && |g.arrays| < U64 && DataSize(g.arrays) < U64 && g.index == k < U64
      && 32 + |Payload(codec, d, g)| < U64
  {
    hide Digits, Records, DataSize, Payload;
    var g := d.groups[k];
    assert |Records(g.arrays)| < U64;
    GroupsTake(codec, d, d.groups, k);
    GroupsTake(codec, d, d.groups, k + 1);
    assert |GroupBytes(codec, d, g)| == 48 + |Payload(codec, d, g)|;
  }

  lemma GroupStep(codec: Codec, d: Document, before: seq<byte>, g: Group, after: seq<byte>, count: nat, known: seq<Stored>)
    requires |Records(g.arrays)| < U64 && g.index == |known| < U64 && 32 + |Payload(codec, d, g)| < U64
    requires |known| < count
    ensures var bytes, next := before + GroupBytes(codec, d, g) + after, |before| + |GroupBytes(codec, d, g)|;
      StoredFrom(bytes, |before|, count, known) == StoredFrom(bytes, next, count, known + [StoredForm(codec, d, g)])
  {
    hide StoredAt, GroupBytes, Payload, Records;
    GroupWords(before, codec, d, g, after);
  }

  lemma {:induction false} GroupsParse(codec: Codec, d: Document, before: seq<byte>, k: nat)
    requires Serializable(codec, d) && k <= |d.groups|
    ensures var bytes := before + GroupsBytes(codec, d, d.groups);
      var offset := |before| + |GroupsBytes(codec, d, d.groups[..k])|;
      && offset <= |bytes|
      && StoredFrom(bytes, offset, |d.groups|, StoredForms(codec, d)[..k]) == Some(StoredForms(codec, d))
    decreases |d.groups| - k
  {
    hide GroupBytes, GroupsBytes, StoredAt, Payload, Records, DataSize;
    var gs, forms := d.groups, StoredForms(codec, d);
    var all := GroupsBytes(codec, d, gs);
    var bytes := before + all;
    GroupsTake(codec, d, gs, k);
    if k == |gs| {
      assert gs[..k] == gs && forms[..k] == forms;
    } else {
      GroupsTake(codec, d, gs, k + 1);
      GroupFits(codec, d, k);
      hide StoredFrom;
      var head := GroupsBytes(codec, d, gs[..k]);
      var after := all[|head| + |GroupBytes(codec, d, gs[k])|..];
      assert bytes == (before + head) + GroupBytes(codec, d, gs[k]) + after;
      GroupStep(codec, d, before + head, gs[k], after, |gs|, forms[..k]);
      assert forms[..k + 1] == forms[..k] + [forms[k]];
      GroupsParse(codec, d, before, k + 1);
    }
  }

  /** The stored payload of a written group expands to its records. */
  lemma FormExpands(codec: Codec, d: Document, h: Header, g: Group)
    requires |Records(g.arrays)| < U64 && Lossless(codec) && h.deflate == d.deflate
    ensures Expanded(codec, h, StoredForm(codec, d, g)) == Some(Records(g.arrays))
  {
    var raw := Records(g.arrays);
    hide Records, DataSize;
    assert codec.inflate(codec.deflate(raw, d.level), |raw|) == Some(raw);
  }

  lemma FormDecodes(codec: Codec, h: Header, g: Group, form: Stored)
    requires |Records(g.arrays)| < U64 && Expanded(codec, h, form) == Some(Records(g.arrays))
    requires form.index == g.index && form.arrayCount == |g.arrays|
    requires form.rawSize == DataSize(g.arrays) && form.flags == g.flags
    ensures DecodedGroup(codec, h, form) == Some(g)
  {
    NoRecords();
    hide Records, DataSize, RecordsFrom, Expanded;
    RecordsParse(g.arrays, 0);
    assert g.arrays[..0] == [];
  }

  lemma GroupDecodes(codec: Codec, d: Document, h: Header, k: nat)
    requires Serializable(codec, d) && Lossless(codec) && k < |d.groups| && h.deflate == d.deflate
    ensures DecodedGroup(codec, h, StoredForms(codec, d)[k]) == Some(d.groups[k])
  {
    var g := d.groups[k];
    GroupFits(codec, d, k);
    assert StoredForms(codec, d)[k] == StoredForm(codec, d, g);
    hide Records, DataSize, GroupsBytes, StoredForms, Expanded, DecodedGroup;
    FormExpands(codec, d, h, g);
    FormDecodes(codec, h, g, StoredForm(codec, d, g));
  }

  lemma NoGroups(codec: Codec, d: Document)
    ensures GroupsBytes(codec, d, []) == []
  {
  }

  lemma NoRecords()
    ensures Records([]) == []
  {
  }

  /** Parsing the serialization of a document gives the document back. */
  lemma ParseSerialized(codec: Codec, d: Document)
    requires Lossless(codec) && Serializable(codec, d)
    ensures ParsedDocument(codec, Serialized(codec, d).value) == Some(d)
  {
    hide Digits, Little, Pow256, WordAt, GroupsBytes, StoredFrom, DecodedGroup;
    var bytes := Serialized(codec, d).value;
    var groups := GroupsBytes(codec, d, d.groups);
    var h := codec.header(d.metadata).value;
    assert bytes[0..8] == Digits(FILE_MAGIC, 8);
    assert bytes[8..16] == Digits(|d.metadata|, 8);
    assert bytes[16..16 + |d.metadata|] == d.metadata;
    WordBetween(bytes, 0, FILE_MAGIC);
    WordBetween(bytes, 8, |d.metadata|);
    assert FileHeader(codec, bytes) == Some((d.metadata, h));
    var before := bytes[..16 + |d.metadata|];
    assert bytes == before + groups;
    GroupsSize(codec, d, d.groups);
    NoGroups(codec, d);
    GroupsParse(codec, d, before, 0);
    assert d.groups[..0] == [] && StoredForms(codec, d)[..0] == [];
    var forms := StoredForms(codec, d);
    assert FileGroups(h, bytes, |d.metadata|) == Some(forms);
    forall k | 0 <= k < |forms| ensures DecodedGroup(codec, h, forms[k]) == Some(d.groups[k]) {
      GroupDecodes(codec, d, h, k);
    }
    assert DecodedGroups(codec, h, forms).value == d.groups;
  }

  // ---------------------------------------------------------------- writing what was parsed

  lemma Join(s: seq<byte>, i: nat, j: nat, k: nat)
    requires i <= j <= k <= |s|
    ensures s[i..j] + s[j..k] == s[i..k]
  {
  }

  lemma RecordRewritten(raw: seq<byte>, offset: nat)
    requires offset + ARRAY_HEADER <= |raw|
    requires offset + ARRAY_HEADER + WordAt(raw, offset + 8).value <= |raw|
    ensures var start := offset + ARRAY_HEADER;
      var end := start + WordAt(raw, offset + 8).value;
      Record(Array(WordAt(raw, offset).value, raw[start..end])) == raw[offset..end]
  {
    BytesRoundTrip(raw, offset);
    BytesRoundTrip(raw, offset + 8);
    hide Digits, Little, Pow256, WordAt;
    var start := offset + ARRAY_HEADER;
    var end := start + WordAt(raw, offset + 8).value;
    Join(raw, offset, offset + 8, start);
    Join(raw, offset, start, end);
  }

  lemma {:induction false} RecordsRewritten(raw: seq<byte>, offset: nat, left: nat, known: seq<Array>)
    requires offset <= |raw| < U64 && Records(known) == raw[..offset] && RecordsFrom(raw, offset, left, known).Some?
    ensures var (arrays, end) := RecordsFrom(raw, offset, left, known).value;
      Records(arrays) == raw[..end]
    decreases left
  {
    hide Digits, Little, Pow256, WordAt, Record;
    if left > 0 {
      var tag, size := WordAt(raw, offset).value, WordAt(raw, offset + 8).value;
      var start := offset + ARRAY_HEADER;
      var a := Array(tag, raw[start..start + size]);
      RecordRewritten(raw, offset);
      MoreRecords(known, a);
      Join(raw, 0, offset, start + size);
      hide Records;
      RecordsRewritten(raw, start + size, left - 1, known + [a]);
    }
  }

  lemma MoreRecords(known: seq<Array>, a: Array)
    ensures Records(known + [a]) == Records(known) + Record(a)
  {
    hide Record;
    assert (known + [a])[..|known|] == known;
  }

  lemma SixJoin(s: seq<byte>, o: nat, end: nat)
    requires o + 48 <= end <= |s|
    ensures s[o..o + 8] + s[o + 8..o + 16] + s[o + 16..o + 24] + s[o + 24..o + 32] + s[o + 32..o + 40]
            + s[o + 40..o + 48] + s[o + 48..end] == s[o..end]
  {
    Join(s, o, o + 8, o + 16);
    Join(s, o, o + 16, o + 24);
    Join(s, o, o + 24, o + 32);
    Join(s, o, o + 32, o + 40);
    Join(s, o, o + 40, o + 48);
    Join(s, o, o + 48, end);
  }

  lemma WordDigits(bytes: seq<byte>, offset: nat, value: word64)
    requires offset + 8 <= |bytes| && WordAt(bytes, offset) == Some(value)
    ensures Digits(value, 8) == bytes[offset..offset + 8]
  {
    hide Digits, Little, Pow256;
    BytesRoundTrip(bytes, offset);
  }

  /** The six header words of a stored group that was read, written back. */
  lemma StoredRewritten(bytes: seq<byte>, offset: nat, ordinal: nat)
    requires StoredAt(bytes, offset, ordinal).Some?
    ensures var (g, end) := StoredAt(bytes, offset, ordinal).value;
      32 + |g.payload| < U64 && g.index < U64 &&
      Digits(GROUP_MAGIC, 8) + Digits(32 + |g.payload|, 8) + Digits(g.index, 8) + Digits(g.arrayCount, 8)
      + Digits(g.rawSize, 8) + Digits(g.flags, 8) + g.payload == bytes[offset..end]
  {
    hide Digits, Little, Pow256, WordAt;
    var (g, end) := StoredAt(bytes, offset, ordinal).value;
    WordDigits(bytes, offset, GROUP_MAGIC);
    WordDigits(bytes, offset + 8, 32 + |g.payload|);
    WordDigits(bytes, offset + 16, g.index);
    WordDigits(bytes, offset + 24, g.arrayCount);
    WordDigits(bytes, offset + 32, g.rawSize);
    WordDigits(bytes, offset + 40, g.flags);
    assert g.payload == bytes[offset + 48..end];
    hide StoredAt;
    SixJoin(bytes, offset, end);
  }

  /** A decoded group of an uncompressed document has exactly the stored payload as its records. */
  lemma DecodedRewritten(codec: Codec, h: Header, g: Stored)
    requires !h.deflate && |g.payload| < U64 && DecodedGroup(codec, h, g).Some?
    ensures var x := DecodedGroup(codec, h, g).value;
      Records(x.arrays) == g.payload && |x.arrays| == g.arrayCount && DataSize(x.arrays) == g.rawSize && x.flags == g.flags
  {
    NoRecords();
    hide RecordsFrom, Records, DataSize;
    assert g.payload[..0] == [];
    RecordsRewritten(g.payload, 0, g.arrayCount, []);
    assert g.payload[..|g.payload|] == g.payload;
  }

  /** Writing the decoded groups back reproduces the bytes they were read from. */
  lemma {:induction false} GroupsRewritten(codec: Codec, h: Header, d: Document, bytes: seq<byte>, start: nat, offset: nat,
                                           count: nat, known: seq<Stored>, groups: seq<Group>)
    requires !h.deflate && !d.deflate && start <= offset <= |bytes| < U64 && |known| <= count
    requires StoredFrom(bytes, offset, count, known).Some?
    requires |groups| == count && GroupsBytes(codec, d, groups[..|known|]) == bytes[start..offset]
    requires var stored := StoredFrom(bytes, offset, count, known).value;
      forall k | 0 <= k < count :: DecodedGroup(codec, h, stored[k]) == Some(groups[k])
    ensures GroupsBytes(codec, d, groups) == bytes[start..]
    decreases count - |known|
  {
    hide StoredAt, DecodedGroup, GroupBytes, GroupsBytes;
    var n := |known|;
    if n < count {
      var stored := StoredFrom(bytes, offset, count, known).value;
      var (g, end) := StoredAt(bytes, offset, n).value;
      assert stored[n] == (known + [g])[n] == g;
      GroupRewritten(codec, h, d, bytes, offset, n, groups[n]);
      MoreGroups(codec, d, groups, n);
      Join(bytes, start, offset, end);
      GroupsRewritten(codec, h, d, bytes, start, end, count, known + [g], groups);
    } else {
      assert groups[..n] == groups && bytes[start..offset] == bytes[start..];
    }
  }

  lemma MoreGroups(codec: Codec, d: Document, gs: seq<Group>, k: nat)
    requires k < |gs|
    ensures GroupsBytes(codec, d, gs[..k + 1]) == GroupsBytes(codec, d, gs[..k]) + GroupBytes(codec, d, gs[k])
  {
    GroupsTake(codec, d, gs, k);
  }

  lemma GroupRewritten(codec: Codec, h: Header, d: Document, bytes: seq<byte>, offset: nat, ordinal: nat, x: Group)
    requires !h.deflate && !d.deflate && |bytes| < U64 && StoredAt(bytes, offset, ordinal).Some?
    requires DecodedGroup(codec, h, StoredAt(bytes, offset, ordinal).value.0) == Some(x)
    ensures GroupBytes(codec, d, x) == bytes[offset..StoredAt(bytes, offset, ordinal).value.1]
  {
    var (g, end) := StoredAt(bytes, offset, ordinal).value;
    StoredRewritten(bytes, offset, ordinal);
    hide StoredAt, Records, DataSize, Digits, Expanded;
    DecodedRewritten(codec, h, g);
  }

  lemma HeaderRewritten(codec: Codec, bytes: seq<byte>)
    requires FileHeader(codec, bytes).Some?
    ensures var text := FileHeader(codec, bytes).value.0;
      |text| < U64 && Digits(FILE_MAGIC, 8) + Digits(|text|, 8) + text == bytes[..FILE_HEADER + |text|]
  {
    hide Digits, Little, Pow256, WordAt;
    var text := FileHeader(codec, bytes).value.0;
    WordDigits(bytes, 0, FILE_MAGIC);
    WordDigits(bytes, 8, |text|);
    Join(bytes, 0, 8, FILE_HEADER);
    Join(bytes, 0, FILE_HEADER, FILE_HEADER + |text|);
  }

  lemma ParsedGroups(codec: Codec, bytes: seq<byte>)
    requires |bytes| < U64 && ParsedDocument(codec, bytes).Some? && !ParsedDocument(codec, bytes).value.deflate
    ensures var d := ParsedDocument(codec, bytes).value;
      && (forall k | 0 <= k < |d.groups| :: d.groups[k].index == k && |Records(d.groups[k].arrays)| < U64)
      && FILE_HEADER + |d.metadata| <= |bytes| && GroupsBytes(codec, d, d.groups) == bytes[FILE_HEADER + |d.metadata|..]
  {
    var d := ParsedDocument(codec, bytes).value;
    var (text, h) := FileHeader(codec, bytes).value;
    var stored := FileGroups(h, bytes, |text|).value;
    var start := FILE_HEADER + |text|;
    NoGroups(codec, d);
    assert stored == StoredFrom(bytes, start, h.groupCount, []).value;
    hide FileHeader, FileGroups, StoredFrom, DecodedGroup, GroupsBytes, Records, GroupBytes, ParsedDocument;
    assert d.groups[..0] == [] && bytes[start..start] == [];
    GroupsRewritten(codec, h, d, bytes, start, start, h.groupCount, [], d.groups);
    forall k | 0 <= k < |d.groups| ensures d.groups[k].index == k && |Records(d.groups[k].arrays)| < U64 {
      assert DecodedGroup(codec, h, stored[k]) == Some(d.groups[k]);
      StoredBounds(bytes, start, h.groupCount, [], k);
      DecodedRewritten(codec, h, stored[k]);
    }
  }

  /** For uncompressed files, serializing the parsed document reproduces every byte. */
  lemma SerializeParsed(codec: Codec, bytes: seq<byte>)
    requires |bytes| < U64 && ParsedDocument(codec, bytes).Some? && !ParsedDocument(codec, bytes).value.deflate
    requires !ParsedDocument(codec, bytes).value.base64
    ensures Serialized(codec, ParsedDocument(codec, bytes).value) == Some(bytes)
  {
    hide *;
    var d := ParsedDocument(codec, bytes).value;
    ParsedGroups(codec, bytes);
    ParsedFields(codec, bytes);
    HeaderRewritten(codec, bytes);
    Rewritten(codec, d, bytes);
  }

  /** The fields of a parsed document are those of its metadata. */
  lemma ParsedFields(codec: Codec, bytes: seq<byte>)
    requires ParsedDocument(codec, bytes).Some?
    ensures var d := ParsedDocument(codec, bytes).value;
      && FileHeader(codec, bytes).Some? && FileHeader(codec, bytes).value.0 == d.metadata && |d.groups| < U32
      && codec.header(d.metadata) == Some(Header(d.version, d.groupVersion, |d.groups|, d.base64, d.deflate, d.level))
  {
    hide WordAt, StoredFrom, DecodedGroup;
  }

  lemma Rewritten(codec: Codec, d: Document, bytes: seq<byte>)
    requires |d.groups| < U32 && !d.base64 && |bytes| < U64 && |d.metadata| < U64 && FILE_HEADER + |d.metadata| <= |bytes|
    requires codec.header(d.metadata) == Some(Header(d.version, d.groupVersion, |d.groups|, d.base64, d.deflate, d.level))
    requires forall k | 0 <= k < |d.groups| :: d.groups[k].index == k && |Records(d.groups[k].arrays)| < U64
    requires Digits(FILE_MAGIC, 8) + Digits(|d.metadata|, 8) + d.metadata == bytes[..FILE_HEADER + |d.metadata|]
    requires GroupsBytes(codec, d, d.groups) == bytes[FILE_HEADER + |d.metadata|..]
    ensures Serialized(codec, d) == Some(bytes)
  {
    hide Digits, GroupsBytes, Records;
    var start := FILE_HEADER + |d.metadata|;
    assert bytes == bytes[..start] + bytes[start..];
    assert Serializable(codec, d);
  }

  lemma {:induction false} StoredBounds(bytes: seq<byte>, offset: nat, count: nat, known: seq<Stored>, k: nat)
    requires offset <= |bytes| && |known| <= k < count && StoredFrom(bytes, offset, count, known).Some?
    ensures var g := StoredFrom(bytes, offset, count, known).value[k]; g.index == k && |g.payload| <= |bytes|
    decreases count - |known|
  {
    hide StoredAt;
    var (g, end) := StoredAt(bytes, offset, |known|).value;
    if k > |known| {
      StoredBounds(bytes, end, count, known + [g], k);
    } else {
      assert StoredFrom(bytes, offset, count, known).value[k] == (known + [g])[k];
    }
  }

  // ---------------------------------------------------------------- the reader and the writer

  method ReadStored(bytes: seq<byte>, offset: nat, ordinal: nat) returns (r: Option<(Stored, nat)>)
    ensures r == StoredAt(bytes, offset, ordinal)
  {
    hide Digits, Little, Pow256, WordAt;
    if offset > |bytes| || |bytes| - offset < GROUP_HEADER { return None; }
    var magic := ReadWord(bytes, offset);
    if magic.value != GROUP_MAGIC { return None; }
    var size := ReadWord(bytes, offset + 8);
    if size.value < 32 { return None; }
    var index := ReadWord(bytes, offset + 16);
    var count := ReadWord(bytes, offset + 24);
    var raw := ReadWord(bytes, offset + 32);
    var flags := ReadWord(bytes, offset + 40);
    if index.value != ordinal { return None; }
    if count.value > (U64 - 1 - raw.value) / ARRAY_HEADER { return None; }
    if size.value - 32 > |bytes| - offset - GROUP_HEADER { return None; }
    var start := offset + GROUP_HEADER;
    var end := start + (size.value - 32);
    r := Some((Stored(ordinal, count.value, raw.value, flags.value, bytes[start..end]), end));
  }

  method ReadGroups(h: Header, bytes: seq<byte>, textSize: nat) returns (r: Option<seq<Stored>>)
    requires FILE_HEADER + textSize <= |bytes|
    ensures r == FileGroups(h, bytes, textSize)
  {
    hide StoredAt;
    var offset: nat := FILE_HEADER + textSize;
    if h.groupCount > (|bytes| - offset) / GROUP_HEADER { return None; }
    var stored: seq<Stored> := [];
    for ordinal := 0 to h.groupCount
      invariant offset <= |bytes| && |stored| == ordinal
      invariant StoredFrom(bytes, offset, h.groupCount, stored) == FileGroups(h, bytes, textSize)
    {
      var g := ReadStored(bytes, offset, ordinal);
      if g.None? { return None; }
      stored := stored + [g.value.0];
      offset := g.value.1;
    }
    if offset != |bytes| { return None; }
    r := Some(stored);
  }

  /** One record of an expanded group, and the offset after it. */
  method ReadRecord(raw: seq<byte>, offset: nat, ghost left: nat, ghost known: seq<Array>) returns (r: Option<(Array, nat)>)
    requires offset <= |raw| && left > 0
    ensures r.None? ==> RecordsFrom(raw, offset, left, known).None?
    ensures r.Some? ==> offset < r.value.1 <= |raw|
    ensures r.Some? ==> RecordsFrom(raw, offset, left, known) == RecordsFrom(raw, r.value.1, left - 1, known + [r.value.0])
  {
    hide Digits, Little, Pow256, WordAt;
    if |raw| - offset < ARRAY_HEADER { return None; }
    var tag := ReadWord(raw, offset);
    var size := ReadWord(raw, offset + 8);
    var start: nat := offset + ARRAY_HEADER;
    if size.value > |raw| - start { return None; }
    r := Some((Array(tag.value, raw[start..start + size.value]), start + size.value));
  }

  method DecodeGroup(codec: Codec, h: Header, g: Stored) returns (r: Option<Group>)
    ensures r == DecodedGroup(codec, h, g)
  {
    hide RecordsFrom;
    var raw :- Expanded(codec, h, g);
    hide Expanded;
    var arrays: seq<Array> := [];
    var offset: nat, dataSum: nat, left: nat := 0, 0, g.arrayCount;
    while left > 0
      invariant offset <= |raw| && dataSum == DataSize(arrays)
      invariant RecordsFrom(raw, offset, left, arrays) == RecordsFrom(raw, 0, g.arrayCount, [])
    {
      var record := ReadRecord(raw, offset, left, arrays);
      if record.None? { return None; }
      var a := record.value.0;
      assert (arrays + [a])[..|arrays|] == arrays;
      offset := record.value.1;
      dataSum := dataSum + |a.bytes|;
      arrays := arrays + [a];
      left := left - 1;
    }
    NoneLeft(raw, offset, arrays);
    if offset != |raw| || dataSum != g.rawSize { return None; }
    r := Some(Group(g.index, g.flags, arrays));
  }

  lemma NoneLeft(raw: seq<byte>, offset: nat, known: seq<Array>)
    requires offset <= |raw|
    ensures RecordsFrom(raw, offset, 0, known) == Some((known, offset))
  {
  }

  method ReadFileHeader(codec: Codec, bytes: seq<byte>) returns (r: Option<(seq<byte>, Header)>)
    ensures r == FileHeader(codec, bytes)
  {
    hide Digits, Little, Pow256, WordAt;
    if |bytes| < FILE_HEADER { return None; }
    var magic := ReadWord(bytes, 0);
    if magic.value != FILE_MAGIC { return None; }
    var size := ReadWord(bytes, 8);
    if size.value > |bytes| - FILE_HEADER { return None; }
    var text := bytes[FILE_HEADER..FILE_HEADER + size.value];
    var h :- codec.header(text);
    r := Some((text, h));
  }

  /** The staged reader: headers first, then one decoded group after the other. */
  method ParseDocument(codec: Codec, bytes: seq<byte>) returns (r: Option<Document>)
    ensures r == ParsedDocument(codec, bytes)
  {
    hide FileHeader, FileGroups, DecodedGroup;
    var header := ReadFileHeader(codec, bytes);
    if header.None? { return None; }
    var (text, h) := header.value;
    var stored := ReadGroups(h, bytes, |text|);
    if stored.None? { return None; }
    var groups: seq<Group> := [];
    var gs := stored.value;
    for k := 0 to |gs|
      invariant DecodedGroups(codec, h, gs[..k]) == Some(groups)
    {
      assert gs[..k + 1][..k] == gs[..k];
      var g := DecodeGroup(codec, h, gs[k]);
      if g.None? {
        assert DecodedGroups(codec, h, gs).None?;
        return None;
      }
      groups := groups + [g.value];
    }
    assert gs[..|gs|] == gs;
    r := Some(Document(text, h.version, h.groupVersion, h.base64, h.deflate, h.level, groups));
  }

  method WriteRecord(raw: seq<byte>, a: Array) returns (r: seq<byte>)
    requires |a.bytes| < U64
    ensures r == raw + Record(a)
  {
    hide Digits;
    r := AppendWord(raw, a.tag);
    r := AppendWord(r, |a.bytes|);
    r := r + a.bytes;
  }

  /** One group's array records and the size of their data, unless they outgrow 64 bits. */
  method WriteRecords(arrays: seq<Array>) returns (ok: bool, raw: seq<byte>, rawSize: nat)
    ensures ok <==> |Records(arrays)| < U64
    ensures ok ==> raw == Records(arrays) && rawSize == DataSize(arrays)
  {
    NoRecords();
    hide Record, Records;
    raw, rawSize := [], 0;
    for k := 0 to |arrays|
      invariant raw == Records(arrays[..k]) && rawSize == DataSize(arrays[..k]) && |raw| < U64
    {
      RecordsTake(arrays, k);
      RecordsTake(arrays, k + 1);
      assert arrays[..k + 1][..k] == arrays[..k];
      RecordSize(arrays[k]);
      if |raw| + ARRAY_HEADER + |arrays[k].bytes| >= U64 { return false, [], 0; }
      raw := WriteRecord(raw, arrays[k]);
      rawSize := rawSize + |arrays[k].bytes|;
    }
    assert arrays[..|arrays|] == arrays;
    ok := true;
  }

  lemma RecordSize(a: Array)
    ensures |Record(a)| == ARRAY_HEADER + |a.bytes|
  {
    hide Digits;
  }

  lemma GroupSize(codec: Codec, d: Document, g: Group)
    ensures |GroupBytes(codec, d, g)| == 48 + |Payload(codec, d, g)|
    ensures |g.arrays| <= |Records(g.arrays)| && DataSize(g.arrays) <= |Records(g.arrays)|
  {
    hide Digits, Payload, DataSize;
  }

  method WriteGroup(codec: Codec, d: Document, g: Group, output: seq<byte>) returns (ok: bool, r: seq<byte>)
    requires g.index < U64
    ensures ok <==> |Records(g.arrays)| < U64 && |output| + |GroupBytes(codec, d, g)| < U64
    ensures ok ==> r == output + GroupBytes(codec, d, g)
  {
    GroupSize(codec, d, g);
    hide Digits, Records, DataSize;
    var fits, raw, rawSize := WriteRecords(g.arrays);
    if !fits { return false, []; }
    var stored := if d.deflate then codec.deflate(raw, d.level) else raw;
    assert stored == Payload(codec, d, g);
    hide Payload;
    if 32 + |stored| >= U64 { return false, []; }
    var head := AppendWord([], GROUP_MAGIC);
    head := AppendWord(head, 32 + |stored|);
    head := AppendWord(head, g.index);
    head := AppendWord(head, |g.arrays|);
    head := AppendWord(head, rawSize);
    head := AppendWord(head, g.flags);
    assert head + stored == GroupBytes(codec, d, g);
    r := output + head + stored;
    assert r == output + (head + stored);
    ok := |r| < U64;
  }

  /** The groups are numbered in order and, behind some bytes, small enough. */
  predicate GroupsFit(codec: Codec, d: Document, before: nat) {
    && (forall k | 0 <= k < |d.groups| :: d.groups[k].index == k)
    && (forall k | 0 <= k < |d.groups| :: |Records(d.groups[k].arrays)| < U64)
    && before + |GroupsBytes(codec, d, d.groups)| < U64
  }

  /** Writes the groups one by one, checking each one's index and sizes on the way. */
  method WriteGroups(codec: Codec, d: Document, output: seq<byte>) returns (ok: bool, r: seq<byte>)
    requires |output| < U64 && |d.groups| < U64
    ensures ok <==> GroupsFit(codec, d, |output|)
    ensures ok ==> r == output + GroupsBytes(codec, d, d.groups)
  {
    NoGroups(codec, d);
    hide GroupBytes, Records, Payload, DataSize, GroupsBytes;
    r := output;
    var seen := seq(|d.groups|, _ => false);
    for k := 0 to |d.groups|
      invariant |seen| == |d.groups| && forall i | k <= i < |seen| :: !seen[i]
      invariant forall i | 0 <= i < k :: d.groups[i].index == i && |Records(d.groups[i].arrays)| < U64
      invariant r == output + GroupsBytes(codec, d, d.groups[..k]) && |r| < U64
    {
      var g := d.groups[k];
      if g.index != k || g.index >= |d.groups| || seen[g.index] { return false, []; }
      seen := seen[g.index := true];
      MoreGroups(codec, d, d.groups, k);
      GroupsTake(codec, d, d.groups, k + 1);
      var fits;
      fits, r := WriteGroup(codec, d, g, r);
      if !fits { return false, []; }
      assert r == output + (GroupsBytes(codec, d, d.groups[..k]) + GroupBytes(codec, d, g));
    }
    assert d.groups[..|d.groups|] == d.groups;
    ok := true;
  }

  // ---------------------------------------------------------------- the layout, byte by byte

  /** An array between two places: its type, its size, its bytes. */
  ghost predicate ArrayLaid(raw: seq<byte>, start: nat, end: nat, a: Array) {
    && start + 16 <= end <= |raw| && WordAt(raw, start) == Some(a.tag) && WordAt(raw, start + 8) == Some(|a.bytes|)
    && raw[start + 16..end] == a.bytes
  }

  ghost predicate ArraysLaidAt(raw: seq<byte>, arrays: seq<Array>, at: seq<nat>) {
    && |at| == |arrays| + 1 && at[0] == 0 && at[|arrays|] == |raw|
    && forall k :: 0 <= k < |arrays| ==> ArrayLaid(raw, at[k], at[k + 1], arrays[k])
  }

  /** Arrays one after the other, from the first byte to the last. */
  ghost predicate ArraysLaid(raw: seq<byte>, arrays: seq<Array>) {
    exists at :: ArraysLaidAt(raw, arrays, at)
  }

  /**
   A group between two places: magic word, size of what follows, number, count of arrays, their size without headers,
   flags, and the arrays, deflated when the document says so.
   */
  ghost predicate GroupLaid(codec: Codec, d: Document, bytes: seq<byte>, start: nat, end: nat, g: Group) {
    && start + 48 <= end <= |bytes|
    && WordAt(bytes, start) == Some(0x041e_065f) && WordAt(bytes, start + 8) == Some(end - start - 16)
    && WordAt(bytes, start + 16) == Some(g.index) && WordAt(bytes, start + 24) == Some(|g.arrays|)
    && WordAt(bytes, start + 32) == Some(DataSize(g.arrays)) && WordAt(bytes, start + 40) == Some(g.flags)
    && exists raw :: ArraysLaid(raw, g.arrays) && bytes[start + 48..end] == if d.deflate then codec.deflate(raw, d.level) else raw
  }

  ghost predicate GroupsLaidAt(codec: Codec, d: Document, bytes: seq<byte>, at: seq<nat>) {
    && |at| == |d.groups| + 1 && at[0] == 16 + |d.metadata| && at[|d.groups|] == |bytes|
    && forall k :: 0 <= k < |d.groups| ==> GroupLaid(codec, d, bytes, at[k], at[k + 1], d.groups[k])
  }

  /** A document's bytes: magic word, size of the metadata, the metadata, and the groups up to the last byte. */
  ghost predicate LaidOut(codec: Codec, d: Document, bytes: seq<byte>) {
    && |bytes| >= 16 + |d.metadata| && WordAt(bytes, 0) == Some(0x8099_cead) && WordAt(bytes, 8) == Some(|d.metadata|)
    && bytes[16..16 + |d.metadata|] == d.metadata
    && exists at :: GroupsLaidAt(codec, d, bytes, at)
  }

  lemma RecordsLaidOut(arrays: seq<Array>)
    requires |Records(arrays)| < U64
    ensures ArraysLaid(Records(arrays), arrays)
  {
    NoRecords();
    var raw := Records(arrays);
    hide Record, Records, DataSize, WordAt;
    var at := seq(|arrays| + 1, k requires 0 <= k <= |arrays| => |Records(arrays[..k])|);
    assert arrays[..0] == [] && arrays[..|arrays|] == arrays;
    forall k | 0 <= k < |arrays| ensures ArrayLaid(raw, at[k], at[k + 1], arrays[k]) {
      RecordsTake(arrays, k);
      RecordsTake(arrays, k + 1);
      var before := Records(arrays[..k]);
      RecordLaid(before, arrays[k], raw[|before| + |Record(arrays[k])|..], raw);
    }
    assert ArraysLaidAt(raw, arrays, at);
  }

  lemma RecordLaid(before: seq<byte>, a: Array, after: seq<byte>, raw: seq<byte>)
    requires before + Record(a) <= raw && after == raw[|before| + |Record(a)|..] && |raw| < U64
    ensures ArrayLaid(raw, |before|, |before| + |Record(a)|, a)
  {
    hide WordAt, Digits;
    assert raw == before + Record(a) + after;
    RecordWords(before, a, after);
  }

  /** The six words in front of a stored group, and what is stored. */
  lemma GroupHead(before: seq<byte>, codec: Codec, d: Document, g: Group, after: seq<byte>)
    requires |Records(g.arrays)| < U64 && g.index < U64 && 32 + |Payload(codec, d, g)| < U64
    ensures |GroupBytes(codec, d, g)| == 48 + |Payload(codec, d, g)|
    ensures var bytes, n := before + GroupBytes(codec, d, g) + after, |before|;
      && WordAt(bytes, n) == Some(0x041e_065f) && WordAt(bytes, n + 8) == Some(32 + |Payload(codec, d, g)|)
      && WordAt(bytes, n + 16) == Some(g.index) && WordAt(bytes, n + 24) == Some(|g.arrays|)
      && WordAt(bytes, n + 32) == Some(DataSize(g.arrays)) && WordAt(bytes, n + 40) == Some(g.flags)
      && bytes[n + 48..n + |GroupBytes(codec, d, g)|] == Payload(codec, d, g)
  {
    hide Digits, Little, Pow256, WordAt, Records, DataSize, Payload;
    var bytes, n := before + GroupBytes(codec, d, g) + after, |before|;
    var stored := Payload(codec, d, g);
    var v: seq<word64> := [GROUP_MAGIC, 32 + |stored|, g.index, |g.arrays|, DataSize(g.arrays), g.flags];
    SixWords(before, v, stored + after);
    var head := Digits(v[0], 8) + Digits(v[1], 8) + Digits(v[2], 8) + Digits(v[3], 8) + Digits(v[4], 8) + Digits(v[5], 8);
    assert GroupBytes(codec, d, g) == head + stored;
    assert bytes == before + head + (stored + after);
    PartAt(before + head, stored, after);
    assert bytes == before + head + stored + after;
    assert WordAt(bytes, n + 8 * 0) == Some(v[0]) && WordAt(bytes, n + 8 * 1) == Some(v[1]);
    assert WordAt(bytes, n + 8 * 2) == Some(v[2]) && WordAt(bytes, n + 8 * 3) == Some(v[3]);
    assert WordAt(bytes, n + 8 * 4) == Some(v[4]) && WordAt(bytes, n + 8 * 5) == Some(v[5]);
  }

  lemma PayloadIs(codec: Codec, d: Document, g: Group)
    ensures Payload(codec, d, g) == if d.deflate then codec.deflate(Records(g.arrays), d.level) else Records(g.arrays)
  {
    hide Records;
  }

  lemma GroupLaidOut(codec: Codec, d: Document, before: seq<byte>, g: Group, after: seq<byte>, bytes: seq<byte>, end: nat)
    requires |Records(g.arrays)| < U64 && g.index < U64 && 32 + |Payload(codec, d, g)| < U64
    requires bytes == before + GroupBytes(codec, d, g) + after && end == |before| + |GroupBytes(codec, d, g)|
    ensures GroupLaid(codec, d, bytes, |before|, end, g)
  {
    hide Digits, Little, Pow256, WordAt, Records, DataSize, Payload, ArraysLaid, GroupBytes;
    RecordsLaidOut(g.arrays);
    PayloadIs(codec, d, g);
    GroupHead(before, codec, d, g, after);
    assert ArraysLaid(Records(g.arrays), g.arrays);
  }

  /** Two words, a text and a rest. */
  lemma HeadParts(a: seq<byte>, b: seq<byte>, text: seq<byte>, rest: seq<byte>)
    requires |a| == 8 && |b| == 8
    ensures var x := a + b + text + rest; x[0..8] == a && x[8..16] == b && x[16..16 + |text|] == text
  {
    var x := a + b + text + rest;
    assert forall i :: 0 <= i < |text| ==> x[16 + i] == text[i];
  }

  lemma HeadLaidOut(a: seq<byte>, b: seq<byte>, text: seq<byte>, rest: seq<byte>, bytes: seq<byte>)
    requires |text| < U64 && a == Digits(FILE_MAGIC, 8) && b == Digits(|text|, 8) && bytes == a + b + text + rest
    ensures |bytes| >= 16 + |text|
    ensures WordAt(bytes, 0) == Some(0x8099_cead) && WordAt(bytes, 8) == Some(|text|) && bytes[16..16 + |text|] == text
  {
    hide Digits, Little, Pow256, WordAt;
    assert |a| == 8 && |b| == 8;
    HeadParts(a, b, text, rest);
    WordBetween(bytes, 0, FILE_MAGIC);
    WordBetween(bytes, 8, |text|);
  }

  /** What is written has that layout. */
  lemma SerializedLayout(codec: Codec, d: Document)
    requires Serializable(codec, d)
    ensures LaidOut(codec, d, Serialized(codec, d).value)
  {
    hide Digits, Little, Pow256, WordAt, GroupsBytes, GroupsLaidAt, Records;
    var bytes, groups := Serialized(codec, d).value, GroupsBytes(codec, d, d.groups);
    HeadLaidOut(Digits(FILE_MAGIC, 8), Digits(|d.metadata|, 8), d.metadata, groups, bytes);
    var head := Digits(FILE_MAGIC, 8) + Digits(|d.metadata|, 8) + d.metadata;
    assert bytes == head + groups;
    var at := GroupsLaidOut(codec, d, head, bytes);
  }

  lemma GroupsLaidOut(codec: Codec, d: Document, head: seq<byte>, bytes: seq<byte>) returns (at: seq<nat>)
    requires Serializable(codec, d) && |head| == 16 + |d.metadata| && bytes == head + GroupsBytes(codec, d, d.groups)
    ensures GroupsLaidAt(codec, d, bytes, at)
  {
    hide *;
    NoGroups(codec, d);
    var gs, groups := d.groups, GroupsBytes(codec, d, d.groups);
    at := seq(|gs| + 1, k requires 0 <= k <= |gs| => |head| + |GroupsBytes(codec, d, gs[..k])|);
    assert gs[..0] == [] && gs[..|gs|] == gs;
    forall k | 0 <= k < |gs| ensures GroupLaid(codec, d, bytes, at[k], at[k + 1], gs[k]) {
      GroupsTake(codec, d, gs, k);
      GroupsTake(codec, d, gs, k + 1);
      GroupFits(codec, d, k);
      RecordsFit(codec, d, k);
      var before := GroupsBytes(codec, d, gs[..k]);
      var after := groups[|before| + |GroupBytes(codec, d, gs[k])|..];
      assert bytes == (head + before) + GroupBytes(codec, d, gs[k]) + after;
      GroupLaidOut(codec, d, head + before, gs[k], after, bytes, at[k + 1]);
    }
    LaidTogether(codec, d, bytes, at);
  }

  lemma RecordsFit(codec: Codec, d: Document, k: nat)
    requires Serializable(codec, d) && k < |d.groups|
    ensures |Records(d.groups[k].arrays)| < U64
  {
  }

  lemma LaidTogether(codec: Codec, d: Document, bytes: seq<byte>, at: seq<nat>)
    requires |at| == |d.groups| + 1 && at[0] == 16 + |d.metadata| && at[|d.groups|] == |bytes|
    requires forall k :: 0 <= k < |d.groups| ==> GroupLaid(codec, d, bytes, at[k], at[k + 1], d.groups[k])
    ensures GroupsLaidAt(codec, d, bytes, at)
  {
    hide GroupLaid;
  }

  lemma WrittenLayout(codec: Codec, d: Document)
    ensures Serialized(codec, d).Some? ==> LaidOut(codec, d, Serialized(codec, d).value)
  {
    hide LaidOut;
    if Serializable(codec, d) {
      SerializedLayout(codec, d);
    }
    hide Serializable, GroupsBytes, Digits;
  }

  /** The writer. It refuses a document whose fields disagree with its metadata or whose groups are out of order. */
  method SerializeDocument(codec: Codec, d: Document) returns (r: Option<seq<byte>>)
    ensures r == Serialized(codec, d)
    ensures r.Some? ==> LaidOut(codec, d, r.value)
  {
    hide LaidOut;
    WrittenLayout(codec, d);
    hide GroupsBytes, Records, Digits;
    var metadata := codec.header(d.metadata);
    if metadata.None? { return None; }
    var h := metadata.value;
    if h.version != d.version || h.groupVersion != d.groupVersion || h.base64 != d.base64 || h.deflate != d.deflate
       || h.level != d.level || h.groupCount != |d.groups| {
      return None;
    }
    if d.base64 { return None; }
    if FILE_HEADER + |d.metadata| >= U64 { return None; }
    var output := AppendWord([], FILE_MAGIC);
    output := AppendWord(output, |d.metadata|);
    output := output + d.metadata;
    assert output == Digits(FILE_MAGIC, 8) + Digits(|d.metadata|, 8) + d.metadata;
    var ok;
    ok, output := WriteGroups(codec, d, output);
    if !ok { return None; }
    r := Some(output);
  }
}
