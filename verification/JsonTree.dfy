/** JSON values as the metadata parser reads them (RFC 8259), and their printing with any spacing. */
module JsonTree {
  import opened Wrappers
  import opened Bytes
  import opened Decimals
  import opened JsonText

  datatype Json =
    | Null
    | Boolean(truth: bool)
    | Number(digits: seq<byte>)
    | Text(text: seq<byte>)
    | List(elements: seq<Json>)
    | Object(members: seq<Member>)

  /** A key with its value; an object keeps its members in order. */
  datatype Member = Member(key: seq<byte>, value: Json)

  /** The deepest nesting that the parser accepts. */
  const DEEPEST: nat := 64

  const COMMA: byte := 0x2c
  const COLON: byte := 0x3a
  const MINUS: byte := 0x2d
  const POINT: byte := 0x2e
  const OPEN_LIST: byte := 0x5b
  const CLOSE_LIST: byte := 0x5d
  const OPEN_OBJECT: byte := 0x7b
  const CLOSE_OBJECT: byte := 0x7d
  const TRUE: seq<byte> := [0x74, 0x72, 0x75, 0x65]
  const FALSE: seq<byte> := [0x66, 0x61, 0x6c, 0x73, 0x65]
  const NULL: seq<byte> := [0x6e, 0x75, 0x6c, 0x6c]

  // ---------------------------------------------------------------- numbers

  /** The end of a run of digits. */
  function DigitsEnd(input: seq<byte>, at: nat): (end: nat)
    requires at <= |input|
    ensures at <= end <= |input|
    decreases |input| - at
  {
    if at < |input| && IsDigit(input[at]) then DigitsEnd(input, at + 1) else at
  }

  /** The end of a whole part, which has no leading zero unless it is zero. */
  function WholeEnd(input: seq<byte>, at: nat): (end: Option<nat>)
    ensures end.Some? ==> at < end.value <= |input|
  {
    if at >= |input| || !IsDigit(input[at]) then None
    else if input[at] == 0x30 then Some(at + 1)
    else Some(DigitsEnd(input, at + 1))
  }

  /** The end of at least one digit. */
  function SomeDigitsEnd(input: seq<byte>, at: nat): (end: Option<nat>)
    requires at <= |input|
    ensures end.Some? ==> at < end.value <= |input|
  {
    var end := DigitsEnd(input, at);
    if end == at then None else Some(end)
  }

  function FractionEnd(input: seq<byte>, at: nat): (end: Option<nat>)
    requires at <= |input|
    ensures end.Some? ==> at <= end.value <= |input|
  {
    if at < |input| && input[at] == POINT then SomeDigitsEnd(input, at + 1) else Some(at)
  }

  predicate IsExponent(c: byte) { c == 0x65 || c == 0x45 }

  predicate IsSign(c: byte) { c == 0x2b || c == MINUS }

  function ExponentEnd(input: seq<byte>, at: nat): (end: Option<nat>)
    requires at <= |input|
    ensures end.Some? ==> at <= end.value <= |input|
  {
    if at < |input| && IsExponent(input[at]) then
      SomeDigitsEnd(input, if at + 1 < |input| && IsSign(input[at + 1]) then at + 2 else at + 1)
    else Some(at)
  }

  /** The end of a number. */
  function NumberEnd(input: seq<byte>, at: nat): (end: Option<nat>)
    ensures end.Some? ==> at < end.value <= |input|
  {
    var whole :- WholeEnd(input, if at < |input| && input[at] == MINUS then at + 1 else at);
    var fraction :- FractionEnd(input, whole);
    ExponentEnd(input, fraction)
  }

  // ---------------------------------------------------------------- values

  /** The offset behind a character that must come next after space. */
  function Behind(input: seq<byte>, at: nat, c: byte): (next: Option<nat>)
    requires at <= |input|
    ensures next.Some? ==> at < next.value <= |input|
  {
    var start := AfterSpace(input, at);
    if start < |input| && input[start] == c then Some(start + 1) else None
  }

  predicate StartsAt(input: seq<byte>, at: nat, part: seq<byte>) {
    at + |part| <= |input| && input[at..at + |part|] == part
  }

  function LiteralAt(input: seq<byte>, at: nat, spelling: seq<byte>, value: Json): (r: Option<(Json, nat)>)
    requires spelling != []
    ensures r.Some? ==> at < r.value.1 <= |input|
  {
    if StartsAt(input, at, spelling) then Some((value, at + |spelling|)) else None
  }

  /** A value, and the offset behind it. */
  function ValueAt(input: seq<byte>, at: nat, depth: nat): (r: Option<(Json, nat)>)
    requires at <= |input|
    ensures r.Some? ==> at < r.value.1 <= |input|
    decreases |input| - at, 1
  {
    if depth > DEEPEST then None
    else
      var start := AfterSpace(input, at);
      if start >= |input| then None
      else
        var c := input[start];
        if c == OPEN_OBJECT then
          var (members, next) :- MembersAt(input, start + 1, depth + 1);
          Some((Object(members), next))
        else if c == OPEN_LIST then
          var (elements, next) :- ElementsAt(input, start + 1, depth + 1);
          Some((List(elements), next))
        else if c == QUOTE then
          var (text, next) :- StringFrom(input, start + 1, []);
          Some((Text(text), next))
        else if c == TRUE[0] then LiteralAt(input, start, TRUE, Boolean(true))
        else if c == FALSE[0] then LiteralAt(input, start, FALSE, Boolean(false))
        else if c == NULL[0] then LiteralAt(input, start, NULL, Null)
        else if c == MINUS || IsDigit(c) then
          var end :- NumberEnd(input, start);
          Some((Number(input[start..end]), end))
        else None
  }

  /** The elements of a list behind its bracket, and the offset behind the closing one. */
  function ElementsAt(input: seq<byte>, at: nat, depth: nat): (r: Option<(seq<Json>, nat)>)
    requires at <= |input|
    ensures r.Some? ==> at < r.value.1 <= |input|
    decreases |input| - at, 3
  {
    var close := Behind(input, at, CLOSE_LIST);
    if close.Some? then Some(([], close.value)) else ElementsFrom(input, at, depth, [])
  }

  function ElementsFrom(input: seq<byte>, at: nat, depth: nat, known: seq<Json>): (r: Option<(seq<Json>, nat)>)
    requires at <= |input|
    ensures r.Some? ==> at < r.value.1 <= |input|
    decreases |input| - at, 2
  {
    var (value, next) :- ValueAt(input, at, depth);
    var close := Behind(input, next, CLOSE_LIST);
    if close.Some? then Some((known + [value], close.value))
    else
      var more :- Behind(input, next, COMMA);
      ElementsFrom(input, more, depth, known + [value])
  }

  predicate HasKey(members: seq<Member>, key: seq<byte>) {
    exists k :: 0 <= k < |members| && members[k].key == key
  }

  /** The members of an object behind its brace, and the offset behind the closing one. */
  function MembersAt(input: seq<byte>, at: nat, depth: nat): (r: Option<(seq<Member>, nat)>)
    requires at <= |input|
    ensures r.Some? ==> at < r.value.1 <= |input|
    decreases |input| - at, 3
  {
    var close := Behind(input, at, CLOSE_OBJECT);
    if close.Some? then Some(([], close.value)) else MembersFrom(input, at, depth, [])
  }

  function MembersFrom(input: seq<byte>, at: nat, depth: nat, known: seq<Member>): (r: Option<(seq<Member>, nat)>)
    requires at <= |input|
    ensures r.Some? ==> at < r.value.1 <= |input|
    decreases |input| - at, 2
  {
    var (key, behindKey) :- StringAt(input, at);
    var colon :- Behind(input, behindKey, COLON);
    if HasKey(known, key) then None
    else
      var (value, next) :- ValueAt(input, colon, depth);
      var close := Behind(input, next, CLOSE_OBJECT);
      if close.Some? then Some((known + [Member(key, value)], close.value))
      else
        var more :- Behind(input, next, COMMA);
        MembersFrom(input, more, depth, known + [Member(key, value)])
  }

  /** A whole text: one value with nothing but space around it. */
  function Parsed(input: seq<byte>): Option<Json> {
    var (value, next) :- ValueAt(input, 0, 0);
    if AfterSpace(input, next) == |input| then Some(value) else None
  }

  // ---------------------------------------------------------------- printing

  /** Where space may stand: around values, around keys, and inside empty containers. */
  datatype Place = BeforeKey | BeforeColon | BeforeValue | AfterValue | Inside

  /** The space at every place of every value; a value is named by the indices that lead to it. */
  datatype Style = Style(pad: (Place, seq<nat>) -> seq<byte>)

  predicate AllSpace(s: seq<byte>) {
    forall i :: 0 <= i < |s| ==> IsSpace(s[i])
  }

  ghost predicate Spaced(style: Style) {
    forall place: Place, path: seq<nat> :: AllSpace(style.pad(place, path))
  }

  /** A value as text, without the space around it. */
  function Printed(v: Json, path: seq<nat>, style: Style): (s: seq<byte>)
    decreases v, 0
  {
    match v
    case Null => NULL
    case Boolean(truth) => if truth then TRUE else FALSE
    case Number(digits) => digits
    case Text(text) => [QUOTE] + (Escaped(text) + [QUOTE])
    case List(elements) =>
      [OPEN_LIST] + ((if elements == [] then style.pad(Inside, path) else PrintedElements(elements, path, 0, style)) + [CLOSE_LIST])
    case Object(members) =>
      [OPEN_OBJECT] + ((if members == [] then style.pad(Inside, path) else PrintedMembers(members, path, 0, style)) + [CLOSE_OBJECT])
  }

  /** A value with the space around it. */
  function Padded(v: Json, path: seq<nat>, style: Style): seq<byte>
    decreases v, 1
  {
    style.pad(BeforeValue, path) + (Printed(v, path, style) + style.pad(AfterValue, path))
  }

  function PrintedElements(elements: seq<Json>, path: seq<nat>, k: nat, style: Style): seq<byte>
    requires elements != []
    decreases elements, 0
  {
    Padded(elements[0], path + [k], style)
    + if |elements| == 1 then [] else [COMMA] + PrintedElements(elements[1..], path, k + 1, style)
  }

  function PrintedMember(m: Member, path: seq<nat>, style: Style): seq<byte>
    decreases m, 0
  {
    style.pad(BeforeKey, path) + ([QUOTE] + ((Escaped(m.key) + [QUOTE])
    + (style.pad(BeforeColon, path) + ([COLON] + Padded(m.value, path, style)))))
  }

  function PrintedMembers(members: seq<Member>, path: seq<nat>, k: nat, style: Style): seq<byte>
    requires members != []
    decreases members, 0
  {
    PrintedMember(members[0], path + [k], style)
    + if |members| == 1 then [] else [COMMA] + PrintedMembers(members[1..], path, k + 1, style)
  }

  // ---------------------------------------------------------------- reading what was printed

  /** A value whose numbers are numbers, whose keys differ, and that is not nested too deeply. */
  ghost predicate Printable(v: Json, depth: nat)
    decreases v
  {
    depth <= DEEPEST &&
    match v
    case Number(digits) => NumberEnd(digits, 0) == Some(|digits|)
    case List(elements) => AllPrintable(elements, depth + 1)
    case Object(members) => MembersPrintable(members, depth + 1) && DifferentKeys(members)
    case _ => true
  }

  ghost predicate AllPrintable(elements: seq<Json>, depth: nat)
    decreases elements
  {
    elements == [] || (Printable(elements[0], depth) && AllPrintable(elements[1..], depth))
  }

  ghost predicate MembersPrintable(members: seq<Member>, depth: nat)
    decreases members
  {
    members == [] || (Printable(members[0].value, depth) && MembersPrintable(members[1..], depth))
  }

  ghost predicate DifferentKeys(members: seq<Member>) {
    forall i, k :: 0 <= i < k < |members| ==> members[i].key != members[k].key
  }

  lemma StartsSplit(input: seq<byte>, at: nat, a: seq<byte>, b: seq<byte>)
    requires StartsAt(input, at, a + b)
    ensures StartsAt(input, at, a) && StartsAt(input, at + |a|, b)
  {
    var whole := input[at..at + |a + b|];
    assert input[at..at + |a|] == whole[..|a|] == a;
    assert input[at + |a|..at + |a| + |b|] == whole[|a|..] == b;
  }

  lemma StartsWith(input: seq<byte>, at: nat, c: byte, rest: seq<byte>)
    requires StartsAt(input, at, [c] + rest)
    ensures at < |input| && input[at] == c && StartsAt(input, at + 1, rest)
  {
    StartsSplit(input, at, [c], rest);
    assert input[at..at + 1][0] == c;
  }

  lemma {:induction false} SpaceSkipped(input: seq<byte>, at: nat, space: seq<byte>)
    requires StartsAt(input, at, space) && AllSpace(space)
    ensures AfterSpace(input, at) == AfterSpace(input, at + |space|)
    decreases |space|
  {
    if space != [] {
      assert space == [space[0]] + space[1..];
      StartsWith(input, at, space[0], space[1..]);
      SpaceSkipped(input, at + 1, space[1..]);
    }
  }

  /** What may follow a printed value. */
  predicate Delimited(input: seq<byte>, at: nat) {
    at >= |input| || input[at] == COMMA || input[at] == CLOSE_LIST || input[at] == CLOSE_OBJECT || IsSpace(input[at])
  }

  // ---------------------------------------------------------------- numbers among other text

  /** A run of digits ends in a longer text where it ends in its own. */
  lemma {:induction false} DigitsEndWithin(input: seq<byte>, at: nat, text: seq<byte>, k: nat)
    requires StartsAt(input, at, text) && k <= |text| && (at + |text| == |input| || !IsDigit(input[at + |text|]))
    ensures DigitsEnd(input, at + k) == at + DigitsEnd(text, k)
    decreases |text| - k
  {
    if k < |text| {
      assert input[at + k] == input[at..at + |text|][k];
      DigitsEndWithin(input, at, text, k + 1);
    }
  }

  lemma CharWithin(input: seq<byte>, at: nat, text: seq<byte>, k: nat)
    requires StartsAt(input, at, text) && k < |text|
    ensures at + k < |input| && input[at + k] == text[k]
  {
    assert input[at + k] == input[at..at + |text|][k];
  }

  lemma WholeWithin(input: seq<byte>, at: nat, text: seq<byte>, k: nat)
    requires StartsAt(input, at, text) && Delimited(input, at + |text|) && WholeEnd(text, k).Some?
    ensures WholeEnd(input, at + k) == Some(at + WholeEnd(text, k).value)
  {
    CharWithin(input, at, text, k);
    DigitsEndWithin(input, at, text, k + 1);
  }

  lemma SomeDigitsWithin(input: seq<byte>, at: nat, text: seq<byte>, k: nat)
    requires StartsAt(input, at, text) && Delimited(input, at + |text|) && k <= |text| && SomeDigitsEnd(text, k).Some?
    ensures SomeDigitsEnd(input, at + k) == Some(at + SomeDigitsEnd(text, k).value)
  {
    DigitsEndWithin(input, at, text, k);
  }

  lemma FractionWithin(input: seq<byte>, at: nat, text: seq<byte>, k: nat)
    requires StartsAt(input, at, text) && Delimited(input, at + |text|) && k <= |text| && FractionEnd(text, k).Some?
    ensures FractionEnd(input, at + k) == Some(at + FractionEnd(text, k).value)
  {
    hide SomeDigitsEnd;
    if k < |text| {
      CharWithin(input, at, text, k);
      if text[k] == POINT { SomeDigitsWithin(input, at, text, k + 1); }
    }
  }

  lemma ExponentWithin(input: seq<byte>, at: nat, text: seq<byte>, k: nat)
    requires StartsAt(input, at, text) && Delimited(input, at + |text|) && k <= |text| && ExponentEnd(text, k).Some?
    ensures ExponentEnd(input, at + k) == Some(at + ExponentEnd(text, k).value)
  {
    hide SomeDigitsEnd;
    if k < |text| {
      CharWithin(input, at, text, k);
      if IsExponent(text[k]) {
        var from := if k + 1 < |text| && IsSign(text[k + 1]) then k + 2 else k + 1;
        if k + 1 < |text| { CharWithin(input, at, text, k + 1); }
        SomeDigitsWithin(input, at, text, from);
      }
    }
  }

  lemma NumberStart(digits: seq<byte>)
    requires NumberEnd(digits, 0).Some?
    ensures digits != [] && (digits[0] == MINUS || IsDigit(digits[0]))
  {
    hide FractionEnd, ExponentEnd;
  }

  lemma NumberReads(input: seq<byte>, at: nat, digits: seq<byte>)
    requires StartsAt(input, at, digits) && NumberEnd(digits, 0) == Some(|digits|) && Delimited(input, at + |digits|)
    ensures NumberEnd(input, at) == Some(at + |digits|)
    ensures digits != [] && (digits[0] == MINUS || IsDigit(digits[0]))
  {
    NumberStart(digits);
    hide WholeEnd, FractionEnd, ExponentEnd, StartsAt, Delimited;
    var a := if digits[0] == MINUS then 1 else 0;
    var whole := WholeEnd(digits, a).value;
    var fraction := FractionEnd(digits, whole).value;
    CharWithin(input, at, digits, 0);
    WholeWithin(input, at, digits, a);
    FractionWithin(input, at, digits, whole);
    ExponentWithin(input, at, digits, fraction);
  }

  // ---------------------------------------------------------------- whole values

  /** What a printed value starts with. */
  lemma PrintedStart(v: Json, path: seq<nat>, style: Style)
    requires Printable(v, |path|)
    ensures Printed(v, path, style) != []
    ensures var c := Printed(v, path, style)[0];
      !IsSpace(c) && c != CLOSE_LIST && c != CLOSE_OBJECT && c != COMMA
  {
  }

  /** Text up to its closing quote. */
  lemma TextReads(input: seq<byte>, at: nat, text: seq<byte>, known: seq<byte>)
    requires StartsAt(input, at, Escaped(text) + [QUOTE])
    ensures StringFrom(input, at, known) == Some((known + text, at + |Escaped(text)| + 1))
  {
    hide StringFrom, Escaped;
    var before, after := input[..at], input[at + |Escaped(text)| + 1..];
    assert input == before + input[at..at + |Escaped(text) + [QUOTE]|] + after;
    assert input == before + Escaped(text) + [QUOTE] + after;
    EscapeRoundTrip(before, text, after, known);
  }

  lemma BehindSpace(input: seq<byte>, at: nat, space: seq<byte>, c: byte, d: byte, rest: seq<byte>)
    requires AllSpace(space) && !IsSpace(d) && StartsAt(input, at, space + ([d] + rest))
    ensures Behind(input, at, c) == if c == d then Some(at + |space| + 1) else None
  {
    StartsSplit(input, at, space, [d] + rest);
    StartsWith(input, at + |space|, d, rest);
    SpaceSkipped(input, at, space);
  }

  lemma ValueBehindSpace(input: seq<byte>, at: nat, space: seq<byte>, depth: nat)
    requires AllSpace(space) && StartsAt(input, at, space)
    ensures at + |space| <= |input| && ValueAt(input, at, depth) == ValueAt(input, at + |space|, depth)
  {
    SpaceSkipped(input, at, space);
  }

  lemma StringBehindSpace(input: seq<byte>, at: nat, space: seq<byte>)
    requires AllSpace(space) && StartsAt(input, at, space)
    ensures at + |space| <= |input| && StringAt(input, at) == StringAt(input, at + |space|)
  {
    SpaceSkipped(input, at, space);
  }

  lemma ObjectCase(input: seq<byte>, at: nat, depth: nat, members: seq<Member>, next: nat)
    requires depth <= DEEPEST && at < |input| && input[at] == OPEN_OBJECT
    requires MembersAt(input, at + 1, depth + 1) == Some((members, next))
    ensures ValueAt(input, at, depth) == Some((Object(members), next))
  {
    hide MembersAt, ElementsAt, StringFrom, LiteralAt, NumberEnd;
  }

  lemma ListCase(input: seq<byte>, at: nat, depth: nat, elements: seq<Json>, next: nat)
    requires depth <= DEEPEST && at < |input| && input[at] == OPEN_LIST
    requires ElementsAt(input, at + 1, depth + 1) == Some((elements, next))
    ensures ValueAt(input, at, depth) == Some((List(elements), next))
  {
    hide MembersAt, ElementsAt, StringFrom, LiteralAt, NumberEnd;
  }

  lemma TextCase(input: seq<byte>, at: nat, depth: nat, text: seq<byte>, next: nat)
    requires depth <= DEEPEST && at < |input| && input[at] == QUOTE && StringFrom(input, at + 1, []) == Some((text, next))
    ensures ValueAt(input, at, depth) == Some((Text(text), next))
  {
    hide MembersAt, ElementsAt, StringFrom, LiteralAt, NumberEnd;
  }

  lemma NumberCase(input: seq<byte>, at: nat, depth: nat, digits: seq<byte>)
    requires depth <= DEEPEST && StartsAt(input, at, digits) && NumberEnd(input, at) == Some(at + |digits|)
    requires at < |input| && (input[at] == MINUS || IsDigit(input[at]))
    ensures ValueAt(input, at, depth) == Some((Number(digits), at + |digits|))
  {
    hide MembersAt, ElementsAt, StringFrom, LiteralAt, NumberEnd;
  }

  lemma LiteralCase(input: seq<byte>, at: nat, depth: nat)
    requires depth <= DEEPEST
    ensures StartsAt(input, at, TRUE) ==> ValueAt(input, at, depth) == Some((Boolean(true), at + |TRUE|))
    ensures StartsAt(input, at, FALSE) ==> ValueAt(input, at, depth) == Some((Boolean(false), at + |FALSE|))
    ensures StartsAt(input, at, NULL) ==> ValueAt(input, at, depth) == Some((Null, at + |NULL|))
  {
    hide MembersAt, ElementsAt, StringFrom, NumberEnd;
    if StartsAt(input, at, TRUE) { CharWithin(input, at, TRUE, 0); }
    if StartsAt(input, at, FALSE) { CharWithin(input, at, FALSE, 0); }
    if StartsAt(input, at, NULL) { CharWithin(input, at, NULL, 0); }
  }

  /** A printed value reads back as that value, wherever it stands and whatever the spacing. */
  lemma {:induction false} ValueReads(input: seq<byte>, at: nat, v: Json, path: seq<nat>, style: Style)
    requires Spaced(style) && Printable(v, |path|) && StartsAt(input, at, Printed(v, path, style))
    requires Delimited(input, at + |Printed(v, path, style)|)
    ensures ValueAt(input, at, |path|) == Some((v, at + |Printed(v, path, style)|))
    decreases v, 0
  {
    hide ValueAt, StringFrom, NumberEnd, StartsAt, ElementsAt, MembersAt, Delimited, Escaped, AllPrintable, MembersPrintable;
    match v {
      case Null => LiteralCase(input, at, |path|);
      case Boolean(_) => LiteralCase(input, at, |path|);
      case Number(digits) =>
        NumberReads(input, at, digits);
        CharWithin(input, at, digits, 0);
        NumberCase(input, at, |path|, digits);
      case Text(text) =>
        StartsWith(input, at, QUOTE, Escaped(text) + [QUOTE]);
        TextReads(input, at + 1, text, []);
        assert [] + text == text;
        TextCase(input, at, |path|, text, at + |Escaped(text)| + 2);
      case List(elements) =>
        ListReads(input, at, elements, path, style);
        ListCase(input, at, |path|, elements, at + |Printed(v, path, style)|);
      case Object(members) =>
        ObjectReads(input, at, members, path, style);
        ObjectCase(input, at, |path|, members, at + |Printed(v, path, style)|);
    }
  }

  /** Where a value with space around it ends, if the space behind it is left out. */
  function ValueEnd(at: nat, v: Json, path: seq<nat>, style: Style): nat {
    at + |style.pad(BeforeValue, path)| + |Printed(v, path, style)|
  }

  /** What comes behind a value: exactly the character c, and then the rest. */
  ghost predicate FollowedBy(input: seq<byte>, end: nat, c: byte, next: nat, rest: seq<byte>) {
    && end <= |input| && StartsAt(input, next, rest)
    && forall d: byte :: Behind(input, end, d) == if d == c then Some(next) else None
  }

  /** A value with space around it, in front of a comma or a closing bracket. */
  lemma {:induction false} PaddedReads(input: seq<byte>, at: nat, v: Json, path: seq<nat>, style: Style, c: byte, rest: seq<byte>)
    requires Spaced(style) && Printable(v, |path|) && (c == COMMA || c == CLOSE_LIST || c == CLOSE_OBJECT)
    requires StartsAt(input, at, Padded(v, path, style) + ([c] + rest))
    ensures at <= |input| && ValueAt(input, at, |path|) == Some((v, ValueEnd(at, v, path, style)))
    ensures FollowedBy(input, ValueEnd(at, v, path, style), c, at + |Padded(v, path, style)| + 1, rest)
    decreases v, 1
  {
    hide ValueAt, Printed, Printable, StartsAt, Behind, Delimited, AllSpace, FollowedBy;
    var before, core, after := style.pad(BeforeValue, path), Printed(v, path, style), style.pad(AfterValue, path);
    var tail := after + ([c] + rest);
    PaddedSplit(v, path, style, [c] + rest);
    StartsSplit(input, at, before, core + tail);
    StartsSplit(input, at + |before|, core, tail);
    var end := at + |before| + |core|;
    Follows(input, end, after, c, rest);
    ValueBehindSpace(input, at, before, |path|);
    ValueReads(input, at + |before|, v, path, style);
  }

  lemma PaddedSplit(v: Json, path: seq<nat>, style: Style, rest: seq<byte>)
    ensures var before, core, after := style.pad(BeforeValue, path), Printed(v, path, style), style.pad(AfterValue, path);
      && Padded(v, path, style) + rest == before + (core + (after + rest))
      && |Padded(v, path, style)| == |before| + |core| + |after|
  {
    hide Printed;
    Reassociate(style.pad(BeforeValue, path), Printed(v, path, style), style.pad(AfterValue, path), rest);
  }

  lemma Follows(input: seq<byte>, end: nat, space: seq<byte>, c: byte, rest: seq<byte>)
    requires AllSpace(space) && (c == COMMA || c == CLOSE_LIST || c == CLOSE_OBJECT)
    requires StartsAt(input, end, space + ([c] + rest))
    ensures Delimited(input, end) && FollowedBy(input, end, c, end + |space| + 1, rest)
  {
    DelimitedBy(input, end, space + ([c] + rest));
    hide Behind, StartsAt, AllSpace;
    forall d: byte ensures Behind(input, end, d) == if d == c then Some(end + |space| + 1) else None {
      BehindSpace(input, end, space, d, c, rest);
    }
    StartsSplit(input, end, space, [c] + rest);
    StartsWith(input, end + |space|, c, rest);
  }

  lemma {:induction false} ListReads(input: seq<byte>, at: nat, elements: seq<Json>, path: seq<nat>, style: Style)
    requires Spaced(style) && Printable(List(elements), |path|) && StartsAt(input, at, Printed(List(elements), path, style))
    ensures at < |input| && input[at] == OPEN_LIST
    ensures ElementsAt(input, at + 1, |path| + 1) == Some((elements, at + |Printed(List(elements), path, style)|))
    decreases elements, 1
  {
    hide ElementsAt, StartsAt, Printed, AllSpace, Printable, AllPrintable, Behind;
    ListSplit(elements, path, style);
    if elements == [] {
      var inside := style.pad(Inside, path);
      StartsWith(input, at, OPEN_LIST, inside + [CLOSE_LIST]);
      CloseNext(input, at + 1, inside, CLOSE_LIST);
      EmptyList(input, at + 1, |path| + 1);
    } else {
      var inner := PrintedElements(elements, path, 0, style);
      StartsWith(input, at, OPEN_LIST, inner + [CLOSE_LIST]);
      ListParts(elements, |path|);
      FirstElement(input, at + 1, elements, path, style);
      ElementsRead(input, at + 1, elements, path, 0, style, []);
      assert [] + elements == elements;
      FilledList(input, at + 1, |path| + 1);
    }
  }

  lemma EmptyList(input: seq<byte>, at: nat, depth: nat)
    requires at <= |input| && Behind(input, at, CLOSE_LIST).Some?
    ensures ElementsAt(input, at, depth) == Some(([], Behind(input, at, CLOSE_LIST).value))
  {
    hide Behind;
  }

  lemma FilledList(input: seq<byte>, at: nat, depth: nat)
    requires at <= |input| && Behind(input, at, CLOSE_LIST).None?
    ensures ElementsAt(input, at, depth) == ElementsFrom(input, at, depth, [])
  {
    hide Behind, ElementsFrom;
  }

  lemma ListParts(elements: seq<Json>, depth: nat)
    requires Printable(List(elements), depth)
    ensures AllPrintable(elements, depth + 1)
  {
    hide AllPrintable;
  }

  lemma ListSplit(elements: seq<Json>, path: seq<nat>, style: Style)
    ensures var all := Printed(List(elements), path, style);
      && (elements == [] ==> all == [OPEN_LIST] + (style.pad(Inside, path) + [CLOSE_LIST]))
      && (elements != [] ==> all == [OPEN_LIST] + (PrintedElements(elements, path, 0, style) + [CLOSE_LIST]))
  {
  }

  lemma FirstElement(input: seq<byte>, at: nat, elements: seq<Json>, path: seq<nat>, style: Style)
    requires Spaced(style) && elements != [] && AllPrintable(elements, |path| + 1)
    requires StartsAt(input, at, PrintedElements(elements, path, 0, style) + [CLOSE_LIST])
    ensures Behind(input, at, CLOSE_LIST) == None
  {
    var inner := path + [0];
    PrintedStart(elements[0], inner, style);
    hide Printed, Printable, PrintedElements, StartsAt, Behind, AllSpace, AllPrintable, Padded;
    var first, before, after := Printed(elements[0], inner, style), style.pad(BeforeValue, inner), style.pad(AfterValue, inner);
    ElementsSplit(elements, path, 0, style);
    if |elements| == 1 {
      PaddedSplit(elements[0], inner, style, [CLOSE_LIST] + []);
      StartBehind(input, at, before, first, after + ([CLOSE_LIST] + []), CLOSE_LIST);
    } else {
      var rest := [COMMA] + (PrintedElements(elements[1..], path, 1, style) + [CLOSE_LIST]);
      PaddedSplit(elements[0], inner, style, rest);
      StartBehind(input, at, before, first, after + rest, CLOSE_LIST);
    }
  }

  lemma StartBehind(input: seq<byte>, at: nat, space: seq<byte>, first: seq<byte>, rest: seq<byte>, c: byte)
    requires AllSpace(space) && first != [] && !IsSpace(first[0]) && first[0] != c
    requires StartsAt(input, at, space + (first + rest))
    ensures at <= |input| && Behind(input, at, c) == None
  {
    assert first + rest == [first[0]] + (first[1..] + rest);
    BehindSpace(input, at, space, c, first[0], first[1..] + rest);
  }

  lemma LastElement(input: seq<byte>, at: nat, depth: nat, known: seq<Json>, v: Json, next: nat, end: nat)
    requires at <= |input| && ValueAt(input, at, depth) == Some((v, next)) && next <= |input|
    requires Behind(input, next, CLOSE_LIST) == Some(end)
    ensures ElementsFrom(input, at, depth, known) == Some((known + [v], end))
  {
    hide ValueAt, Behind;
  }

  lemma NextElement(input: seq<byte>, at: nat, depth: nat, known: seq<Json>, v: Json, next: nat, more: nat)
    requires at <= |input| && ValueAt(input, at, depth) == Some((v, next)) && next <= |input|
    requires Behind(input, next, CLOSE_LIST) == None && Behind(input, next, COMMA) == Some(more)
    ensures more <= |input| && ElementsFrom(input, at, depth, known) == ElementsFrom(input, more, depth, known + [v])
  {
    hide ValueAt, Behind;
  }

  lemma DelimitedBy(input: seq<byte>, at: nat, rest: seq<byte>)
    requires StartsAt(input, at, rest) && rest != []
    requires rest[0] == COMMA || rest[0] == CLOSE_LIST || rest[0] == CLOSE_OBJECT || IsSpace(rest[0])
    ensures Delimited(input, at) && at <= |input|
  {
    CharWithin(input, at, rest, 0);
  }

  /** A closing bracket behind some space. */
  lemma CloseNext(input: seq<byte>, at: nat, space: seq<byte>, close: byte)
    requires StartsAt(input, at, space + [close]) && AllSpace(space) && (close == CLOSE_LIST || close == CLOSE_OBJECT)
    ensures Delimited(input, at) && at <= |input| && Behind(input, at, close) == Some(at + |space| + 1)
  {
    DelimitedBy(input, at, space + [close]);
    assert space + ([close] + []) == space + [close];
    BehindSpace(input, at, space, close, close, []);
  }

  lemma {:induction false} ElementsRead(input: seq<byte>, at: nat, elements: seq<Json>, path: seq<nat>, k: nat, style: Style,
                                        known: seq<Json>)
    requires Spaced(style) && elements != [] && AllPrintable(elements, |path| + 1)
    requires StartsAt(input, at, PrintedElements(elements, path, k, style) + [CLOSE_LIST])
    ensures at <= |input| && ElementsFrom(input, at, |path| + 1, known)
         == Some((known + elements, at + |PrintedElements(elements, path, k, style)| + 1))
    decreases elements, 0
  {
    hide ValueAt, ElementsFrom, Behind, StartsAt, Printed, Printable, Delimited, PrintedElements, AllSpace, Padded;
    var inner, depth, v := path + [k], |path| + 1, elements[0];
    ElementsSplit(elements, path, k, style);
    SplitFirst(known, elements);
    var next, end := at + |Padded(v, inner, style)| + 1, ValueEnd(at, v, inner, style);
    if |elements| == 1 {
      PaddedReads(input, at, v, inner, style, CLOSE_LIST, []);
      LastElement(input, at, depth, known, v, end, next);
    } else {
      PaddedReads(input, at, v, inner, style, COMMA, PrintedElements(elements[1..], path, k + 1, style) + [CLOSE_LIST]);
      NextElement(input, at, depth, known, v, end, next);
      ElementsRead(input, next, elements[1..], path, k + 1, style, known + [v]);
    }
  }

  /** Printed elements with their closing bracket, split behind the first element. */
  lemma ElementsSplit(elements: seq<Json>, path: seq<nat>, k: nat, style: Style)
    requires elements != []
    ensures var all, first := PrintedElements(elements, path, k, style), Padded(elements[0], path + [k], style);
      && (|elements| == 1 ==> all + [CLOSE_LIST] == first + ([CLOSE_LIST] + []) && all == first)
      && (|elements| > 1 ==> var others := PrintedElements(elements[1..], path, k + 1, style);
            all + [CLOSE_LIST] == first + ([COMMA] + (others + [CLOSE_LIST])) && |all| == |first| + 1 + |others|)
  {
    var first := Padded(elements[0], path + [k], style);
    hide Padded;
    if |elements| == 1 {
      assert PrintedElements(elements, path, k, style) == first + [];
    } else {
      var others := PrintedElements(elements[1..], path, k + 1, style);
      Grouped(first, COMMA, others, CLOSE_LIST);
    }
  }

  lemma Grouped(first: seq<byte>, c: byte, others: seq<byte>, close: byte)
    ensures first + ([c] + others) + [close] == first + ([c] + (others + [close]))
  {
  }

  lemma Reassociate(a: seq<byte>, b: seq<byte>, c: seq<byte>, d: seq<byte>)
    ensures a + (b + c) + d == a + (b + (c + d))
    ensures c == [] ==> c + d == d
  {
  }

  lemma {:induction false} ObjectReads(input: seq<byte>, at: nat, members: seq<Member>, path: seq<nat>, style: Style)
    requires Spaced(style) && Printable(Object(members), |path|) && StartsAt(input, at, Printed(Object(members), path, style))
    ensures at < |input| && input[at] == OPEN_OBJECT
    ensures MembersAt(input, at + 1, |path| + 1) == Some((members, at + |Printed(Object(members), path, style)|))
    decreases members, 1
  {
    hide MembersAt, StartsAt, Printed, AllSpace, Printable, MembersPrintable, Behind, DifferentKeys;
    ObjectSplit(members, path, style);
    if members == [] {
      var inside := style.pad(Inside, path);
      StartsWith(input, at, OPEN_OBJECT, inside + [CLOSE_OBJECT]);
      CloseNext(input, at + 1, inside, CLOSE_OBJECT);
      EmptyObject(input, at + 1, |path| + 1);
    } else {
      var inner := PrintedMembers(members, path, 0, style);
      StartsWith(input, at, OPEN_OBJECT, inner + [CLOSE_OBJECT]);
      ObjectParts(members, |path|);
      FirstMember(input, at + 1, members, path, style);
      assert [] + members == members;
      MembersRead(input, at + 1, members, path, 0, style, []);
      FilledObject(input, at + 1, |path| + 1);
    }
  }

  lemma EmptyObject(input: seq<byte>, at: nat, depth: nat)
    requires at <= |input| && Behind(input, at, CLOSE_OBJECT).Some?
    ensures MembersAt(input, at, depth) == Some(([], Behind(input, at, CLOSE_OBJECT).value))
  {
    hide Behind;
  }

  lemma FilledObject(input: seq<byte>, at: nat, depth: nat)
    requires at <= |input| && Behind(input, at, CLOSE_OBJECT).None?
    ensures MembersAt(input, at, depth) == MembersFrom(input, at, depth, [])
  {
    hide Behind, MembersFrom;
  }

  lemma ObjectParts(members: seq<Member>, depth: nat)
    requires Printable(Object(members), depth)
    ensures MembersPrintable(members, depth + 1) && DifferentKeys(members)
  {
    hide MembersPrintable, DifferentKeys;
  }

  lemma ObjectSplit(members: seq<Member>, path: seq<nat>, style: Style)
    ensures var all := Printed(Object(members), path, style);
      && (members == [] ==> all == [OPEN_OBJECT] + (style.pad(Inside, path) + [CLOSE_OBJECT]))
      && (members != [] ==> all == [OPEN_OBJECT] + (PrintedMembers(members, path, 0, style) + [CLOSE_OBJECT]))
  {
  }

  lemma FirstMember(input: seq<byte>, at: nat, members: seq<Member>, path: seq<nat>, style: Style)
    requires Spaced(style) && members != []
    requires StartsAt(input, at, PrintedMembers(members, path, 0, style) + [CLOSE_OBJECT])
    ensures Behind(input, at, CLOSE_OBJECT) == None
  {
    var m, inner := members[0], path + [0];
    hide PrintedMembers, StartsAt, Behind, AllSpace, Padded, Escaped;
    MembersSplit(members, path, 0, style);
    var rest := if |members| == 1 then [CLOSE_OBJECT] + [] else [COMMA] + (PrintedMembers(members[1..], path, 1, style) + [CLOSE_OBJECT]);
    MemberSplit(m, inner, style, rest);
    hide PrintedMember;
    assert [QUOTE] != [] && [QUOTE][0] == QUOTE;
    StartBehind(input, at, style.pad(BeforeKey, inner), [QUOTE],
                Escaped(m.key) + [QUOTE] + (style.pad(BeforeColon, inner) + ([COLON] + (Padded(m.value, inner, style) + rest))),
                CLOSE_OBJECT);
  }

  /** A printed member and what follows it, piece by piece. */
  lemma MemberSplit(m: Member, path: seq<nat>, style: Style, rest: seq<byte>)
    ensures var key, text, colon := style.pad(BeforeKey, path), Escaped(m.key) + [QUOTE], style.pad(BeforeColon, path);
      var value := Padded(m.value, path, style);
      && PrintedMember(m, path, style) + rest == key + ([QUOTE] + (text + (colon + ([COLON] + (value + rest)))))
      && |PrintedMember(m, path, style)| == |key| + 1 + |text| + |colon| + 1 + |value|
  {
    hide Padded, Escaped;
    var key, text, colon := style.pad(BeforeKey, path), Escaped(m.key) + [QUOTE], style.pad(BeforeColon, path);
    FivePieces(key, [QUOTE], text, colon, [COLON], Padded(m.value, path, style), rest);
  }

  lemma FivePieces(a: seq<byte>, b: seq<byte>, c: seq<byte>, d: seq<byte>, e: seq<byte>, f: seq<byte>, rest: seq<byte>)
    ensures a + (b + (c + (d + (e + f)))) + rest == a + (b + (c + (d + (e + (f + rest)))))
  {
    assert e + f + rest == e + (f + rest);
    assert d + (e + f) + rest == d + (e + f + rest);
    assert c + (d + (e + f)) + rest == c + (d + (e + f) + rest);
    assert b + (c + (d + (e + f))) + rest == b + (c + (d + (e + f)) + rest);
  }

  /** Where a member's key ends, and where its colon does. */
  function KeyEnd(at: nat, m: Member, path: seq<nat>, style: Style): nat {
    at + |style.pad(BeforeKey, path)| + |Escaped(m.key)| + 2
  }

  function ColonEnd(at: nat, m: Member, path: seq<nat>, style: Style): nat {
    KeyEnd(at, m, path, style) + |style.pad(BeforeColon, path)| + 1
  }

  /** A printed key with its quotes and its colon, and all the space around them. */
  lemma KeyReads(input: seq<byte>, at: nat, m: Member, path: seq<nat>, style: Style, rest: seq<byte>)
    requires Spaced(style) && StartsAt(input, at, PrintedMember(m, path, style) + rest)
    ensures var key, colon := KeyEnd(at, m, path, style), ColonEnd(at, m, path, style);
      && at <= |input| && key <= |input| && colon <= |input|
      && StringAt(input, at) == Some((m.key, key)) && Behind(input, key, COLON) == Some(colon)
      && StartsAt(input, colon, Padded(m.value, path, style) + rest)
      && colon + |Padded(m.value, path, style)| == at + |PrintedMember(m, path, style)|
  {
    hide StringFrom, Escaped, Padded, PrintedMember, StartsAt, Behind, StringAt, AllSpace;
    var before, text, gap := style.pad(BeforeKey, path), Escaped(m.key) + [QUOTE], style.pad(BeforeColon, path);
    var value := Padded(m.value, path, style) + rest;
    MemberSplit(m, path, style, rest);
    StartsSplit(input, at, before, [QUOTE] + (text + (gap + ([COLON] + value))));
    var open := at + |before|;
    StartsWith(input, open, QUOTE, text + (gap + ([COLON] + value)));
    StartsSplit(input, open + 1, text, gap + ([COLON] + value));
    TextReads(input, open + 1, m.key, []);
    assert [] + m.key == m.key;
    var key := KeyEnd(at, m, path, style);
    StringBehindSpace(input, at, before);
    StringOpens(input, open, m.key, key);
    BehindSpace(input, key, gap, COLON, COLON, value);
    StartsSplit(input, key, gap, [COLON] + value);
    StartsWith(input, key + |gap|, COLON, value);
  }

  lemma StringOpens(input: seq<byte>, at: nat, text: seq<byte>, next: nat)
    requires at < |input| && input[at] == QUOTE && StringFrom(input, at + 1, []) == Some((text, next))
    ensures StringAt(input, at) == Some((text, next))
  {
    hide StringFrom;
  }

  lemma LastMember(input: seq<byte>, at: nat, depth: nat, known: seq<Member>, m: Member, behindKey: nat, colon: nat,
                   next: nat, end: nat)
    requires at <= |input| && StringAt(input, at) == Some((m.key, behindKey)) && behindKey <= |input|
    requires Behind(input, behindKey, COLON) == Some(colon) && !HasKey(known, m.key)
    requires ValueAt(input, colon, depth) == Some((m.value, next)) && next <= |input|
    requires Behind(input, next, CLOSE_OBJECT) == Some(end)
    ensures MembersFrom(input, at, depth, known) == Some((known + [m], end))
  {
    hide ValueAt, Behind, StringAt, HasKey;
  }

  lemma NextMember(input: seq<byte>, at: nat, depth: nat, known: seq<Member>, m: Member, behindKey: nat, colon: nat,
                   next: nat, more: nat)
    requires at <= |input| && StringAt(input, at) == Some((m.key, behindKey)) && behindKey <= |input|
    requires Behind(input, behindKey, COLON) == Some(colon) && !HasKey(known, m.key)
    requires ValueAt(input, colon, depth) == Some((m.value, next)) && next <= |input|
    requires Behind(input, next, CLOSE_OBJECT) == None && Behind(input, next, COMMA) == Some(more)
    ensures more <= |input| && MembersFrom(input, at, depth, known) == MembersFrom(input, more, depth, known + [m])
  {
    hide ValueAt, Behind, StringAt, HasKey;
  }

  lemma {:induction false} MembersRead(input: seq<byte>, at: nat, members: seq<Member>, path: seq<nat>, k: nat, style: Style,
                                       known: seq<Member>)
    requires Spaced(style) && members != [] && MembersPrintable(members, |path| + 1) && DifferentKeys(known + members)
    requires StartsAt(input, at, PrintedMembers(members, path, k, style) + [CLOSE_OBJECT])
    ensures at <= |input| && MembersFrom(input, at, |path| + 1, known)
         == Some((known + members, at + |PrintedMembers(members, path, k, style)| + 1))
    decreases members, 0
  {
    hide *;
    NewKey(known, members);
    SplitFirst(known, members);
    var m, inner, depth := members[0], path + [k], |path| + 1;
    MembersSplit(members, path, k, style);
    HeadPrintable(members, depth);
    var key, colon := KeyEnd(at, m, inner, style), ColonEnd(at, m, inner, style);
    var next, end := at + |PrintedMember(m, inner, style)| + 1, ValueEnd(colon, m.value, inner, style);
    if |members| == 1 {
      MemberReads(input, at, m, inner, style, CLOSE_OBJECT, []);
      LastMember(input, at, depth, known, m, key, colon, end, next);
    } else {
      MemberReads(input, at, m, inner, style, COMMA, PrintedMembers(members[1..], path, k + 1, style) + [CLOSE_OBJECT]);
      NextMember(input, at, depth, known, m, key, colon, end, next);
      MembersRead(input, next, members[1..], path, k + 1, style, known + [m]);
    }
  }

  lemma SplitFirst<T>(known: seq<T>, more: seq<T>)
    requires more != []
    ensures known + [more[0]] + more[1..] == known + more
    ensures |more| == 1 ==> known + [more[0]] == known + more
  {
  }

  lemma HeadPrintable(members: seq<Member>, depth: nat)
    requires members != [] && MembersPrintable(members, depth)
    ensures Printable(members[0].value, depth) && MembersPrintable(members[1..], depth)
  {
  }

  /** One printed member, in front of a comma or a closing bracket. */
  lemma {:induction false} MemberReads(input: seq<byte>, at: nat, m: Member, path: seq<nat>, style: Style, c: byte, rest: seq<byte>)
    requires Spaced(style) && Printable(m.value, |path|) && (c == COMMA || c == CLOSE_OBJECT)
    requires StartsAt(input, at, PrintedMember(m, path, style) + ([c] + rest))
    ensures var key, colon := KeyEnd(at, m, path, style), ColonEnd(at, m, path, style);
      && at <= |input| && key <= |input| && colon <= |input|
      && StringAt(input, at) == Some((m.key, key)) && Behind(input, key, COLON) == Some(colon)
      && ValueAt(input, colon, |path|) == Some((m.value, ValueEnd(colon, m.value, path, style)))
      && FollowedBy(input, ValueEnd(colon, m.value, path, style), c, at + |PrintedMember(m, path, style)| + 1, rest)
      && ValueEnd(colon, m.value, path, style) <= |input|
      && StartsAt(input, at + |PrintedMember(m, path, style)| + 1, rest)
      && Behind(input, ValueEnd(colon, m.value, path, style), c) == Some(at + |PrintedMember(m, path, style)| + 1)
      && (c == COMMA ==> Behind(input, ValueEnd(colon, m.value, path, style), CLOSE_OBJECT) == None)
    decreases m, 0
  {
    hide ValueAt, Behind, StartsAt, Printed, Printable, Padded, PrintedMember, StringAt, Escaped, AllSpace, KeyEnd, ColonEnd, ValueEnd;
    KeyReads(input, at, m, path, style, [c] + rest);
    PaddedReads(input, ColonEnd(at, m, path, style), m.value, path, style, c, rest);
  }

  /** Printed members with their closing brace, split behind the first member. */
  lemma MembersSplit(members: seq<Member>, path: seq<nat>, k: nat, style: Style)
    requires members != []
    ensures var all, first := PrintedMembers(members, path, k, style), PrintedMember(members[0], path + [k], style);
      && (|members| == 1 ==> all + [CLOSE_OBJECT] == first + ([CLOSE_OBJECT] + []) && all == first)
      && (|members| > 1 ==> var others := PrintedMembers(members[1..], path, k + 1, style);
            all + [CLOSE_OBJECT] == first + ([COMMA] + (others + [CLOSE_OBJECT])) && |all| == |first| + 1 + |others|)
  {
    var first := PrintedMember(members[0], path + [k], style);
    hide PrintedMember;
    if |members| == 1 {
      assert PrintedMembers(members, path, k, style) == first + [];
    } else {
      Grouped(first, COMMA, PrintedMembers(members[1..], path, k + 1, style), CLOSE_OBJECT);
    }
  }

  lemma NewKey(known: seq<Member>, members: seq<Member>)
    requires members != [] && DifferentKeys(known + members)
    ensures !HasKey(known, members[0].key)
  {
    var all := known + members;
    forall k | 0 <= k < |known| ensures known[k].key != members[0].key {
      assert all[k] == known[k] && all[|known|] == members[0];
    }
  }

  /** Printing any value with any spacing, around it too, and parsing the text gives the value back. */
  lemma PrintRoundTrip(v: Json, style: Style)
    requires Spaced(style) && Printable(v, 0)
    ensures Parsed(Padded(v, [], style)) == Some(v)
  {
    hide ValueAt, Printed, Printable, Padded, StartsAt, AllSpace, Delimited, AfterSpace;
    var input := Padded(v, [], style);
    var before, core, after := style.pad(BeforeValue, []), Printed(v, [], style), style.pad(AfterValue, []);
    PaddedSplit(v, [], style, []);
    assert input + [] == input && after + [] == after;
    WholeText(input);
    StartsSplit(input, 0, before, core + after);
    StartsSplit(input, |before|, core, after);
    var end := |before| + |core|;
    ValueBehindSpace(input, 0, before, 0);
    SpaceToEnd(input, end, after);
    ValueReads(input, |before|, v, [], style);
  }

  lemma WholeText(input: seq<byte>)
    ensures StartsAt(input, 0, input)
  {
    assert input[0..0 + |input|] == input;
  }

  lemma SpaceToEnd(input: seq<byte>, at: nat, space: seq<byte>)
    requires StartsAt(input, at, space) && AllSpace(space) && at + |space| == |input|
    ensures Delimited(input, at) && AfterSpace(input, at) == |input|
  {
    SpaceSkipped(input, at, space);
    if space != [] { CharWithin(input, at, space, 0); }
  }
}
