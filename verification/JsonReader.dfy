/** The metadata's JSON parser, which moves through its input. */
module JsonReader {
  import opened Wrappers
  import opened Bytes
  import opened Decimals
  import opened JsonText
  import opened JsonTree

  class JsonParser {
    const input: seq<byte>
    var offset: nat

    constructor (input: seq<byte>)
      ensures this.input == input && offset == 0
    {
      this.input := input;
      offset := 0;
    }

    method SkipSpace()
      requires offset <= |input|
      modifies this
      ensures offset == AfterSpace(input, old(offset))
    {
      while offset < |input| && IsSpace(input[offset])
        invariant offset <= |input| && AfterSpace(input, offset) == AfterSpace(input, old(offset))
      {
        offset := offset + 1;
      }
    }

    method ParseHex4() returns (r: Option<nat>)
      requires offset <= |input|
      modifies this
      ensures r == Hex4(input, old(offset)) && offset <= |input|
      ensures r.Some? ==> offset == old(offset) + 4
    {
      if |input| - offset < 4 { return None; }
      ghost var start := offset;
      var value: nat := 0;
      for digit := 0 to 4
        invariant offset == start + digit && HexFrom(input, start, digit) == Some(value)
      {
        var c := input[offset];
        offset := offset + 1;
        var d := HexValue(c);
        if d.None? {
          HexStops(input, start, digit, 4);
          return None;
        }
        value := value * 16 + d.value;
      }
      r := Some(value);
    }

    /** A code point, from one unit or from a surrogate pair. */
    method ParseCodePoint() returns (r: Option<nat>)
      requires offset <= |input|
      modifies this
      ensures offset <= |input|
      ensures r.None? <==> CodePointAt(input, old(offset)).None?
      ensures r.Some? ==> CodePointAt(input, old(offset)) == Some((r.value, offset))
    {
      hide Hex4;
      var unit := ParseHex4();
      if unit.None? { return None; }
      if 0xd800 <= unit.value <= 0xdbff {
        if |input| - offset < 6 || input[offset] != BACKSLASH || input[offset + 1] != 0x75 { return None; }
        offset := offset + 2;
        var low := ParseHex4();
        if low.None? || low.value < 0xdc00 || low.value > 0xdfff { return None; }
        r := Some(0x1_0000 + (unit.value - 0xd800) * 1024 + (low.value - 0xdc00));
      } else if 0xdc00 <= unit.value <= 0xdfff {
        r := None;
      } else {
        r := unit;
      }
    }

    method ParseEscape() returns (r: Option<seq<byte>>)
      requires offset <= |input|
      modifies this
      ensures offset <= |input|
      ensures r.None? <==> EscapeAt(input, old(offset)).None?
      ensures r.Some? ==> EscapeAt(input, old(offset)) == Some((r.value, offset))
    {
      if offset >= |input| { return None; }
      hide CodePointAt, Utf8;
      var c := input[offset];
      offset := offset + 1;
      if c == QUOTE || c == BACKSLASH || c == 0x2f {
        r := Some([c]);
      } else if c == 0x62 {
        r := Some([0x08]);
      } else if c == 0x66 {
        r := Some([0x0c]);
      } else if c == 0x6e {
        r := Some([0x0a]);
      } else if c == 0x72 {
        r := Some([0x0d]);
      } else if c == 0x74 {
        r := Some([0x09]);
      } else if c == 0x75 {
        var point := ParseCodePoint();
        if point.Some? { r := Some(Utf8(point.value)); } else { r := None; }
      } else {
        r := None;
      }
    }

    /** A string: space, a quote, characters and escapes up to the closing quote. */
    method ParseString() returns (r: Option<seq<byte>>)
      requires offset <= |input|
      modifies this
      ensures offset <= |input|
      ensures r.None? <==> StringAt(input, old(offset)).None?
      ensures r.Some? ==> StringAt(input, old(offset)) == Some((r.value, offset))
    {
      hide EscapeAt;
      SkipSpace();
      if offset >= |input| || input[offset] != QUOTE { return None; }
      ghost var start := offset + 1;
      offset := offset + 1;
      var result: seq<byte> := [];
      while offset < |input|
        invariant offset <= |input| && StringFrom(input, offset, result) == StringFrom(input, start, [])
        decreases |input| - offset
      {
        var c := input[offset];
        offset := offset + 1;
        if c == QUOTE { return Some(result); }
        if c < 0x20 { return None; }
        if c != BACKSLASH {
          result := result + [c];
        } else {
          var bytes := ParseEscape();
          if bytes.None? { return None; }
          result := result + bytes.value;
        }
      }
      r := None;
    }

    /** Takes a character that comes next after space. */
    method Consume(c: byte) returns (ok: bool)
      requires offset <= |input|
      modifies this
      ensures offset <= |input| && ok == Behind(input, old(offset), c).Some?
      ensures offset == if ok then Behind(input, old(offset), c).value else AfterSpace(input, old(offset))
    {
      SkipSpace();
      ok := offset < |input| && input[offset] == c;
      if ok { offset := offset + 1; }
    }

    method ParseLiteral(spelling: seq<byte>, value: Json) returns (r: Option<Json>)
      requires offset <= |input| && spelling != []
      modifies this
      ensures offset <= |input|
      ensures r.None? <==> LiteralAt(input, old(offset), spelling, value).None?
      ensures r.Some? ==> LiteralAt(input, old(offset), spelling, value) == Some((r.value, offset))
    {
      if !StartsAt(input, offset, spelling) { return None; }
      offset := offset + |spelling|;
      r := Some(value);
    }

    method SkipDigits()
      requires offset <= |input|
      modifies this
      ensures offset == DigitsEnd(input, old(offset)) <= |input|
    {
      while offset < |input| && IsDigit(input[offset])
        invariant offset <= |input| && DigitsEnd(input, offset) == DigitsEnd(input, old(offset))
      {
        offset := offset + 1;
      }
    }

    method ParseWhole() returns (ok: bool)
      requires offset <= |input|
      modifies this
      ensures offset <= |input| && ok == WholeEnd(input, old(offset)).Some?
      ensures ok ==> WholeEnd(input, old(offset)) == Some(offset)
    {
      if offset >= |input| { return false; }
      ok := true;
      if input[offset] == 0x30 {
        offset := offset + 1;
      } else {
        if input[offset] < 0x31 || input[offset] > 0x39 { return false; }
        SkipDigits();
      }
    }

    method ParseFraction() returns (ok: bool)
      requires offset <= |input|
      modifies this
      ensures offset <= |input| && ok == FractionEnd(input, old(offset)).Some?
      ensures ok ==> FractionEnd(input, old(offset)) == Some(offset)
    {
      ok := true;
      if offset < |input| && input[offset] == POINT {
        offset := offset + 1;
        var fraction := offset;
        SkipDigits();
        ok := offset != fraction;
      }
    }

    method ParseExponent() returns (ok: bool)
      requires offset <= |input|
      modifies this
      ensures offset <= |input| && ok == ExponentEnd(input, old(offset)).Some?
      ensures ok ==> ExponentEnd(input, old(offset)) == Some(offset)
    {
      ok := true;
      if offset < |input| && IsExponent(input[offset]) {
        offset := offset + 1;
        if offset < |input| && IsSign(input[offset]) { offset := offset + 1; }
        var exponent := offset;
        SkipDigits();
        ok := offset != exponent;
      }
    }

    /** A number: sign, whole part, fraction, exponent. */
    method ParseNumber() returns (r: Option<Json>)
      requires offset < |input|
      modifies this
      ensures offset <= |input|
      ensures r.None? <==> NumberEnd(input, old(offset)).None?
      ensures r.Some? ==> NumberEnd(input, old(offset)) == Some(offset) && r.value == Number(input[old(offset)..offset])
    {
      hide WholeEnd, FractionEnd, ExponentEnd;
      var begin := offset;
      if input[offset] == MINUS { offset := offset + 1; }
      var ok := ParseWhole();
      if !ok { return None; }
      ok := ParseFraction();
      if !ok { return None; }
      ok := ParseExponent();
      r := if ok then Some(Number(input[begin..offset])) else None;
    }

    /** Any value. */
    method ParseValue(depth: nat) returns (r: Option<Json>)
      requires offset <= |input|
      modifies this
      ensures offset <= |input|
      ensures r.None? <==> ValueAt(input, old(offset), depth).None?
      ensures r.Some? ==> ValueAt(input, old(offset), depth) == Some((r.value, offset))
      decreases |input| - offset, 1
    {
      hide ElementsAt, MembersAt, StringFrom, NumberEnd, LiteralAt;
      if depth > DEEPEST { return None; }
      SkipSpace();
      if offset >= |input| { return None; }
      var first := input[offset];
      if first == OPEN_OBJECT {
        r := ParseObject(depth + 1);
      } else if first == OPEN_LIST {
        r := ParseArray(depth + 1);
      } else if first == QUOTE {
        var text := ParseString();
        r := if text.None? then None else Some(Text(text.value));
      } else if first == TRUE[0] {
        r := ParseLiteral(TRUE, Boolean(true));
      } else if first == FALSE[0] {
        r := ParseLiteral(FALSE, Boolean(false));
      } else if first == NULL[0] {
        r := ParseLiteral(NULL, Null);
      } else if first == MINUS || IsDigit(first) {
        r := ParseNumber();
      } else {
        r := None;
      }
    }

    /** A list, from its opening bracket on. */
    method ParseArray(depth: nat) returns (r: Option<Json>)
      requires offset < |input| && input[offset] == OPEN_LIST
      modifies this
      ensures offset <= |input|
      ensures r.None? <==> ElementsAt(input, old(offset) + 1, depth).None?
      ensures r.Some? ==> r.value.List? && ElementsAt(input, old(offset) + 1, depth) == Some((r.value.elements, offset))
      decreases |input| - offset, 0
    {
      hide ValueAt, Behind;
      offset := offset + 1;
      ghost var start := offset;
      var close := Consume(CLOSE_LIST);
      if close { return Some(List([])); }
      ElementsBehindSpace(input, start, depth);
      var elements: seq<Json> := [];
      while true
        invariant start <= offset <= |input|
        invariant ElementsFrom(input, offset, depth, elements) == ElementsAt(input, start, depth)
        decreases |input| - offset
      {
        var value := ParseValue(depth);
        if value.None? { return None; }
        ghost var next := offset;
        close := Consume(CLOSE_LIST);
        if close { return Some(List(elements + [value.value])); }
        BehindFromSpace(input, next, COMMA);
        var comma := Consume(COMMA);
        if !comma { return None; }
        elements := elements + [value.value];
      }
    }

    /** An object, from its opening brace on; no key may come twice. */
    method ParseObject(depth: nat) returns (r: Option<Json>)
      requires offset < |input| && input[offset] == OPEN_OBJECT
      modifies this
      ensures offset <= |input|
      ensures r.None? <==> MembersAt(input, old(offset) + 1, depth).None?
      ensures r.Some? ==> r.value.Object? && MembersAt(input, old(offset) + 1, depth) == Some((r.value.members, offset))
      decreases |input| - offset, 0
    {
      hide ValueAt, Behind, StringAt;
      offset := offset + 1;
      ghost var start := offset;
      var close := Consume(CLOSE_OBJECT);
      if close { return Some(Object([])); }
      MembersBehindSpace(input, start, depth);
      var members: seq<Member> := [];
      while true
        invariant start <= offset <= |input|
        invariant MembersFrom(input, offset, depth, members) == MembersAt(input, start, depth)
        decreases |input| - offset
      {
        var key := ParseString();
        if key.None? { return None; }
        var colon := Consume(COLON);
        if !colon { return None; }
        if HasKey(members, key.value) { return None; }
        var value := ParseValue(depth);
        if value.None? { return None; }
        ghost var next := offset;
        close := Consume(CLOSE_OBJECT);
        if close { return Some(Object(members + [Member(key.value, value.value)])); }
        BehindFromSpace(input, next, COMMA);
        var comma := Consume(COMMA);
        if !comma { return None; }
        members := members + [Member(key.value, value.value)];
      }
    }

    /** A whole text. */
    method Parse() returns (r: Option<Json>)
      requires offset == 0
      modifies this
      ensures r == Parsed(input)
    {
      hide ValueAt;
      r := ParseValue(0);
      if r.None? { return; }
      SkipSpace();
      if offset != |input| { r := None; }
    }
  }

  lemma {:induction false} HexStops(input: seq<byte>, at: nat, k: nat, n: nat)
    requires k < n <= 4 && at + 4 <= |input| && HexValue(input[at + k]).None?
    ensures HexFrom(input, at, n).None?
  {
    hide HexValue;
    if k < n - 1 { HexStops(input, at, k, n - 1); }
  }

  /** Skipped space does not matter to what comes next. */
  lemma BehindFromSpace(input: seq<byte>, at: nat, c: byte)
    requires at <= |input|
    ensures Behind(input, AfterSpace(input, at), c) == Behind(input, at, c)
  {
    SpaceOnce(input, at);
  }

  lemma {:induction false} SpaceOnce(input: seq<byte>, at: nat)
    requires at <= |input|
    ensures AfterSpace(input, AfterSpace(input, at)) == AfterSpace(input, at)
    decreases |input| - at
  {
    if at < |input| && IsSpace(input[at]) { SpaceOnce(input, at + 1); }
  }

  lemma ElementsBehindSpace(input: seq<byte>, at: nat, depth: nat)
    requires at <= |input| && Behind(input, at, CLOSE_LIST).None?
    ensures ElementsFrom(input, AfterSpace(input, at), depth, []) == ElementsAt(input, at, depth)
  {
    SpaceOnce(input, at);
    ValueFromSpace(input, at, depth);
    hide ValueAt, Behind;
  }

  lemma ValueFromSpace(input: seq<byte>, at: nat, depth: nat)
    requires at <= |input|
    ensures ValueAt(input, AfterSpace(input, at), depth) == ValueAt(input, at, depth)
  {
    SpaceOnce(input, at);
    hide ElementsAt, MembersAt, StringFrom, NumberEnd, LiteralAt;
  }

  lemma MembersBehindSpace(input: seq<byte>, at: nat, depth: nat)
    requires at <= |input| && Behind(input, at, CLOSE_OBJECT).None?
    ensures MembersFrom(input, AfterSpace(input, at), depth, []) == MembersAt(input, at, depth)
  {
    SpaceOnce(input, at);
    assert StringAt(input, AfterSpace(input, at)) == StringAt(input, at);
    hide ValueAt, Behind, StringAt;
  }
}
