/** JSON strings (section 7 of RFC 8259): the writer's escaping and the metadata parser's reading of them. */
module JsonText {
  import opened Wrappers
  import opened Bytes

  const QUOTE: byte := 0x22
  const BACKSLASH: byte := 0x5c

  // ---------------------------------------------------------------- escaping

  /** One hexadecimal digit, in lower case. */
  function HexDigit(d: nat): byte
    requires d < 16
  {
    if d < 10 then 0x30 + d else 0x61 + (d - 10)
  }

  /** One byte as the writer puts it between quotes. */
  function EscapedByte(b: byte): (r: seq<byte>)
    ensures r != []
  {
    if b == QUOTE then [BACKSLASH, QUOTE]
    else if b == BACKSLASH then [BACKSLASH, BACKSLASH]
    else if b == 0x08 then [BACKSLASH, 0x62]
    else if b == 0x0c then [BACKSLASH, 0x66]
    else if b == 0x0a then [BACKSLASH, 0x6e]
    else if b == 0x0d then [BACKSLASH, 0x72]
    else if b == 0x09 then [BACKSLASH, 0x74]
    else if b < 0x20 then [BACKSLASH, 0x75, 0x30, 0x30, HexDigit(b / 16), HexDigit(b % 16)]
    else [b]
  }

  function Escaped(text: seq<byte>): seq<byte> {
    if text == [] then [] else EscapedByte(text[0]) + Escaped(text[1..])
  }

  method JsonEscape(text: seq<byte>) returns (output: seq<byte>)
    ensures output == Escaped(text)
  {
    hide EscapedByte;
    output := [];
    for k := 0 to |text|
      invariant output + Escaped(text[k..]) == Escaped(text)
    {
      assert text[k..][0] == text[k] && text[k..][1..] == text[k + 1..];
      output := output + EscapedByte(text[k]);
    }
    assert text[|text|..] == [] && Escaped([]) == [];
  }

  // ---------------------------------------------------------------- reading: specification

  function HexValue(c: byte): Option<nat> {
    if 0x30 <= c <= 0x39 then Some(c - 0x30)
    else if 0x61 <= c <= 0x66 then Some(c - 0x61 + 10)
    else if 0x41 <= c <= 0x46 then Some(c - 0x41 + 10)
    else None
  }

  /** The value of the first n of four hexadecimal digits. */
  function HexFrom(input: seq<byte>, at: nat, n: nat): (r: Option<nat>)
    requires n <= 4 && at + 4 <= |input|
    ensures r.Some? ==> r.value < Pow16(n)
  {
    if n == 0 then Some(0)
    else
      var before :- HexFrom(input, at, n - 1);
      var digit :- HexValue(input[at + n - 1]);
      Some(before * 16 + digit)
  }

  function Pow16(n: nat): nat { if n == 0 then 1 else 16 * Pow16(n - 1) }

  function Hex4(input: seq<byte>, at: nat): (r: Option<nat>)
    ensures r.Some? ==> at + 4 <= |input| && r.value < 0x1_0000
  {
    if at > |input| || |input| - at < 4 then None
    else
      assert Pow16(4) == 0x1_0000;
      HexFrom(input, at, 4)
  }

  /** The UTF-8 bytes of a code point. */
  function Utf8(c: nat): (r: seq<byte>)
    requires c < 0x11_0000
  {
    if c <= 0x7f then [c]
    else if c <= 0x7ff then [0xc0 + c / 64, 0x80 + c % 64]
    else if c <= 0xffff then [0xe0 + c / 4096, 0x80 + c / 64 % 64, 0x80 + c % 64]
    else [0xf0 + c / 0x4_0000, 0x80 + c / 4096 % 64, 0x80 + c / 64 % 64, 0x80 + c % 64]
  }

  /** A \u escape after its u: a code point, from one unit or a surrogate pair, and the offset after it. */
  function CodePointAt(input: seq<byte>, at: nat): (r: Option<(nat, nat)>)
    ensures r.Some? ==> r.value.0 < 0x11_0000 && at < r.value.1 <= |input|
  {
    var unit :- Hex4(input, at);
    if 0xd800 <= unit <= 0xdbff then
      if |input| - (at + 4) < 6 || input[at + 4] != BACKSLASH || input[at + 5] != 0x75 then None
      else
        var low :- Hex4(input, at + 6);
        if low < 0xdc00 || low > 0xdfff then None
        else Some((0x1_0000 + (unit - 0xd800) * 1024 + (low - 0xdc00), at + 10))
    else if 0xdc00 <= unit <= 0xdfff then None
    else Some((unit, at + 4))
  }

  /** What an escape stands for, and the offset after it; `at` is the byte after the backslash. */
  function EscapeAt(input: seq<byte>, at: nat): (r: Option<(seq<byte>, nat)>)
    ensures r.Some? ==> at < r.value.1 <= |input|
  {
    if at >= |input| then None
    else
      var c := input[at];
      if c == QUOTE || c == BACKSLASH || c == 0x2f then Some(([c], at + 1))
      else if c == 0x62 then Some(([0x08], at + 1))
      else if c == 0x66 then Some(([0x0c], at + 1))
      else if c == 0x6e then Some(([0x0a], at + 1))
      else if c == 0x72 then Some(([0x0d], at + 1))
      else if c == 0x74 then Some(([0x09], at + 1))
      else if c == 0x75 then
        var (point, next) :- CodePointAt(input, at + 1);
        Some((Utf8(point), next))
      else None
  }

  /** The rest of a string after its opening quote, and the offset after the closing one. */
  function StringFrom(input: seq<byte>, at: nat, known: seq<byte>): (r: Option<(seq<byte>, nat)>)
    ensures r.Some? ==> at < r.value.1 <= |input| && known <= r.value.0
    decreases if at <= |input| then |input| - at else 0
  {
    if at >= |input| then None
    else
      var c := input[at];
      if c == QUOTE then Some((known, at + 1))
      else if c < 0x20 then None
      else if c != BACKSLASH then StringFrom(input, at + 1, known + [c])
      else
        var (bytes, next) :- EscapeAt(input, at + 1);
        StringFrom(input, next, known + bytes)
  }

  function IsSpace(c: byte): bool { c == 0x20 || c == 0x0a || c == 0x0d || c == 0x09 }

  function AfterSpace(input: seq<byte>, at: nat): (r: nat)
    requires at <= |input|
    ensures at <= r <= |input|
    decreases |input| - at
  {
    if at < |input| && IsSpace(input[at]) then AfterSpace(input, at + 1) else at
  }

  /** A string with its quotes, after leading space. */
  function StringAt(input: seq<byte>, at: nat): (r: Option<(seq<byte>, nat)>)
    requires at <= |input|
    ensures r.Some? ==> at < r.value.1 <= |input|
  {
    var start := AfterSpace(input, at);
    if start < |input| && input[start] == QUOTE then StringFrom(input, start + 1, []) else None
  }

  // ---------------------------------------------------------------- reading what was written

  /** A two-byte escape reads as its byte. */
  lemma ShortReads(input: seq<byte>, n: nat, b: byte)
    requires |EscapedByte(b)| == 2 && n + 2 <= |input| && input[n + 1] == EscapedByte(b)[1]
    ensures EscapeAt(input, n + 1) == Some(([b], n + 2)) && EscapedByte(b)[0] == BACKSLASH
  {
    hide CodePointAt, Utf8, HexDigit;
  }

  lemma PlainOrLong(b: byte)
    ensures |EscapedByte(b)| == 1 ==> EscapedByte(b) == [b] && b >= 0x20 && b != QUOTE && b != BACKSLASH
    ensures |EscapedByte(b)| == 1 || |EscapedByte(b)| == 2 || |EscapedByte(b)| == 6
    ensures |EscapedByte(b)| == 6 ==> b < 0x20
    ensures |EscapedByte(b)| == 6 ==> EscapedByte(b) == [BACKSLASH, 0x75, 0x30, 0x30, HexDigit(b / 16), HexDigit(b % 16)]
  {
    hide HexDigit;
  }

  lemma PlainByte(input: seq<byte>, n: nat, known: seq<byte>)
    requires n < |input| && input[n] >= 0x20 && input[n] != QUOTE && input[n] != BACKSLASH
    ensures StringFrom(input, n, known) == StringFrom(input, n + 1, known + [input[n]])
  {
    hide EscapeAt;
  }

  lemma Middle(before: seq<byte>, e: seq<byte>, after: seq<byte>)
    ensures (before + e + after)[|before|..|before| + |e|] == e
  {
  }

  /** One escaped byte reads as that byte. */
  lemma ByteReads(input: seq<byte>, n: nat, b: byte, known: seq<byte>)
    requires n + |EscapedByte(b)| <= |input| && input[n..n + |EscapedByte(b)|] == EscapedByte(b)
    ensures StringFrom(input, n, known) == StringFrom(input, n + |EscapedByte(b)|, known + [b])
  {
    PlainOrLong(b);
    hide *;
    var e := EscapedByte(b);
    var part := input[n..n + |e|];
    if |e| == 6 {
      assert part[0] == input[n] && part[1] == input[n + 1] && part[2] == input[n + 2];
      assert part[3] == input[n + 3] && part[4] == input[n + 4] && part[5] == input[n + 5];
      ControlReads(input, n, b);
      ShortEscape(input, n, known);
    } else if |e| == 2 {
      assert part[0] == input[n] && part[1] == input[n + 1];
      ShortReads(input, n, b);
      ShortEscape(input, n, known);
    } else {
      assert part[0] == input[n];
      PlainByte(input, n, known);
    }
  }

  lemma ShortEscape(input: seq<byte>, n: nat, known: seq<byte>)
    requires n + 1 < |input| && input[n] == BACKSLASH && EscapeAt(input, n + 1).Some?
    ensures var (bytes, next) := EscapeAt(input, n + 1).value;
      StringFrom(input, n, known) == StringFrom(input, next, known + bytes)
  {
    hide EscapeAt;
  }

  /** A control character's \u escape reads as that character. */
  lemma ControlReads(input: seq<byte>, n: nat, b: byte)
    requires b < 0x20 && n + 6 <= |input| && input[n] == BACKSLASH && input[n + 1] == 0x75
    requires input[n + 2] == 0x30 && input[n + 3] == 0x30
    requires input[n + 4] == HexDigit(b / 16) && input[n + 5] == HexDigit(b % 16)
    ensures EscapeAt(input, n + 1) == Some(([b], n + 6))
  {
    HexDigitValue(b / 16);
    HexDigitValue(b % 16);
    var at := n + 2;
    assert HexFrom(input, at, 1) == Some(0);
    assert HexFrom(input, at, 2) == Some(0);
    assert HexFrom(input, at, 3) == Some(b / 16);
    assert HexFrom(input, at, 4) == Some(b / 16 * 16 + b % 16);
    assert Hex4(input, at) == Some(b);
  }

  lemma HexDigitValue(d: nat)
    requires d < 16
    ensures HexValue(HexDigit(d)) == Some(d)
  {
  }

  /** Reading an escaped text up to its closing quote gives the text back, byte for byte, wherever it stands. */
  lemma {:induction false} EscapeRoundTrip(before: seq<byte>, text: seq<byte>, after: seq<byte>, known: seq<byte>)
    ensures var input := before + Escaped(text) + [QUOTE] + after;
      StringFrom(input, |before|, known) == Some((known + text, |before| + |Escaped(text)| + 1))
    decreases |text|
  {
    EscapedStep(text);
    hide *;
    if text == [] {
      ClosingQuote(before, after, known);
      assert known + text == known;
    } else {
      EscapeStep(before, text[0], Escaped(text[1..]), after, known);
      EscapeRoundTrip(before + EscapedByte(text[0]), text[1..], after, known + [text[0]]);
      assert known + [text[0]] + text[1..] == known + text;
    }
  }

  lemma EscapedStep(text: seq<byte>)
    ensures text == [] ==> Escaped(text) == []
    ensures text != [] ==> Escaped(text) == EscapedByte(text[0]) + Escaped(text[1..])
  {
  }

  lemma ClosingQuote(before: seq<byte>, after: seq<byte>, known: seq<byte>)
    ensures StringFrom(before + [] + [QUOTE] + after, |before|, known) == Some((known, |before| + 1))
  {
    hide EscapeAt;
    assert (before + [] + [QUOTE] + after)[|before|] == QUOTE;
  }

  lemma EscapeStep(before: seq<byte>, b: byte, rest: seq<byte>, after: seq<byte>, known: seq<byte>)
    ensures var e := EscapedByte(b);
      StringFrom(before + (e + rest) + [QUOTE] + after, |before|, known)
      == StringFrom((before + e) + rest + [QUOTE] + after, |before| + |e|, known + [b])
  {
    hide *;
    var e := EscapedByte(b);
    Regroup(before, e, rest, after);
    Middle(before, e, rest + [QUOTE] + after);
    ByteReads(before + e + (rest + [QUOTE] + after), |before|, b, known);
  }

  lemma Regroup(before: seq<byte>, e: seq<byte>, rest: seq<byte>, after: seq<byte>)
    ensures before + (e + rest) + [QUOTE] + after == before + e + (rest + [QUOTE] + after)
    ensures before + (e + rest) + [QUOTE] + after == (before + e) + rest + [QUOTE] + after
  {
  }

  /** A quoted, escaped name reads back as the name. */
  lemma QuotedNameReads(before: seq<byte>, name: seq<byte>, after: seq<byte>)
    ensures var input := before + [QUOTE] + Escaped(name) + [QUOTE] + after;
      StringAt(input, |before|) == Some((name, |before| + 1 + |Escaped(name)| + 1))
  {
    hide StringFrom, Escaped;
    var input := before + [QUOTE] + Escaped(name) + [QUOTE] + after;
    EscapeRoundTrip(before + [QUOTE], name, after, []);
    assert input[|before|] == QUOTE;
    assert [] + name == name;
  }
}
