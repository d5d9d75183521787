/** The written forms of JSON strings and numbers (sections 6 and 7 of RFC 8259), and that the parser reads just these. */
module JsonForms {
  import opened Wrappers
  import opened Bytes
  import opened Decimals
  import opened JsonText
  import opened JsonTree

  // ---------------------------------------------------------------- hexadecimal words

  predicate IsHex(c: byte) {
    0x30 <= c <= 0x39 || 0x41 <= c <= 0x46 || 0x61 <= c <= 0x66
  }

  /** A digit's value, in either case. */
  function DigitOf(c: byte): (d: nat)
    requires IsHex(c)
    ensures d < 16
  {
    if c <= 0x39 then c - 0x30 else if c <= 0x46 then c - 0x37 else c - 0x57
  }

  predicate IsHexWord(u: seq<byte>) {
    |u| == 4 && IsHex(u[0]) && IsHex(u[1]) && IsHex(u[2]) && IsHex(u[3])
  }

  function WordOf(u: seq<byte>): (w: nat)
    requires IsHexWord(u)
    ensures w < 0x1_0000
  {
    4096 * DigitOf(u[0]) + 256 * DigitOf(u[1]) + 16 * DigitOf(u[2]) + DigitOf(u[3])
  }

  lemma HexIs(c: byte)
    ensures HexValue(c) == if IsHex(c) then Some(DigitOf(c)) else None
  {
  }

  lemma Hex4Is(input: seq<byte>, at: nat)
    ensures Hex4(input, at)
         == if at + 4 <= |input| && IsHexWord(input[at..at + 4]) then Some(WordOf(input[at..at + 4])) else None
  {
    if at + 4 <= |input| {
      hide HexValue, IsHex, DigitOf;
      var u := input[at..at + 4];
      HexIs(u[0]);
      HexIs(u[1]);
      HexIs(u[2]);
      HexIs(u[3]);
      assert HexFrom(input, at, 1) == if IsHex(u[0]) then Some(DigitOf(u[0])) else None;
      assert HexFrom(input, at, 2) == if IsHex(u[0]) && IsHex(u[1]) then Some(16 * DigitOf(u[0]) + DigitOf(u[1])) else None;
      assert HexFrom(input, at, 3)
        == if IsHex(u[0]) && IsHex(u[1]) && IsHex(u[2]) then Some(256 * DigitOf(u[0]) + 16 * DigitOf(u[1]) + DigitOf(u[2])) else None;
    }
  }

  // ---------------------------------------------------------------- UTF-8

  predicate IsTail(b: byte) { 0x80 <= b < 0xc0 }

  function Over(b: int, base: int): int { b - base }

  /** The code point that bytes stand for: six bits from every tail byte, the rest from the first one. */
  function PointOf(s: seq<byte>): Option<int> {
    if |s| == 1 && s[0] < 0x80 then Some(s[0])
    else if |s| == 2 && 0xc0 <= s[0] < 0xe0 && IsTail(s[1]) then Some(64 * Over(s[0], 0xc0) + Over(s[1], 0x80))
    else if |s| == 3 && 0xe0 <= s[0] < 0xf0 && IsTail(s[1]) && IsTail(s[2]) then
      Some(4096 * Over(s[0], 0xe0) + 64 * Over(s[1], 0x80) + Over(s[2], 0x80))
    else if |s| == 4 && 0xf0 <= s[0] < 0xf8 && IsTail(s[1]) && IsTail(s[2]) && IsTail(s[3]) then
      Some(0x4_0000 * Over(s[0], 0xf0) + 4096 * Over(s[1], 0x80) + 64 * Over(s[2], 0x80) + Over(s[3], 0x80))
    else None
  }

  /** The bytes of a code point stand for it, and there are as few of them as can. */
  lemma Utf8Means(c: nat)
    requires c < 0x11_0000
    ensures PointOf(Utf8(c)) == Some(c)
    ensures |Utf8(c)| == if c < 0x80 then 1 else if c < 0x800 then 2 else if c < 0x1_0000 then 3 else 4
  {
    assert c == c / 64 * 64 + c % 64;
    assert c / 64 == c / 4096 * 64 + c / 64 % 64;
    assert c / 4096 == c / 0x4_0000 * 64 + c / 4096 % 64;
  }

  // ---------------------------------------------------------------- strings

  /** A piece of a written string; words are four hexadecimal digits of either case. */
  datatype Part =
    | Plain(b: byte)
    | Named(c: byte)
    | Word(u: seq<byte>)
    | Pair(u: seq<byte>, v: seq<byte>)

  predicate Legal(p: Part) {
    match p
    case Plain(b) => b >= 0x20 && b != 0x22 && b != 0x5c
    case Named(c) => c == 0x22 || c == 0x5c || c == 0x2f || c == 0x62 || c == 0x66 || c == 0x6e || c == 0x72 || c == 0x74
    case Word(u) => IsHexWord(u) && !(0xd800 <= WordOf(u) < 0xe000)
    case Pair(u, v) => IsHexWord(u) && IsHexWord(v) && 0xd800 <= WordOf(u) < 0xdc00 <= WordOf(v) < 0xe000
  }

  function Text(p: Part): (s: seq<byte>)
    ensures s != []
  {
    match p
    case Plain(b) => [b]
    case Named(c) => [0x5c, c]
    case Word(u) => [0x5c, 0x75] + u
    case Pair(u, v) => [0x5c, 0x75] + u + ([0x5c, 0x75] + v)
  }

  /** The names of control characters; a quote, a backslash and a slash name themselves. */
  function NamedByte(c: byte): byte {
    if c == 0x62 then 0x08 else if c == 0x66 then 0x0c else if c == 0x6e then 0x0a else if c == 0x72 then 0x0d
    else if c == 0x74 then 0x09 else c
  }

  function Meaning(p: Part): seq<byte>
    requires Legal(p)
  {
    match p
    case Plain(b) => [b]
    case Named(c) => [NamedByte(c)]
    case Word(u) => Utf8(WordOf(u))
    case Pair(u, v) => Utf8(0x1_0000 + (WordOf(u) - 0xd800) * 0x400 + (WordOf(v) - 0xdc00))
  }

  predicate AllLegal(parts: seq<Part>) {
    parts == [] || (Legal(parts[0]) && AllLegal(parts[1..]))
  }

  function Texts(parts: seq<Part>): seq<byte> {
    if parts == [] then [] else Text(parts[0]) + Texts(parts[1..])
  }

  function Meanings(parts: seq<Part>): seq<byte>
    requires AllLegal(parts)
  {
    if parts == [] then [] else Meaning(parts[0]) + Meanings(parts[1..])
  }

  /** An escape's first two bytes and its four digits. */
  lemma WordPlaces(input: seq<byte>, at: nat, u: seq<byte>)
    requires StartsAt(input, at, [0x5c, 0x75] + u) && |u| == 4
    ensures at + 6 <= |input| && input[at] == BACKSLASH && input[at + 1] == 0x75 && input[at + 2..at + 6] == u
  {
    var part := input[at..at + 6];
    assert part[0] == input[at] && part[1] == input[at + 1] && part[2..] == input[at + 2..at + 6];
  }

  lemma TwoPlaces(input: seq<byte>, at: nat, c: byte)
    requires StartsAt(input, at, [0x5c, c])
    ensures at + 2 <= |input| && input[at] == BACKSLASH && input[at + 1] == c
  {
    var part := input[at..at + 2];
    assert part[0] == input[at] && part[1] == input[at + 1];
  }

  lemma OnePlace(input: seq<byte>, at: nat, c: byte)
    requires StartsAt(input, at, [c])
    ensures at < |input| && input[at] == c
  {
    assert input[at..at + 1][0] == input[at];
  }

  lemma StartsBoth(input: seq<byte>, at: nat, a: seq<byte>, b: seq<byte>)
    ensures StartsAt(input, at, a + b) <==> StartsAt(input, at, a) && StartsAt(input, at + |a|, b)
  {
    if StartsAt(input, at, a + b) {
      assert input[at..at + |a + b|][..|a|] == a && input[at..at + |a + b|][|a|..] == b;
      assert input[at..at + |a|] == input[at..at + |a + b|][..|a|];
      assert input[at + |a|..at + |a| + |b|] == input[at..at + |a + b|][|a|..];
    }
    if StartsAt(input, at, a) && StartsAt(input, at + |a|, b) {
      assert input[at..at + |a + b|] == input[at..at + |a|] + input[at + |a|..at + |a| + |b|];
    }
  }

  lemma NamedReads(input: seq<byte>, at: nat, c: byte)
    requires Legal(Named(c)) && at + 2 <= |input| && input[at + 1] == c
    ensures EscapeAt(input, at + 1) == Some(([NamedByte(c)], at + 2))
  {
    hide CodePointAt, Utf8;
  }

  lemma PointReads(input: seq<byte>, at: nat, point: nat, next: nat)
    requires at + 2 <= |input| && input[at + 1] == 0x75 && CodePointAt(input, at + 2) == Some((point, next))
    ensures EscapeAt(input, at + 1) == Some((Utf8(point), next))
  {
    hide CodePointAt, Utf8;
  }

  lemma WordReads(input: seq<byte>, at: nat, u: seq<byte>)
    requires Legal(Word(u)) && at + 4 <= |input| && input[at..at + 4] == u
    ensures CodePointAt(input, at) == Some((WordOf(u), at + 4))
  {
    Hex4Is(input, at);
    hide Hex4, IsHexWord, WordOf;
  }

  lemma PairReads(input: seq<byte>, at: nat, u: seq<byte>, v: seq<byte>)
    requires Legal(Pair(u, v)) && at + 10 <= |input| && input[at..at + 4] == u && input[at + 6..at + 10] == v
    requires input[at + 4] == BACKSLASH && input[at + 5] == 0x75
    ensures CodePointAt(input, at) == Some((0x1_0000 + (WordOf(u) - 0xd800) * 0x400 + (WordOf(v) - 0xdc00), at + 10))
  {
    Hex4Is(input, at);
    Hex4Is(input, at + 6);
    hide Hex4, IsHexWord, WordOf;
  }

  lemma EscapeReads(input: seq<byte>, at: nat, p: Part)
    requires Legal(p) && !p.Plain? && StartsAt(input, at, Text(p))
    ensures input[at] == BACKSLASH && EscapeAt(input, at + 1) == Some((Meaning(p), at + |Text(p)|))
  {
    hide EscapeAt, CodePointAt, Utf8, WordOf, StartsAt;
    match p {
      case Named(c) =>
        TwoPlaces(input, at, c);
        NamedReads(input, at, c);
      case Word(u) =>
        WordPlaces(input, at, u);
        WordReads(input, at + 2, u);
        PointReads(input, at, WordOf(u), at + 6);
      case Pair(u, v) =>
        StartsBoth(input, at, [0x5c, 0x75] + u, [0x5c, 0x75] + v);
        WordPlaces(input, at, u);
        WordPlaces(input, at + 6, v);
        PairReads(input, at + 2, u, v);
        PointReads(input, at, 0x1_0000 + (WordOf(u) - 0xd800) * 0x400 + (WordOf(v) - 0xdc00), at + 12);
      case _ =>
    }
  }

  lemma PartReads(input: seq<byte>, at: nat, p: Part, known: seq<byte>)
    requires Legal(p) && StartsAt(input, at, Text(p))
    ensures StringFrom(input, at, known) == StringFrom(input, at + |Text(p)|, known + Meaning(p))
  {
    if p.Plain? {
      OnePlace(input, at, p.b);
      hide EscapeAt, StartsAt;
    } else {
      EscapeReads(input, at, p);
      hide EscapeAt, StartsAt, Text, Meaning, Legal;
    }
  }

  /** A written string is read as its meaning. */
  lemma {:induction false} PartsRead(input: seq<byte>, at: nat, parts: seq<Part>, known: seq<byte>)
    requires AllLegal(parts) && StartsAt(input, at, Texts(parts) + [QUOTE])
    ensures StringFrom(input, at, known) == Some((known + Meanings(parts), at + |Texts(parts)| + 1))
    decreases |parts|
  {
    hide *;
    StartsBoth(input, at, Texts(parts), [QUOTE]);
    if parts == [] {
      OnePlace(input, at + |Texts([])|, QUOTE);
      NoParts(input, at, known);
    } else {
      var p, rest := parts[0], parts[1..];
      PartsStep(parts);
      StartsBoth(input, at, Text(p), Texts(rest));
      StartsBoth(input, at + |Text(p)|, Texts(rest), [QUOTE]);
      PartReads(input, at, p, known);
      PartsRead(input, at + |Text(p)|, rest, known + Meaning(p));
      assert known + Meaning(p) + Meanings(rest) == known + (Meaning(p) + Meanings(rest));
    }
  }

  lemma PartsStep(parts: seq<Part>)
    requires AllLegal(parts) && parts != []
    ensures Legal(parts[0]) && AllLegal(parts[1..]) && Texts(parts) == Text(parts[0]) + Texts(parts[1..])
    ensures Meanings(parts) == Meaning(parts[0]) + Meanings(parts[1..])
  {
    hide Text, Meaning, Legal;
  }

  lemma NoParts(input: seq<byte>, at: nat, known: seq<byte>)
    ensures |Texts([])| == 0 && known + Meanings([]) == known && AllLegal([])
    ensures at < |input| && input[at] == QUOTE ==> StringFrom(input, at, known) == Some((known, at + 1))
    ensures at < |input| && input[at] == QUOTE ==> StartsAt(input, at, Texts([]) + [QUOTE])
  {
    hide EscapeAt;
    if at < |input| && input[at] == QUOTE { assert input[at..at + 1] == [QUOTE] == Texts([]) + [QUOTE]; }
  }

  lemma NamedWritten(input: seq<byte>, at: nat)
    requires at + 2 <= |input| && input[at] == BACKSLASH && input[at + 1] != 0x75 && EscapeAt(input, at + 1).Some?
    ensures var p := Named(input[at + 1]);
      Legal(p) && EscapeAt(input, at + 1) == Some((Meaning(p), at + |Text(p)|)) && StartsAt(input, at, Text(p))
  {
    hide CodePointAt, Utf8;
    assert input[at..at + 2] == [0x5c, input[at + 1]];
  }

  lemma PointWritten(input: seq<byte>, at: nat) returns (p: Part)
    requires CodePointAt(input, at).Some?
    ensures Legal(p) && (p.Word? || p.Pair?)
    ensures p.Word? ==> at + 4 <= |input| && p.u == input[at..at + 4] && CodePointAt(input, at) == Some((WordOf(p.u), at + 4))
    ensures p.Pair? ==> at + 10 <= |input| && p.u == input[at..at + 4] && p.v == input[at + 6..at + 10]
    ensures p.Pair? ==> input[at + 4] == BACKSLASH && input[at + 5] == 0x75
    ensures p.Pair? ==>
      CodePointAt(input, at) == Some((0x1_0000 + (WordOf(p.u) - 0xd800) * 0x400 + (WordOf(p.v) - 0xdc00), at + 10))
  {
    Hex4Is(input, at);
    Hex4Is(input, at + 6);
    hide Hex4, IsHexWord, WordOf;
    var u := input[at..at + 4];
    p := if 0xd800 <= WordOf(u) <= 0xdbff then Pair(u, input[at + 6..at + 10]) else Word(u);
  }

  lemma WordSpelt(input: seq<byte>, at: nat)
    requires at + 6 <= |input| && input[at] == BACKSLASH && input[at + 1] == 0x75
    ensures StartsAt(input, at, [0x5c, 0x75] + input[at + 2..at + 6])
  {
    assert input[at..at + 6] == [0x5c, 0x75] + input[at + 2..at + 6];
  }

  lemma PointNeeded(input: seq<byte>, at: nat)
    requires at + 2 <= |input| && input[at + 1] == 0x75 && EscapeAt(input, at + 1).Some?
    ensures CodePointAt(input, at + 2).Some?
  {
    hide CodePointAt, Utf8;
  }

  lemma WrittenEscape(input: seq<byte>, at: nat) returns (p: Part)
    requires at < |input| && input[at] == BACKSLASH && EscapeAt(input, at + 1).Some?
    ensures Legal(p) && EscapeAt(input, at + 1) == Some((Meaning(p), at + |Text(p)|)) && StartsAt(input, at, Text(p))
  {
    EscapeInside(input, at);
    hide *;
    if input[at + 1] != 0x75 {
      p := Named(input[at + 1]);
      NamedWritten(input, at);
    } else {
      p := WrittenPoint(input, at);
    }
  }

  lemma WrittenPoint(input: seq<byte>, at: nat) returns (p: Part)
    requires at + 2 <= |input| && input[at] == BACKSLASH && input[at + 1] == 0x75 && EscapeAt(input, at + 1).Some?
    ensures Legal(p) && EscapeAt(input, at + 1) == Some((Meaning(p), at + |Text(p)|)) && StartsAt(input, at, Text(p))
  {
    hide *;
    PointNeeded(input, at);
    p := PointWritten(input, at + 2);
    PointSpelt(p);
    var (point, next) := CodePointAt(input, at + 2).value;
    PointReads(input, at, point, next);
    WordSpelt(input, at);
    if p.Pair? { PairSpelt(input, at, p.u, p.v); }
  }

  lemma PairSpelt(input: seq<byte>, at: nat, u: seq<byte>, v: seq<byte>)
    requires at + 12 <= |input| && input[at] == BACKSLASH && input[at + 1] == 0x75 && u == input[at + 2..at + 6]
    requires input[at + 6] == BACKSLASH && input[at + 7] == 0x75 && v == input[at + 8..at + 12]
    ensures StartsAt(input, at, [0x5c, 0x75] + u + ([0x5c, 0x75] + v))
  {
    hide StartsAt;
    WordSpelt(input, at);
    WordSpelt(input, at + 6);
    StartsBoth(input, at, [0x5c, 0x75] + u, [0x5c, 0x75] + v);
  }

  lemma EscapeInside(input: seq<byte>, at: nat)
    requires EscapeAt(input, at + 1).Some?
    ensures at + 2 <= |input|
  {
    hide CodePointAt, Utf8;
  }

  lemma PointSpelt(p: Part)
    requires Legal(p)
    ensures p.Word? ==> Text(p) == [0x5c, 0x75] + p.u && |Text(p)| == 6 && Meaning(p) == Utf8(WordOf(p.u))
    ensures p.Pair? ==> Text(p) == [0x5c, 0x75] + p.u + ([0x5c, 0x75] + p.v) && |Text(p)| == 12
    ensures p.Pair? ==> Meaning(p) == Utf8(0x1_0000 + (WordOf(p.u) - 0xd800) * 0x400 + (WordOf(p.v) - 0xdc00))
  {
    hide Utf8, WordOf;
  }

  /** And nothing else is read. */
  lemma {:induction false} WrittenParts(input: seq<byte>, at: nat, known: seq<byte>) returns (parts: seq<Part>)
    requires StringFrom(input, at, known).Some?
    ensures IsWritten(input, at, known, parts)
    decreases if at <= |input| then |input| - at else 0
  {
    StringInside(input, at, known);
    hide *;
    if input[at] == QUOTE {
      parts := [];
      NothingWritten(input, at, known);
    } else {
      var p := WrittenPart(input, at, known);
      var rest := WrittenParts(input, at + |Text(p)|, known + Meaning(p));
      parts := [p] + rest;
      MoreWritten(input, at, known, p, rest);
    }
  }

  /** The string at a place is written as these parts. */
  ghost predicate IsWritten(input: seq<byte>, at: nat, known: seq<byte>, parts: seq<Part>) {
    && AllLegal(parts) && StartsAt(input, at, Texts(parts) + [QUOTE])
    && StringFrom(input, at, known) == Some((known + Meanings(parts), at + |Texts(parts)| + 1))
  }

  lemma NothingWritten(input: seq<byte>, at: nat, known: seq<byte>)
    requires at < |input| && input[at] == QUOTE
    ensures IsWritten(input, at, known, [])
  {
    hide StringFrom, StartsAt;
    NoParts(input, at, known);
  }

  lemma MoreWritten(input: seq<byte>, at: nat, known: seq<byte>, p: Part, rest: seq<Part>)
    requires Legal(p) && StartsAt(input, at, Text(p))
    requires StringFrom(input, at, known) == StringFrom(input, at + |Text(p)|, known + Meaning(p))
    requires IsWritten(input, at + |Text(p)|, known + Meaning(p), rest)
    ensures IsWritten(input, at, known, [p] + rest)
  {
    hide StringFrom, StartsAt, Text, Texts, Meaning, Meanings, Legal, AllLegal;
    Together(input, at, p, rest);
    assert known + Meaning(p) + Meanings(rest) == known + (Meaning(p) + Meanings(rest));
  }

  lemma StringInside(input: seq<byte>, at: nat, known: seq<byte>)
    requires StringFrom(input, at, known).Some?
    ensures at < |input|
  {
  }

  lemma Together(input: seq<byte>, at: nat, p: Part, rest: seq<Part>)
    requires Legal(p) && AllLegal(rest) && StartsAt(input, at, Text(p)) && StartsAt(input, at + |Text(p)|, Texts(rest) + [QUOTE])
    ensures AllLegal([p] + rest) && Meanings([p] + rest) == Meaning(p) + Meanings(rest)
    ensures StartsAt(input, at, Texts([p] + rest) + [QUOTE]) && |Texts([p] + rest)| == |Text(p)| + |Texts(rest)|
  {
    hide StartsAt, Text, Meaning, Legal;
    assert ([p] + rest)[1..] == rest;
    StartsBoth(input, at, Text(p), Texts(rest) + [QUOTE]);
    assert Text(p) + (Texts(rest) + [QUOTE]) == Texts([p] + rest) + [QUOTE];
  }

  lemma WrittenPart(input: seq<byte>, at: nat, known: seq<byte>) returns (p: Part)
    requires StringFrom(input, at, known).Some? && at < |input| && input[at] != QUOTE
    ensures Legal(p) && StartsAt(input, at, Text(p))
    ensures StringFrom(input, at, known) == StringFrom(input, at + |Text(p)|, known + Meaning(p))
    ensures at + |Text(p)| <= |input|
  {
    hide EscapeAt;
    if input[at] == BACKSLASH {
      p := WrittenEscape(input, at);
      hide Legal, Text, Meaning, StartsAt;
    } else {
      p := Plain(input[at]);
      assert input[at..at + 1] == [input[at]];
    }
  }

  /** A string is read exactly when it is written in these forms up to a quote, and then as their meaning. */
  lemma StringIsWritten(input: seq<byte>, at: nat, text: seq<byte>, next: nat)
    ensures StringFrom(input, at, []) == Some((text, next)) <==>
      exists parts: seq<Part> ::
        AllLegal(parts) && StartsAt(input, at, Texts(parts) + [QUOTE]) && text == Meanings(parts) && next == at + |Texts(parts)| + 1
  {
    hide StringFrom, StartsAt, Texts, Meanings, AllLegal;
    if StringFrom(input, at, []) == Some((text, next)) {
      var parts := WrittenParts(input, at, []);
      assert IsWritten(input, at, [], parts);
      assert [] + Meanings(parts) == Meanings(parts);
    }
    forall parts: seq<Part> | AllLegal(parts) && StartsAt(input, at, Texts(parts) + [QUOTE])
      ensures StringFrom(input, at, []) == Some((Meanings(parts), at + |Texts(parts)| + 1))
    {
      PartsRead(input, at, parts, []);
      assert [] + Meanings(parts) == Meanings(parts);
    }
  }

  // ---------------------------------------------------------------- numbers

  /** A written number: a sign, a whole part without leading zeros, and maybe a fraction and an exponent. */
  datatype Numeral = Numeral(minus: bool, whole: seq<byte>, fraction: seq<byte>, exponent: seq<byte>)

  predicate SomeDigits(s: seq<byte>) { s != [] && AllDigits(s) }

  predicate LegalNumeral(n: Numeral) {
    && SomeDigits(n.whole) && (n.whole[0] == 0x30 ==> |n.whole| == 1)
    && (n.fraction != [] ==> n.fraction[0] == 0x2e && SomeDigits(n.fraction[1..]))
    && (n.exponent != [] ==>
          && (n.exponent[0] == 0x65 || n.exponent[0] == 0x45)
          && (SomeDigits(n.exponent[1..])
              || (|n.exponent| > 1 && (n.exponent[1] == 0x2b || n.exponent[1] == 0x2d) && SomeDigits(n.exponent[2..]))))
  }

  function NumeralText(n: Numeral): seq<byte> {
    (if n.minus then [0x2d] else []) + n.whole + n.fraction + n.exponent
  }

  lemma {:induction false} DigitsEndIs(input: seq<byte>, at: nat, end: nat)
    requires at <= end <= |input|
    ensures DigitsEnd(input, at) == end <==> AllDigits(input[at..end]) && (end < |input| ==> !IsDigit(input[end]))
    decreases end - at
  {
    if at < end {
      assert input[at..end][0] == input[at] && input[at..end][1..] == input[at + 1..end];
      if IsDigit(input[at]) { DigitsEndIs(input, at + 1, end); }
      AllDigitsStep(input[at..end]);
    }
  }

  lemma AllDigitsStep(s: seq<byte>)
    requires s != []
    ensures AllDigits(s) <==> IsDigit(s[0]) && AllDigits(s[1..])
  {
    if IsDigit(s[0]) && AllDigits(s[1..]) {
      forall i | 0 <= i < |s| ensures IsDigit(s[i]) { if i > 0 { assert s[i] == s[1..][i - 1]; } }
    }
    if AllDigits(s) {
      forall i | 0 <= i < |s| - 1 ensures IsDigit(s[1..][i]) { assert s[1..][i] == s[i + 1]; }
    }
  }

  /** What can follow a run of digits. */
  predicate NoDigitAt(input: seq<byte>, at: nat) {
    at >= |input| || !IsDigit(input[at])
  }

  lemma NumeralFrom(t: seq<byte>) returns (n: Numeral)
    requires NumberEnd(t, 0) == Some(|t|)
    ensures LegalNumeral(n) && t == NumeralText(n)
  {
    hide *;
    var s, w, f := NumberParts(t);
    n := Numeral(s == 1, t[s..w], t[w..f], t[f..]);
    WholeWritten(t, s);
    FractionWritten(t, w);
    ExponentWritten(t, f);
    NumeralLegal(n);
    NumeralSpelt(t, n, s, w, f);
  }

  lemma NumberParts(t: seq<byte>) returns (s: nat, w: nat, f: nat)
    requires NumberEnd(t, 0) == Some(|t|)
    ensures s < w <= f <= |t| && s <= 1 && (s == 1 ==> t[0] == 0x2d)
    ensures WholeEnd(t, s) == Some(w) && FractionEnd(t, w) == Some(f) && ExponentEnd(t, f) == Some(|t|)
  {
    hide WholeEnd, FractionEnd, ExponentEnd;
    s := if t != [] && t[0] == MINUS then 1 else 0;
    w := WholeEnd(t, s).value;
    f := FractionEnd(t, w).value;
  }

  lemma NumeralLegal(n: Numeral)
    requires SomeDigits(n.whole) && (n.whole[0] == 0x30 ==> |n.whole| == 1)
    requires n.fraction != [] ==> n.fraction[0] == 0x2e && SomeDigits(n.fraction[1..])
    requires n.exponent != [] ==>
      && (n.exponent[0] == 0x65 || n.exponent[0] == 0x45)
      && (SomeDigits(n.exponent[1..])
          || (|n.exponent| > 1 && (n.exponent[1] == 0x2b || n.exponent[1] == 0x2d) && SomeDigits(n.exponent[2..])))
    ensures LegalNumeral(n)
  {
    hide AllDigits;
  }

  lemma NumeralSpelt(t: seq<byte>, n: Numeral, s: nat, w: nat, f: nat)
    requires s <= w <= f <= |t| && s <= 1 && (s == 1 ==> t[0] == 0x2d)
    requires n == Numeral(s == 1, t[s..w], t[w..f], t[f..])
    ensures t == NumeralText(n)
  {
    assert t[..s] == if n.minus then [0x2d] else [];
    assert t == t[..s] + t[s..w] + t[w..f] + t[f..];
  }

  lemma WholeWritten(t: seq<byte>, s: nat)
    requires WholeEnd(t, s).Some?
    ensures var w := t[s..WholeEnd(t, s).value]; SomeDigits(w) && (w[0] == 0x30 ==> |w| == 1)
  {
    if t[s] == 0x30 {
      assert t[s..s + 1] == [0x30];
    } else {
      var end := DigitsEnd(t, s + 1);
      DigitsEndIs(t, s + 1, end);
      AllDigitsStep(t[s..end]);
      assert t[s..end][1..] == t[s + 1..end];
    }
  }

  lemma SomeDigitsWritten(t: seq<byte>, at: nat)
    requires at <= |t| && SomeDigitsEnd(t, at).Some?
    ensures SomeDigits(t[at..SomeDigitsEnd(t, at).value])
  {
    DigitsEndIs(t, at, DigitsEnd(t, at));
  }

  lemma FractionWritten(t: seq<byte>, at: nat)
    requires at <= |t| && FractionEnd(t, at).Some?
    ensures var f := t[at..FractionEnd(t, at).value]; f != [] ==> f[0] == 0x2e && SomeDigits(f[1..])
  {
    hide SomeDigitsEnd, SomeDigits;
    if at < |t| && t[at] == POINT {
      SomeDigitsWritten(t, at + 1);
      var end := FractionEnd(t, at).value;
      assert t[at..end][1..] == t[at + 1..end];
    }
  }

  lemma ExponentWritten(t: seq<byte>, at: nat)
    requires at <= |t| && ExponentEnd(t, at) == Some(|t|)
    ensures var e := t[at..];
      e != [] ==>
        && (e[0] == 0x65 || e[0] == 0x45)
        && (SomeDigits(e[1..]) || (|e| > 1 && (e[1] == 0x2b || e[1] == 0x2d) && SomeDigits(e[2..])))
  {
    hide SomeDigitsEnd, SomeDigits;
    var e := t[at..];
    if e != [] {
      if at + 1 < |t| && IsSign(t[at + 1]) {
        SomeDigitsWritten(t, at + 2);
        assert e[2..] == t[at + 2..|t|];
      } else {
        SomeDigitsWritten(t, at + 1);
        assert e[1..] == t[at + 1..|t|];
      }
    }
  }

  lemma DigitsRead(t: seq<byte>, at: nat, d: seq<byte>)
    requires StartsAt(t, at, d) && SomeDigits(d) && NoDigitAt(t, at + |d|)
    ensures SomeDigitsEnd(t, at) == Some(at + |d|)
  {
    DigitsEndIs(t, at, at + |d|);
  }

  lemma NumeralReads(n: Numeral)
    requires LegalNumeral(n)
    ensures NumberEnd(NumeralText(n), 0) == Some(|NumeralText(n)|)
  {
    hide *;
    var t, s := NumeralText(n), if n.minus then 1 else 0;
    var w := s + |n.whole|;
    var f := w + |n.fraction|;
    NumeralPlaces(n);
    WholeReads(t, s, n);
    FractionReads(t, w, n);
    NumeralExponent(n);
    ExponentReads(t, f, n.exponent);
    PartsEnd(t, s, w, f);
  }

  lemma NumeralExponent(n: Numeral)
    requires LegalNumeral(n)
    ensures var e := n.exponent;
      e != [] ==>
        && (e[0] == 0x65 || e[0] == 0x45)
        && (SomeDigits(e[1..]) || (|e| > 1 && (e[1] == 0x2b || e[1] == 0x2d) && SomeDigits(e[2..])))
  {
    hide SomeDigits;
  }

  lemma PartsEnd(t: seq<byte>, s: nat, w: nat, f: nat)
    requires t != [] && s == (if t[0] == MINUS then 1 else 0) && WholeEnd(t, s) == Some(w) && FractionEnd(t, w) == Some(f)
    requires ExponentEnd(t, f) == Some(|t|)
    ensures NumberEnd(t, 0) == Some(|t|)
  {
    hide WholeEnd, FractionEnd, ExponentEnd;
  }

  lemma NumeralPlaces(n: Numeral)
    requires LegalNumeral(n)
    ensures var t, s := NumeralText(n), if n.minus then 1 else 0;
      var w := s + |n.whole|;
      var f := w + |n.fraction|;
      && f <= |t| && t[s..w] == n.whole && t[w..f] == n.fraction && t[f..] == n.exponent && |t| == f + |n.exponent|
      && (t[0] == MINUS <==> n.minus)
  {
    var t, s := NumeralText(n), if n.minus then 1 else 0;
    assert n.whole[0] == t[s];
  }

  lemma WholeReads(t: seq<byte>, s: nat, n: Numeral)
    requires LegalNumeral(n)
    requires var w := s + |n.whole|; var f := w + |n.fraction|;
      f <= |t| && t[s..w] == n.whole && t[w..f] == n.fraction && t[f..] == n.exponent
    ensures WholeEnd(t, s) == Some(s + |n.whole|)
  {
    var w := s + |n.whole|;
    assert t[s] == n.whole[0];
    Behind2(t, w, n);
    if n.whole[0] != 0x30 {
      AllDigitsStep(n.whole);
      assert t[s + 1..w] == n.whole[1..];
      DigitsEndIs(t, s + 1, w);
    }
  }

  /** Behind the whole part stands a point, an exponent or nothing. */
  lemma Behind2(t: seq<byte>, w: nat, n: Numeral)
    requires LegalNumeral(n) && w + |n.fraction| <= |t| && t[w..w + |n.fraction|] == n.fraction && t[w + |n.fraction|..] == n.exponent
    ensures NoDigitAt(t, w) && NoDigitAt(t, w + |n.fraction|)
    ensures n.fraction == [] ==> w >= |t| || t[w] != POINT
  {
    if n.fraction != [] { assert t[w] == n.fraction[0]; }
    if n.exponent != [] { assert t[w + |n.fraction|] == n.exponent[0]; }
  }

  lemma FractionReads(t: seq<byte>, w: nat, n: Numeral)
    requires LegalNumeral(n) && w + |n.fraction| <= |t| && t[w..w + |n.fraction|] == n.fraction && t[w + |n.fraction|..] == n.exponent
    ensures FractionEnd(t, w) == Some(w + |n.fraction|)
  {
    Behind2(t, w, n);
    if n.fraction != [] {
      assert t[w] == n.fraction[0] && t[w + 1..w + |n.fraction|] == n.fraction[1..];
      DigitsRead(t, w + 1, n.fraction[1..]);
    }
  }

  lemma ExponentReads(t: seq<byte>, f: nat, e: seq<byte>)
    requires f <= |t| && t[f..] == e
    requires e != [] ==>
      && (e[0] == 0x65 || e[0] == 0x45)
      && (SomeDigits(e[1..]) || (|e| > 1 && (e[1] == 0x2b || e[1] == 0x2d) && SomeDigits(e[2..])))
    ensures ExponentEnd(t, f) == Some(|t|)
  {
    if e != [] {
      assert t[f] == e[0];
      if SomeDigits(e[1..]) {
        assert t[f + 1] == e[1] && t[f + 1..|t|] == e[1..] && e[1..][0] == e[1];
        DigitsRead(t, f + 1, e[1..]);
      } else {
        assert t[f + 1] == e[1] && t[f + 2..|t|] == e[2..];
        DigitsRead(t, f + 2, e[2..]);
      }
    }
  }

  /** A text is a number exactly when it is written as one. */
  lemma NumberIsWritten(t: seq<byte>)
    ensures NumberEnd(t, 0) == Some(|t|) <==> exists n :: LegalNumeral(n) && t == NumeralText(n)
  {
    hide NumberEnd, LegalNumeral, NumeralText;
    if NumberEnd(t, 0) == Some(|t|) { var n := NumeralFrom(t); }
    if n :| LegalNumeral(n) && t == NumeralText(n) { NumeralReads(n); }
  }
}
