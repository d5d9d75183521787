/** Bytes and little-endian words. */
module Bytes {
  import opened Wrappers

  type byte = x: int | 0 <= x < 256

  const U32: nat := 0x1_0000_0000
  const U64: nat := 0x1_0000_0000_0000_0000

  type word32 = x: nat | x < 0x1_0000_0000
  type word64 = x: nat | x < 0x1_0000_0000_0000_0000

  function Pow256(n: nat): (p: nat)
    ensures p > 0
  {
    if n == 0 then 1 else 256 * Pow256(n - 1)
  }

  /** The number whose little-endian digits are s. */
  function Little(s: seq<byte>): (v: nat)
    ensures v < Pow256(|s|)
  {
    if s == [] then 0 else s[0] + 256 * Little(s[1..])
  }

  /** The n low little-endian digits of v. */
  function Digits(v: nat, n: nat): (s: seq<byte>)
    ensures |s| == n
  {
    if n == 0 then [] else [v % 256] + Digits(v / 256, n - 1)
  }

  lemma {:induction false} LittleDigits(v: nat, n: nat)
    requires v < Pow256(n)
    ensures Little(Digits(v, n)) == v
  {
    if n > 0 { LittleDigits(v / 256, n - 1); }
  }

  lemma {:induction false} DigitsLittle(s: seq<byte>)
    ensures Digits(Little(s), |s|) == s
  {
    if s != [] { DigitsLittle(s[1..]); }
  }

  lemma {:induction false} LittleAppend(s: seq<byte>, t: seq<byte>)
    ensures Little(s + t) == Little(s) + Pow256(|s|) * Little(t)
  {
    if s == [] {
      assert s + t == t;
    } else {
      LittleAppend(s[1..], t);
      assert (s + t)[1..] == s[1..] + t;
      Distribute(Little(s[1..]), Pow256(|s| - 1), Little(t));
    }
  }

  lemma Distribute(a: int, p: int, b: int)
    ensures 256 * (a + p * b) == 256 * a + (256 * p) * b
  {
    assert 256 * (p * b) == (256 * p) * b;
  }

  lemma Pow256Eight()
    ensures Pow256(8) == U64 && Pow256(4) == U32
  {
    assert Pow256(4) == U32;
    assert Pow256(8) == 256 * (256 * (256 * (256 * Pow256(4))));
  }

  /** The 64-bit word at an offset, if it lies inside the bytes. */
  function WordAt(bytes: seq<byte>, offset: nat): (r: Option<word64>)
    ensures r.Some? <==> offset + 8 <= |bytes|
  {
    if offset > |bytes| || |bytes| - offset < 8 then None
    else
      Pow256Eight();
      Some(Little(bytes[offset..offset + 8]))
  }

  /** The reader's loop: one byte at a time, shifted into place. */
  method ReadWord(bytes: seq<byte>, offset: nat) returns (r: Option<word64>)
    ensures r == WordAt(bytes, offset)
  {
    if offset > |bytes| || |bytes| - offset < 8 { return None; }
    var value: nat, scale: nat := 0, 1;
    for k := 0 to 8
      invariant value == Little(bytes[offset..offset + k]) && scale == Pow256(k)
    {
      var s := bytes[offset..offset + k];
      LittleAppend(s, [bytes[offset + k]]);
      assert s + [bytes[offset + k]] == bytes[offset..offset + k + 1];
      assert Little([bytes[offset + k]]) == bytes[offset + k] + 256 * Little([]);
      value := value + scale * bytes[offset + k];
      scale := scale * 256;
    }
    Pow256Eight();
    r := Some(value);
  }

  /** The writer's loop: the low byte first. */
  method AppendWord(bytes: seq<byte>, value: word64) returns (r: seq<byte>)
    ensures r == bytes + Digits(value, 8)
  {
    var rest: nat := value;
    r := bytes;
    for k := 0 to 8
      invariant r + Digits(rest, 8 - k) == bytes + Digits(value, 8)
    {
      var low: byte := rest % 256;
      assert Digits(rest, 8 - k) == [low] + Digits(rest / 256, 8 - k - 1);
      r := r + [low];
      rest := rest / 256;
    }
    assert r + Digits(rest, 0) == r;
  }

  lemma WordRoundTrip(before: seq<byte>, value: word64, after: seq<byte>)
    ensures WordAt(before + Digits(value, 8) + after, |before|) == Some(value)
  {
    Pow256Eight();
    LittleDigits(value, 8);
    assert (before + Digits(value, 8) + after)[|before|..|before| + 8] == Digits(value, 8);
  }

  /** Reading a word and writing it back gives the bytes read. */
  lemma BytesRoundTrip(bytes: seq<byte>, offset: nat)
    requires offset + 8 <= |bytes|
    ensures Digits(WordAt(bytes, offset).value, 8) == bytes[offset..offset + 8]
  {
    DigitsLittle(bytes[offset..offset + 8]);
  }
}
