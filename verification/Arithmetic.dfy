/** Division, remainders and powers of two, as the word-level modules need them. */
module Arithmetic {
  import opened Bytes

  function Pow2(n: nat): (p: nat)
    ensures p > 0
  {
    if n == 0 then 1 else 2 * Pow2(n - 1)
  }

  /** Truncating division of naturals. */
  function Quotient(n: nat, d: nat): (q: nat)
    requires d > 0
  {
    MultipleBounds(n / d, d);
    n / d
  }

  /** The remainder of a division of naturals. */
  function Rest(x: nat, d: nat): (r: nat)
    requires d > 0
    ensures r < d
  {
    x % d
  }

  lemma MultipleBounds(e: int, d: int)
    requires d > 0
    ensures e > 0 ==> e * d >= d
    ensures e < 0 ==> e * d <= -d
  {
    if e > 0 { assert (e - 1) * d >= 0; }
    if e < 0 { assert (-1 - e) * d >= 0; }
  }

  /** A number is its quotient times the divisor, plus its remainder. */
  lemma Split(n: nat, d: nat)
    requires d > 0
    ensures n == Quotient(n, d) * d + Rest(n, d)
  {
  }

  /** And there is no other way to split it. */
  lemma SplitUnique(q: nat, r: nat, d: nat)
    requires r < d
    ensures q * d + r >= 0 && Quotient(q * d + r, d) == q && Rest(q * d + r, d) == r
  {
    Positive(q, d);
    RemainderUnique(q * d + r, d, q, r);
  }

  lemma {:induction false} PowAdd(a: nat, b: nat)
    ensures Pow2(a + b) == Pow2(a) * Pow2(b)
  {
    if a > 0 {
      PowAdd(a - 1, b);
      Associate(2, Pow2(a - 1), Pow2(b));
      assert Pow2(a) == 2 * Pow2(a - 1) && Pow2(a + b) == 2 * Pow2(a - 1 + b);
      hide Pow2;
    }
  }

  lemma PowValues()
    ensures Pow2(23) == 0x80_0000 && Pow2(31) == 0x8000_0000 && Pow2(32) == U32 && Pow2(64) == U64
  {
    assert Pow2(10) == 1024;
    assert Pow2(20) == 0x10_0000;
    PowAdd(20, 3);
    PowAdd(20, 11);
    assert Pow2(32) == 2 * Pow2(31);
    PowAdd(32, 32);
  }

  lemma {:induction false} PowMonotone(a: nat, b: nat)
    ensures a <= b ==> Pow2(a) <= Pow2(b)
    ensures a >= b ==> Pow2(a) >= Pow2(b)
    decreases a + b
  {
    if a > 0 && b > 0 { PowMonotone(a - 1, b - 1); }
  }

  lemma RemainderUnique(x: int, d: int, q: int, r: int)
    requires d > 0 && 0 <= r && x == q * d + r && r < d
    ensures x / d == q && x % d == r
  {
    var e := x / d - q;
    assert x == (x / d) * d + x % d;
    assert (x / d) * d - q * d == e * d;
    MultipleBounds(e, d);
  }

  lemma AddMultiple(a: int, x: nat, p: int)
    requires p > 0 && a >= 0
    ensures (a * p + x) / p == a + x / p && (a * p + x) % p == x % p
  {
    var q, r := x / p, x % p;
    Spread(a, q, p);
    RemainderUnique(a * p + x, p, a + q, r);
  }

  lemma QuotientBelow(x: nat, p: nat, t: nat)
    requires p > 0 && x < t * p
    ensures x / p < t
  {
    var q := x / p;
    assert x == q * p + x % p;
    MultipleBounds(q - t, p);
    assert q * p == t * p + (q - t) * p;
    assert q == t ==> (q - t) * p == 0;
  }

  lemma Associate(a: int, b: int, c: int)
    ensures a * (b * c) == (a * b) * c
  {
  }

  lemma Spread(a: int, b: int, c: int)
    ensures (a + b) * c == a * c + b * c
  {
  }

  lemma Below(r: int, s: int, w: int)
    requires r < s && w > 0
    ensures r * w < s * w
  {
  }

  lemma Positive(a: int, b: int)
    requires a >= 0 && b >= 0
    ensures a * b >= 0
  {
  }
}
