/** The integer form of the expression hash's floating-point component. */
module HashComponent {
  import opened Arithmetic
  import opened Bytes

  // ---------------------------------------------------------------- bits of unbounded words

  /** The number of bits up to the highest set one. */
  function BitLength(x: nat): nat {
    if x == 0 then 0 else 1 + BitLength(x / 2)
  }

  function And(a: nat, b: nat): nat {
    if a == 0 || b == 0 then 0 else 2 * And(a / 2, b / 2) + (if a % 2 == 1 && b % 2 == 1 then 1 else 0)
  }

  function Or(a: nat, b: nat): nat
    decreases a + b
  {
    if a == 0 then b else if b == 0 then a
    else 2 * Or(a / 2, b / 2) + (if a % 2 == 1 || b % 2 == 1 then 1 else 0)
  }

  function Xor(a: nat, b: nat): nat
    decreases a + b
  {
    if a == 0 then b else if b == 0 then a
    else 2 * Xor(a / 2, b / 2) + (if a % 2 != b % 2 then 1 else 0)
  }

  /** A number moved up by k bits. */
  function Raised(x: nat, k: nat): nat {
    Positive(x, Pow2(k));
    x * Pow2(k)
  }

  function Shl64(x: word64, k: nat): word64 { Raised(x, k) % U64 }

  function Shr(x: nat, k: nat): nat { Quotient(x, Pow2(k)) }

  function LeadingZeros64(x: word64): int { 64 - BitLength(x) }

  lemma {:induction false} LengthBounds(x: nat)
    requires x > 0
    ensures BitLength(x) > 0 && Pow2(BitLength(x) - 1) <= x < Pow2(BitLength(x))
  {
    if x > 1 { LengthBounds(x / 2); }
  }

  lemma {:induction false} LengthAtMost(x: nat, k: nat)
    requires x < Pow2(k)
    ensures BitLength(x) <= k
  {
    if x > 0 { LengthAtMost(x / 2, k - 1); }
  }

  lemma {:induction false} LengthSplit(high: nat, low: nat, k: nat)
    requires high > 0 && low < Pow2(k)
    ensures BitLength(high * Pow2(k) + low) == k + BitLength(high)
  {
    if k > 0 {
      var p := Pow2(k - 1);
      assert high * (2 * p) == 2 * (high * p);
      assert (high * Pow2(k) + low) / 2 == high * p + low / 2;
      LengthSplit(high, low / 2, k - 1);
      assert high * Pow2(k) + low > 0;
    }
  }

  /** Masking with n ones keeps the value modulo 2^n. */
  lemma {:induction false} MaskIsModulo(x: nat, n: nat)
    ensures And(x, Pow2(n) - 1) == Rest(x, Pow2(n))
  {
    if n > 0 {
      var p := Pow2(n - 1);
      assert Pow2(n) == 2 * p;
      MaskIsModulo(x / 2, n - 1);
      ModuloStep(x, p);
      AndStep(x, 2 * p - 1);
      HalfMask(p);
      hide Pow2, And, Rest;
    } else {
      assert And(x, 0) == 0;
    }
  }

  lemma HalfMask(p: nat)
    requires p > 0
    ensures (2 * p - 1) / 2 == p - 1 && (2 * p - 1) % 2 == 1
  {
  }

  lemma AndStep(a: nat, b: nat)
    ensures And(a, b) == 2 * And(a / 2, b / 2) + (if a % 2 == 1 && b % 2 == 1 then 1 else 0)
  {
  }

  lemma ModuloStep(x: nat, p: nat)
    requires p > 0
    ensures Rest(x, 2 * p) == 2 * Rest(x / 2, p) + x % 2
  {
    var q, r := (x / 2) / p, (x / 2) % p;
    assert x == 2 * (x / 2) + x % 2;
    assert x / 2 == q * p + r;
    assert x == q * (2 * p) + (2 * r + x % 2) by { assert 2 * (q * p) == q * (2 * p); }
    RemainderUnique(x, 2 * p, q, 2 * r + x % 2);
  }

  /** Or of disjoint bit ranges is their sum. */
  lemma {:induction false} OrIsSum(a: nat, b: nat, n: nat)
    requires a < Pow2(n)
    ensures Or(a, b * Pow2(n)) == a + b * Pow2(n)
  {
    if n > 0 && a > 0 && b > 0 {
      var p := Pow2(n - 1);
      assert b * (2 * p) == 2 * (b * p);
      OrIsSum(a / 2, b, n - 1);
      assert b * p > 0;
    }
  }

  lemma {:induction false} XorFits(a: nat, b: nat, n: nat)
    requires a < Pow2(n) && b < Pow2(n)
    ensures Xor(a, b) < Pow2(n)
  {
    if n > 0 && a > 0 && b > 0 { XorFits(a / 2, b / 2, n - 1); }
  }

  // ---------------------------------------------------------------- what the component is

  /** The 53-bit integer whose 2^49-th part is the constant 8.539734222673566. */
  const CONSTANT: nat := 0x11_1458_0b45_d474

  function Magnitude(bits: word32): nat { bits % 0x8000_0000 }

  function ExponentField(bits: word32): nat { Magnitude(bits) / 0x80_0000 }

  /** The integer significand, with its hidden bit unless the value is subnormal. */
  function Significand(bits: word32): nat {
    if ExponentField(bits) == 0 then Magnitude(bits) % 0x80_0000 else Magnitude(bits) % 0x80_0000 + 0x80_0000
  }

  /** The power of two that scales the significand. */
  function Scale(bits: word32): int {
    if ExponentField(bits) == 0 then -149 else ExponentField(bits) - 150
  }

  function Product(bits: word32): nat { Significand(bits) * CONSTANT }

  function ProductLength(bits: word32): nat { BitLength(Product(bits)) }

  /** The fraction of the exact product, in [1/2, 1), times 2^32 - 1, rounded down. */
  function Fraction(bits: word32): nat {
    Quotient(Product(bits) * (U32 - 1), Pow2(ProductLength(bits)))
  }

  /** The binary exponent of the exact product. */
  function Exponent(bits: word32): int {
    ProductLength(bits) + Scale(bits) - 49
  }

  function Component(bits: word32): nat {
    if Magnitude(bits) == 0 then 0
    else Xor(if bits >= 0x8000_0000 then (U32 - Fraction(bits)) % U32 else Fraction(bits) % U32, Exponent(bits) % U32)
  }

  // ---------------------------------------------------------------- the value in real terms

  function PowR(e: int): (r: real)
    ensures r > 0.0
    decreases if e >= 0 then e else -e
  {
    if e == 0 then 1.0 else if e > 0 then 2.0 * PowR(e - 1) else PowR(e + 1) / 2.0
  }

  lemma {:induction false} PowRStep(e: int)
    ensures PowR(e + 1) == 2.0 * PowR(e)
  {
  }

  function Times(a: real, b: real): real { a * b }

  lemma TimesDouble(a: real, b: real, c: real)
    requires c == 2.0 * a
    ensures Times(c, b) == 2.0 * Times(a, b)
  {
  }

  lemma {:induction false} PowRAdd(a: int, b: int)
    ensures PowR(a + b) == Times(PowR(a), PowR(b))
    decreases if a >= 0 then a else -a
  {
    assert PowR(0) == 1.0 && Times(1.0, PowR(b)) == PowR(b);
    hide PowR, Times;
    if a > 0 {
      PowRAdd(a - 1, b);
      PowRStep(a - 1 + b);
      PowRStep(a - 1);
      TimesDouble(PowR(a - 1), PowR(b), PowR(a));
    } else if a < 0 {
      PowRAdd(a + 1, b);
      PowRStep(a + b);
      PowRStep(a);
      TimesDouble(PowR(a), PowR(b), PowR(a + 1));
    }
  }

  lemma {:induction false} PowRNat(n: nat)
    ensures PowR(n) == Pow2(n) as real
  {
    if n > 0 { PowRNat(n - 1); }
  }

  /** The absolute value of the float with these bits, if it is finite. */
  function AbsoluteValue(bits: word32): real {
    Significand(bits) as real * PowR(Scale(bits))
  }

  /** The product's fraction. */
  function FractionValue(bits: word32): real {
    Product(bits) as real / Pow2(ProductLength(bits)) as real
  }

  lemma SignificandPositive(bits: word32)
    requires Magnitude(bits) != 0
    ensures Significand(bits) > 0 && Significand(bits) < 0x100_0000
  {
  }

  lemma QuotientFloor(n: nat, d: nat)
    requires d > 0
    ensures (n as real / d as real).Floor == n / d
  {
    var q, r := n / d, n % d;
    assert n as real == q as real * d as real + r as real;
    assert n as real / d as real == q as real + r as real / d as real;
  }

  /** The fraction and the exponent are those of the exact product. */
  lemma ProductValue(bits: word32)
    ensures AbsoluteValue(bits) * (CONSTANT as real * PowR(-49)) == FractionValue(bits) * PowR(Exponent(bits))
  {
    hide PowR, Pow2, Significand, Scale, BitLength;
    var n, e := ProductLength(bits), Scale(bits);
    var m, s, c, k, p, d: real := Significand(bits) as real, PowR(e), CONSTANT as real, PowR(-49), Product(bits) as real, PowR(n);
    PowRNat(n);
    PowRAdd(n, e - 49);
    PowRAdd(e, -49);
    assert p == m * c;
    RealProduct(m, s, c, k, p, d);
    var t := PowR(e - 49);
    assert t == s * k;
    assert PowR(Exponent(bits)) == d * t;
    assert d * t == d * (s * k);
  }

  /** The fraction lies in [1/2, 1), and the component's fraction is the floor of its multiple by 2^32 - 1. */
  lemma FractionOfProduct(bits: word32)
    requires Magnitude(bits) != 0
    ensures 0.5 <= FractionValue(bits) < 1.0
    ensures Fraction(bits) == (FractionValue(bits) * (U32 - 1) as real).Floor
  {
    var p, d := Product(bits), Pow2(ProductLength(bits));
    SignificandPositive(bits);
    hide Pow2, BitLength, Significand;
    assert p > 0;
    ProductHalf(p);
    HalfOpen(p, d);
    RealScale(p, d);
    QuotientFloor(p * (U32 - 1), d);
  }

  lemma ProductHalf(p: nat)
    requires p > 0
    ensures p < Pow2(BitLength(p)) <= 2 * p
  {
    LengthBounds(p);
  }

  lemma RealProduct(m: real, s: real, c: real, k: real, p: real, n: real)
    requires p == m * c && n > 0.0
    ensures (m * s) * (c * k) == (p / n) * (n * (s * k))
  {
    assert (p / n) * n == p;
    assert (p / n) * (n * (s * k)) == ((p / n) * n) * (s * k);
    assert (m * s) * (c * k) == (m * c) * (s * k);
  }

  lemma HalfOpen(p: nat, d: nat)
    requires 0 < d <= 2 * p && p < d
    ensures 0.5 <= p as real / d as real < 1.0
  {
  }

  lemma RealScale(p: nat, d: nat)
    requires d > 0
    ensures (p as real / d as real) * (U32 - 1) as real == (p * (U32 - 1)) as real / d as real
  {
  }

  // ---------------------------------------------------------------- two 64-bit limbs

  /** The smallest c whose multiple by w reaches p. */
  function CeilDiv(p: nat, w: nat): (c: nat)
    requires w > 0
  {
    Quotient(p, w) + if p % w != 0 then 1 else 0
  }

  lemma CeilBounds(p: nat, w: nat, r: nat)
    requires w > 0
    ensures r < CeilDiv(p, w) <==> r * w < p
  {
    var q, m := p / w, p % w;
    assert p == q * w + m;
    MultipleBounds(r - q, w);
    assert r * w == q * w + (r - q) * w;
    if r == q { assert (r - q) * w == 0; }
  }

  lemma ScaledParts(p: int, s: int, w: int, top: int, r: int)
    requires p == top * s + r
    ensures p * (w - 1) == top * (s * w) + (r * w - p)
  {
    Spread(top * s, r, w);
    Associate(top, s, w);
    assert p * (w - 1) == p * w - p;
  }

  lemma RemainderOneLess(x: int, d: int, q: int, r: int)
    requires x >= 0 && d > 0 && q >= 0 && x == q * d + r && -d <= r < 0
    ensures q > 0 && x / d == q - 1
  {
    MultipleBounds(q, d);
    assert q == 0 ==> q * d == 0;
    assert (q - 1) * d == q * d - d;
    RemainderUnique(x, d, q - 1, r + d);
  }

  /** Scaling by w - 1 instead of w takes one off the top bits exactly when the rest is too small. */
  lemma FloorOfScaled(p: nat, s: nat, w: nat)
    requires s > 0 && w > 0 && p < s * w
    ensures (p * (w - 1)) / (s * w) == p / s - (if p % s < CeilDiv(p, w) then 1 else 0)
    ensures p % s < CeilDiv(p, w) ==> p / s > 0
  {
    var top, r := p / s, p % s;
    ScaledParts(p, s, w, top, r);
    CeilBounds(p, w, r);
    Below(r, s, w);
    Positive(p, w - 1);
    MultipleBounds(s, w);
    hide CeilDiv;
    var d, rw, x := s * w, r * w, p * (w - 1);
    if r < CeilDiv(p, w) {
      Positive(r, w);
      RemainderOneLess(x, d, top, rw - p);
    } else {
      RemainderUnique(x, d, top, rw - p);
    }
  }

  /** Splitting a two-limb number. */
  lemma LimbParts(high: nat, low: nat, n: nat)
    requires low < U64 && n <= 64
    ensures (high * U64 + low) / Pow2(n) == high * Pow2(64 - n) + low / Pow2(n)
    ensures (high * U64 + low) % Pow2(n) == low % Pow2(n)
  {
    PowValues();
    PowAdd(64 - n, n);
    hide Pow2;
    var p, t := Pow2(n), Pow2(64 - n);
    Associate(high, t, p);
    Positive(high, t);
    var a := high * t;
    assert high * U64 == a * p;
    AddMultiple(a, low, p);
  }

  /** The two limbs of the 77-bit product of a significand and the constant. */
  method Limbs(mantissa: nat) returns (low: word64, high: word64)
    requires mantissa < 0x100_0000
    ensures high * U64 + low == mantissa * CONSTANT
    ensures high < 0x2000
  {
    PowValues();
    hide Pow2;
    var p0: word64 := mantissa * (CONSTANT % U32);
    var p1: word64 := mantissa * (CONSTANT / U32);
    LimbShifts(p1);
    hide Shl64, Shr;
    low := (p0 + Shl64(p1, 32)) % U64;
    high := Shr(p1, 32) + if low < p0 then 1 else 0;
    LimbSum(p0, p1, low, high);
    assert mantissa * CONSTANT == p0 + p1 * U32;
  }

  lemma LimbShifts(p1: word64)
    ensures Shl64(p1, 32) == (p1 % U32) * U32 && Shr(p1, 32) == p1 / U32
  {
    PowValues();
    hide Pow2;
  }

  /** The lower limb wraps exactly when a carry is due. */
  lemma LimbSum(p0: word64, p1: word64, low: word64, high: nat)
    requires low == (p0 + (p1 % U32) * U32) % U64 && high == p1 / U32 + if low < p0 then 1 else 0
    ensures high * U64 + low == p0 + p1 * U32
  {
    var shifted := (p1 % U32) * U32;
    assert shifted < U64 && p1 * U32 == (p1 / U32) * U64 + shifted;
    assert low == if p0 + shifted < U64 then p0 + shifted else p0 + shifted - U64;
  }

  /** The length of the product, from the leading zeros of the highest limb that is not zero. */
  method LimbLength(low: word64, high: word64) returns (length: nat)
    ensures length == BitLength(high * U64 + low)
  {
    PowValues();
    LengthAtMost(high, 64);
    LengthAtMost(low, 64);
    if high != 0 { LengthSplit(high, low, 64); }
    hide Pow2, BitLength;
    length := if high != 0 then 128 - LeadingZeros64(high) else 64 - LeadingZeros64(low);
  }

  /** The shift that keeps the top 32 bits of the product. */
  lemma ShiftBounds(p: nat, high: nat, low: nat)
    requires p == high * U64 + low && low < U64 && high < 0x2000 && p >= CONSTANT
    ensures 21 <= BitLength(p) - 32 <= 45
    ensures high != 0 ==> BitLength(p) - 32 >= 33
    ensures p < Pow2(BitLength(p) - 32) * U32 && Pow2(BitLength(p) - 32) * U32 == Pow2(BitLength(p))
    ensures Raised(high, 64 - (BitLength(p) - 32)) < U64
  {
    PowValues();
    var n := BitLength(p);
    LengthBounds(p);
    PowAdd(64, 13);
    assert Pow2(13) == 0x2000;
    LengthAtMost(p, 77);
    PowMonotone(n, 52);
    PowAdd(20, 32);
    assert Pow2(20) == 0x10_0000;
    PowMonotone(n, 64);
    PowAdd(n - 32, 32);
    PowMonotone(64 - (n - 32), 43);
    PowAdd(32, 11);
    hide Pow2, BitLength;
    if high != 0 { HighFits(high, 64 - (n - 32)); }
  }

  lemma HighFits(high: nat, k: int)
    requires high < 0x2000 && 0 <= k <= 31
    ensures high * Pow2(k) < U64
  {
    PowValues();
    PowMonotone(k, 31);
    hide Pow2;
    Below(high, 0x2000, Pow2(k));
  }

  /** The shifted limbs, joined, are the shifted product. */
  lemma JoinedShift(p: nat, high: nat, low: nat, n: nat)
    requires p == high * U64 + low && low < U64 && n <= 64 && Raised(high, 64 - n) < U64 && high < U64
    ensures Or(Shr(low, n), Shl64(high, 64 - n)) == Quotient(p, Pow2(n))
  {
    JoinedShiftParts(high, low, n);
    SmallModulo(Raised(high, 64 - n));
    hide Raised, Quotient, Pow2, Or;
  }

  lemma JoinedShiftParts(high: nat, low: nat, n: nat)
    requires low < U64 && n <= 64
    ensures Or(Quotient(low, Pow2(n)), Raised(high, 64 - n)) == Quotient(high * U64 + low, Pow2(n))
  {
    PowValues();
    PowAdd(64 - n, n);
    hide Pow2, Or;
    LimbParts(high, low, n);
    QuotientBelow(low, Pow2(n), Pow2(64 - n));
    OrIsSum(Quotient(low, Pow2(n)), high, 64 - n);
  }

  lemma SmallModulo(x: nat)
    requires x < U64
    ensures x % U64 == x
  {
  }

  /** One shifted left, less one. */
  function Ones(n: nat): word64 {
    var bit := Shl64(1, n);
    if bit == 0 then U64 - 1 else bit - 1
  }

  lemma OnesBelow(n: nat)
    requires n < 64
    ensures Ones(n) == Pow2(n) - 1
  {
    PowValues();
    PowMonotone(n, 63);
    assert Pow2(64) == 2 * Pow2(63);
    hide Pow2;
    SmallModulo(Pow2(n));
    assert Raised(1, n) == Pow2(n);
  }

  /** The mask that selects the remainder. */
  lemma MaskedLow(p: nat, high: nat, low: nat, n: nat)
    requires p == high * U64 + low && low < U64 && n < 64
    ensures And(low, Ones(n)) == Rest(p, Pow2(n))
  {
    OnesBelow(n);
    LimbParts(high, low, n);
    MaskIsModulo(low, n);
  }

  lemma CeilSmall(p: nat)
    requires p < 0x2001 * U64
    ensures CeilDiv(p, U32) < U64 && CeilDiv(p, U32) == Quotient(p, U32) + if Rest(p, U32) != 0 then 1 else 0
    ensures Rest(p, U32) == p % U32
  {
  }

  lemma CeilBits(low: word64, high: word64, p: nat)
    requires p == high * U64 + low && high < 0x2000
    ensures Or(Shr(low, 32), Shl64(high, 32)) + (if And(low, U32 - 1) != 0 then 1 else 0) == CeilDiv(p, U32) < U64
  {
    PowValues();
    hide Pow2, Or, And, Shr, Shl64;
    JoinedShift(p, high, low, 32);
    LimbParts(high, low, 32);
    MaskIsModulo(low, 32);
    CeilSmall(p);
  }

  /** The rounded-up 2^32-th part, computed without the carry between the limbs. */
  method CeilPart(low: word64, high: word64, ghost p: nat) returns (c: nat)
    requires p == high * U64 + low && high < 0x2000
    ensures c == CeilDiv(p, U32)
  {
    hide Pow2, Or, And, Shr, Shl64, Quotient, Rest, Raised, CeilDiv;
    CeilBits(low, high, p);
    var sum := Or(Shr(low, 32), Shl64(high, 32)) + if And(low, U32 - 1) != 0 then 1 else 0;
    SmallModulo(sum);
    c := sum % U64;
  }

  /** What the bits of the fraction are made of. */
  lemma FractionParts(p: nat, high: nat, low: nat)
    requires p == high * U64 + low && low < U64 && high < 0x2000 && p >= CONSTANT
    ensures 21 <= BitLength(p) - 32 <= 45
    ensures var shift := BitLength(p) - 32;
      var top, rest := Quotient(p, Pow2(shift)), Rest(p, Pow2(shift));
      && Or(Shr(low, shift), Shl64(high, 64 - shift)) == top < U32
      && And(low, Ones(shift)) == rest
      && (rest < CeilDiv(p, U32) ==> top > 0)
      && Quotient(p * (U32 - 1), Pow2(BitLength(p))) == top - if rest < CeilDiv(p, U32) then 1 else 0
  {
    ShiftBounds(p, high, low);
    var shift := BitLength(p) - 32;
    hide Pow2, Or, And, Shr, Shl64, BitLength, CeilDiv, Ones;
    JoinedShift(p, high, low, shift);
    MaskedLow(p, high, low, shift);
    FloorOfScaled(p, Pow2(shift), U32);
    QuotientBelow(p, Pow2(shift), U32);
  }

  /** The top bits, less one when the remainder is below the rounded-up part. */
  method FractionBits(low: word64, high: word64, length: nat, ghost p: nat) returns (fraction: nat)
    requires p == high * U64 + low && high < 0x2000 && p >= CONSTANT && length == BitLength(p)
    ensures fraction == Quotient(p * (U32 - 1), Pow2(length)) && fraction < U32
  {
    hide Pow2, Or, And, Shr, Shl64, BitLength, CeilDiv, Quotient, Ones, Rest, Raised;
    FractionParts(p, high, low);
    var shift := length - 32;
    var top := Or(Shr(low, shift), Shl64(high, 64 - shift));
    var remainder := And(low, Ones(shift));
    var ceil := CeilPart(low, high, p);
    fraction := LessOne(top, remainder < ceil);
  }

  /** The cast to 32 bits, and the correction by one. */
  function LessOne(top: nat, correct: bool): (r: nat)
    ensures top < U32 && (correct ==> top > 0) ==> r == top - if correct then 1 else 0
  {
    (top % U32 + (if correct then U32 - 1 else 0)) % U32
  }

  /** The source's computation, in two limbs and machine words. */
  method RuntimeComponent(bits: word32) returns (component: nat)
    ensures component == Component(bits) < U32
  {
    hide Pow2, BitLength, Quotient, Xor, Shr, ExponentField, Significand, Magnitude;
    var absolute := Masked31(bits);
    component := 0;
    if absolute != 0 {
      var floatExponent, mantissa := Decode(bits, absolute);
      SignificandPositive(bits);
      var low, high := Limbs(mantissa);
      var length := LimbLength(low, high);
      AtLeastConstant(mantissa);
      var fraction := FractionBits(low, high, length, mantissa * CONSTANT);
      assert fraction == Fraction(bits);
      var valueExponent: int := if floatExponent == 0 then -149 else (floatExponent as int) - 150;
      var exponent := (length + valueExponent - 49) % U32;
      assert exponent == Exponent(bits) % U32;
      SignBit(bits);
      var signed := if Shr(bits, 31) != 0 then (U32 - fraction) % U32 else fraction;
      PowValues();
      XorFits(signed, exponent, 32);
      component := Xor(signed, exponent);
    }
  }

  lemma AtLeastConstant(m: nat)
    requires m > 0
    ensures m * CONSTANT >= CONSTANT
  {
  }

  lemma SignBit(bits: word32)
    ensures Shr(bits, 31) != 0 <==> bits >= 0x8000_0000
  {
    PowValues();
  }

  method Masked31(bits: word32) returns (absolute: nat)
    ensures absolute == Magnitude(bits)
  {
    PowValues();
    MaskIsModulo(bits, 31);
    hide Pow2, And;
    absolute := And(bits, 0x7fff_ffff);
  }

  method Decode(bits: word32, absolute: nat) returns (floatExponent: nat, mantissa: nat)
    requires absolute == Magnitude(bits)
    ensures floatExponent == ExponentField(bits) && mantissa == Significand(bits)
  {
    PowValues();
    MaskIsModulo(absolute, 23);
    OrIsSum(absolute % 0x80_0000, 1, 23);
    hide Pow2, And, Or;
    floatExponent := Shr(absolute, 23);
    mantissa := if floatExponent == 0 then And(absolute, 0x7f_ffff) else Or(And(absolute, 0x7f_ffff), 0x80_0000);
  }

  /** The component of 1, whose product is the constant itself, and of -1, which differs by the sign of its fraction. */
  lemma ComponentOfOne()
    ensures Component(0x3f80_0000) == 0x88a2_c05d && Component(0xbf80_0000) == 0x775d_3fa3
  {
    OneParts(0x3f80_0000);
    OneParts(0xbf80_0000);
    hide Fraction, Exponent;
    XorFour();
  }

  lemma OneParts(bits: word32)
    requires bits == 0x3f80_0000 || bits == 0xbf80_0000
    ensures Magnitude(bits) == 0x3f80_0000 && Fraction(bits) == 0x88a2_c059 && Exponent(bits) == 4
  {
    var p := 0x88a_2c05_a2ea_3a00_0000;
    assert Significand(bits) == 0x80_0000 && Scale(bits) == -23;
    assert Product(bits) == p;
    hide Product, Significand, Scale, BitLength, Pow2, Quotient, Rest;
    PowersAt76();
    LengthBetween(p, 76);
    SplitUnique(0x88a2_c059, p * 0xffff_ffff - 0x88a2_c059 * 0x1000_0000_0000_0000_0000, 0x1000_0000_0000_0000_0000);
  }

  lemma LengthBetween(p: nat, n: nat)
    requires n > 0 && Pow2(n - 1) <= p < Pow2(n)
    ensures BitLength(p) == n
  {
    hide Pow2, BitLength;
    assert p > 0;
    LengthBounds(p);
    PowMonotone(BitLength(p), n - 1);
    PowMonotone(n, BitLength(p) - 1);
  }

  lemma PowersAt76()
    ensures Pow2(75) == 0x800_0000_0000_0000_0000 && Pow2(76) == 0x1000_0000_0000_0000_0000
  {
    PowValues();
    PowAdd(64, 11);
    assert Pow2(11) == 2048;
    assert Pow2(76) == 2 * Pow2(75);
  }

  lemma XorFour()
    ensures Xor(0x88a2_c059, 4) == 0x88a2_c05d && Xor(0x775d_3fa7, 4) == 0x775d_3fa3
  {
    XorLow(0x88a2_c059 / 8, 1);
    XorLow(0x775d_3fa7 / 8, 7);
  }

  /** Four in the last three places. */
  lemma XorLow(high: nat, low: nat)
    requires high > 0 && (low == 1 || low == 7)
    ensures Xor(8 * high + low, 4) == 8 * high + if low == 1 then 5 else 3
  {
    assert (8 * high + low) / 2 == 4 * high + low / 2 && (4 * high + low / 2) / 2 == 2 * high + low / 4;
    assert (2 * high + low / 4) / 2 == high;
    assert Xor(2 * high + low / 4, 1) == 2 * Xor(high, 0) + (if low / 4 % 2 != 1 then 1 else 0);
    assert Xor(4 * high + low / 2, 2) == 2 * Xor(2 * high + low / 4, 1) + low / 2 % 2;
    assert Xor(8 * high + low, 4) == 2 * Xor(4 * high + low / 2, 2) + low % 2;
  }
}
