/** Decimal numbers as text. */
module Decimals {
  import opened Bytes

  predicate IsDigit(c: byte) {
    0x30 <= c <= 0x39
  }

  predicate AllDigits(s: seq<byte>) {
    forall i :: 0 <= i < |s| ==> IsDigit(s[i])
  }

  /** The number that decimal digits denote. */
  function NumberOf(digits: seq<byte>): nat
    requires AllDigits(digits)
  {
    if digits == [] then 0 else NumberOf(digits[..|digits| - 1]) * 10 + (digits[|digits| - 1] - 0x30)
  }

  /** A number in decimal, without leading zeros. */
  function Decimal(n: nat): (s: seq<byte>)
    ensures AllDigits(s) && s != []
  {
    if n < 10 then [0x30 + n] else Decimal(n / 10) + [0x30 + n % 10]
  }

  function Zeros(n: nat): (s: seq<byte>)
    ensures |s| == n && AllDigits(s)
  {
    seq(n, _ => 0x30)
  }

  lemma {:induction false} NumberOfDecimal(zeros: nat, n: nat)
    ensures NumberOf(Zeros(zeros) + Decimal(n)) == n
  {
    var s := Zeros(zeros) + Decimal(n);
    if n < 10 {
      NumberOfZeros(zeros);
      assert s[..|s| - 1] == Zeros(zeros);
    } else {
      NumberOfDecimal(zeros, n / 10);
      assert s[..|s| - 1] == Zeros(zeros) + Decimal(n / 10);
    }
  }

  lemma {:induction false} NumberOfZeros(n: nat)
    ensures NumberOf(Zeros(n)) == 0
  {
    if n > 0 {
      NumberOfZeros(n - 1);
      assert Zeros(n)[..n - 1] == Zeros(n - 1);
    }
  }

  /** Digits are the decimal form of their number behind zeros. */
  lemma {:induction false} DecimalOfNumber(digits: seq<byte>) returns (zeros: nat)
    requires AllDigits(digits) && digits != []
    ensures digits == Zeros(zeros) + Decimal(NumberOf(digits))
  {
    var init, last := digits[..|digits| - 1], digits[|digits| - 1];
    assert digits == init + [last];
    if init == [] {
      zeros := 0;
    } else {
      zeros := DecimalOfNumber(init);
      if NumberOf(init) == 0 {
        assert init == Zeros(zeros + 1);
        zeros := zeros + 1;
      }
    }
  }

  /** Only zero is written with a zero in front. */
  lemma {:induction false} DecimalStart(n: nat)
    ensures Decimal(n)[0] == 0x30 ==> n == 0
    ensures n == 0 ==> Decimal(n) == [0x30]
  {
    if n >= 10 { DecimalStart(n / 10); }
  }
}
