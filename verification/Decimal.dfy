/** Decimal numerals. */
module Decimal {
  predicate IsDigit(c: char) {
    '0' <= c <= '9'
  }

  predicate AllDigits(s: string) {
    forall i :: 0 <= i < |s| ==> IsDigit(s[i])
  }

  function DigitOf(d: nat): (c: char)
    requires d < 10
    ensures IsDigit(c) && ValueOf(c) == d
  {
    '0' + d as char
  }

  function ValueOf(c: char): nat
    requires IsDigit(c)
  {
    c as int - '0' as int
  }

  /** The numeral of `n`, without leading zeros. */
  function Digits(n: nat): (s: string)
    ensures |s| >= 1 && AllDigits(s)
  {
    if n < 10 then [DigitOf(n)] else Digits(n / 10) + [DigitOf(n % 10)]
  }

  /** What a run of digits means; nothing means zero. */
  function Number(s: string): nat
    requires AllDigits(s)
  {
    if s == [] then 0 else 10 * Number(s[..|s| - 1]) + ValueOf(s[|s| - 1])
  }

  lemma {:induction false} NumberDigits(n: nat)
    ensures Number(Digits(n)) == n
  {
    if n >= 10 {
      NumberDigits(n / 10);
      assert Digits(n)[..|Digits(n)| - 1] == Digits(n / 10);
    }
  }

  function Zeros(k: nat): (s: string)
    ensures |s| == k && AllDigits(s)
  {
    seq(k, (i: nat) => '0')
  }

  /** `n` padded with zeros to at least `width` digits. */
  function Padded(n: nat, width: nat): (s: string)
    ensures |s| >= width && AllDigits(s)
  {
    var d := Digits(n);
    if |d| >= width then d else Zeros(width - |d|) + d
  }

  lemma {:induction false} LeadingZeros(k: nat, s: string)
    requires AllDigits(s)
    ensures Number(Zeros(k) + s) == Number(s)
    decreases |s| + k
  {
    var z := Zeros(k) + s;
    if s != [] {
      LeadingZeros(k, s[..|s| - 1]);
      assert z[..|z| - 1] == Zeros(k) + s[..|s| - 1];
    } else if k > 0 {
      LeadingZeros(k - 1, s);
      assert z[..|z| - 1] == Zeros(k - 1) + s;
    }
  }

  lemma NumberPadded(n: nat, width: nat)
    ensures Number(Padded(n, width)) == n
  {
    NumberDigits(n);
    if |Digits(n)| < width {
      LeadingZeros(width - |Digits(n)|, Digits(n));
    }
  }

  /** A number below 100 fits in two digits. */
  lemma TwoDigits(n: nat)
    requires n < 100
    ensures |Padded(n, 2)| == 2
  {
    assert |Digits(n)| <= 2 by {
      if n >= 10 {
        assert |Digits(n / 10)| == 1;
      }
    }
  }
}
