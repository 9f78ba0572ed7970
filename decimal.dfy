/**
 * Decimal digits: the character class `\d` of Go's regexp, `%d` and `%0Nd`
 * formatting of integers, and reading a run of digits back.
 */
module Decimal {

  /** An ASCII digit, as Go's `\d` and the `'0' <= c <= '9'` scans accept. */
  predicate IsDigit(c: char) {
    '0' <= c <= '9'
  }

  predicate AllDigits(s: string) {
    forall i :: 0 <= i < |s| ==> IsDigit(s[i])
  }

  function DigitValue(c: char): (d: nat)
    requires IsDigit(c)
    ensures d < 10
  {
    c as int - '0' as int
  }

  function DigitChar(d: nat): (c: char)
    requires d < 10
    ensures IsDigit(c) && DigitValue(c) == d
  {
    (d + '0' as int) as char
  }

  /** The value of a run of digits. */
  function ParseNat(s: string): nat
    requires AllDigits(s)
    decreases |s|
  {
    if s == [] then 0 else 10 * ParseNat(s[..|s| - 1]) + DigitValue(s[|s| - 1])
  }

  /** `%d` of a non-negative value: its digits, with no leading zero. */
  function NatToString(n: nat): (r: string)
    ensures |r| > 0 && AllDigits(r)
    ensures n > 0 ==> r[0] != '0'
    ensures n < 10 <==> |r| == 1
    decreases n
  {
    if n < 10 then [DigitChar(n)] else NatToString(n / 10) + [DigitChar(n % 10)]
  }

  /** Round trip: the digits `%d` writes read back as the same value. */
  lemma {:induction false} ParseNatToString(n: nat)
    ensures ParseNat(NatToString(n)) == n
    decreases n
  {
    if n >= 10 {
      var r := NatToString(n);
      assert r[..|r| - 1] == NatToString(n / 10);
      ParseNatToString(n / 10);
    }
  }

  function Zeros(k: nat): (r: string)
    ensures |r| == k && AllDigits(r)
  {
    seq(k, _ => '0')
  }

  /** Leading zeros do not change the value of a run of digits. */
  lemma {:induction false} ParseLeadingZeros(k: nat, s: string)
    requires AllDigits(s)
    ensures ParseNat(Zeros(k) + s) == ParseNat(s)
    decreases |s|, k
  {
    if s == [] {
      assert Zeros(k) + s == Zeros(k);
      if k > 0 {
        assert Zeros(k)[..k - 1] == Zeros(k - 1);
        ParseLeadingZeros(k - 1, []);
        assert Zeros(k - 1) + [] == Zeros(k - 1);
      }
    } else {
      var t := Zeros(k) + s;
      assert t[..|t| - 1] == Zeros(k) + s[..|s| - 1];
      ParseLeadingZeros(k, s[..|s| - 1]);
    }
  }

  /** `%0<width>d` of a non-negative value: left-padded with zeros to at least `width` digits. */
  function PadNat(n: nat, width: nat): (r: string)
    ensures AllDigits(r)
    ensures |r| == if |NatToString(n)| < width then width else |NatToString(n)|
  {
    var d := NatToString(n);
    if |d| < width then Zeros(width - |d|) + d else d
  }

  /** Round trip: zero-padded digits read back as the same value. */
  lemma ParsePadNat(n: nat, width: nat)
    ensures ParseNat(PadNat(n, width)) == n
  {
    var d := NatToString(n);
    ParseNatToString(n);
    if |d| < width {
      ParseLeadingZeros(width - |d|, d);
    }
  }

  /** `%d` of any integer. */
  function IntToString(i: int): string {
    if i < 0 then "-" + NatToString(-i) else NatToString(i)
  }

  /**
   * `%0<width>d` of any integer: the sign counts toward the width and the zeros
   * go between the sign and the digits (so `%03d` of -5 is "-05").
   */
  function PadInt(i: int, width: nat): string {
    if i < 0 then "-" + PadNat(-i, if width > 0 then width - 1 else 0) else PadNat(i, width)
  }
}
