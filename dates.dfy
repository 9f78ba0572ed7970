/**
 * Calendar dates as the library reads and writes them: Go's time layouts
 * "2006-01-02" (read and written), "20060102" (written in voided series)
 * and "02/01/2006" (written for the validation service).
 */
module Dates {
  import opened Wrappers
  import opened Decimal

  /** A day of the proleptic Gregorian calendar; negative years are not modelled. */
  datatype Date = Date(year: nat, month: nat, day: nat)

  predicate IsLeap(year: nat) {
    year % 4 == 0 && (year % 100 != 0 || year % 400 == 0)
  }

  function DaysIn(month: nat, year: nat): (n: nat)
    requires 1 <= month <= 12
    ensures 28 <= n <= 31
  {
    if month == 2 then (if IsLeap(year) then 29 else 28)
    else if month == 4 || month == 6 || month == 9 || month == 11 then 30
    else 31
  }

  /** A date the four-digit layouts can write and read back: a real day of a year below 10000. */
  predicate ValidDate(d: Date) {
    d.year < 10000 && 1 <= d.month <= 12 && 1 <= d.day <= DaysIn(d.month, d.year)
  }

  /** Layout "2006-01-02". */
  function FormatIso(d: Date): string {
    PadNat(d.year, 4) + "-" + PadNat(d.month, 2) + "-" + PadNat(d.day, 2)
  }

  /** Layout "20060102". */
  function FormatCompact(d: Date): string {
    PadNat(d.year, 4) + PadNat(d.month, 2) + PadNat(d.day, 2)
  }

  /** Layout "02/01/2006". */
  function FormatSlashes(d: Date): string {
    PadNat(d.day, 2) + "/" + PadNat(d.month, 2) + "/" + PadNat(d.year, 4)
  }

  /** The text has the shape NNNN-NN-NN. */
  predicate IsoShaped(s: string) {
    |s| == 10 && AllDigits(s[..4]) && s[4] == '-' && AllDigits(s[5..7]) && s[7] == '-' && AllDigits(s[8..])
  }

  /**
   * time.Parse("2006-01-02", s): exactly four year digits, two month digits
   * and two day digits, a month in 1..12 and a day that exists in that month.
   */
  function ParseIso(s: string): (r: Option<Date>)
    ensures r.Some? ==> ValidDate(r.value) && IsoShaped(s)
  {
    if !IsoShaped(s) then None
    else
      var d := Date(ParseNat(s[..4]), ParseNat(s[5..7]), ParseNat(s[8..]));
      assert d.year < 10000 by { ParseNatBound(s[..4]); }
      if 1 <= d.month <= 12 && 1 <= d.day <= DaysIn(d.month, d.year) then Some(d) else None
  }

  lemma {:induction false} ParseNatBound(s: string)
    requires AllDigits(s)
    ensures ParseNat(s) < Power10(|s|)
    decreases |s|
  {
    if s != [] {
      ParseNatBound(s[..|s| - 1]);
    }
  }

  function Power10(k: nat): nat {
    if k == 0 then 1 else 10 * Power10(k - 1)
  }

  /** Writing a valid date and reading it back gives the date. */
  lemma ParseFormatIso(d: Date)
    requires ValidDate(d)
    ensures ParseIso(FormatIso(d)) == Some(d)
  {
    var s := FormatIso(d);
    var y, m, n := PadNat(d.year, 4), PadNat(d.month, 2), PadNat(d.day, 2);
    assert Power10(2) == 100 && Power10(4) == 10000;
    PadRoundTrip(d.year, 4);
    PadRoundTrip(d.month, 2);
    PadRoundTrip(d.day, 2);
    assert s[..4] == y && s[5..7] == m && s[8..] == n;
  }

  /** A text the parser accepts is exactly how that date is written. */
  lemma FormatParseIso(s: string)
    requires ParseIso(s).Some?
    ensures FormatIso(ParseIso(s).value) == s
  {
    var d := ParseIso(s).value;
    PadParse(s[..4]);
    PadParse(s[5..7]);
    PadParse(s[8..]);
    assert s == s[..4] + "-" + s[5..7] + "-" + s[8..];
  }

  /** A non-empty run of digits is the zero-padded form of its value at its own width. */
  lemma {:induction false} PadParse(s: string)
    requires |s| > 0 && AllDigits(s)
    ensures PadNat(ParseNat(s), |s|) == s
    decreases |s|
  {
    var init := s[..|s| - 1];
    var d := DigitValue(s[|s| - 1]);
    assert s == init + [DigitChar(d)];
    if init == [] {
      assert ParseNat(s) == d;
    } else {
      PadParse(init);
      ParseNatBound(init);
      PadNatLast(ParseNat(init), |init|, d);
    }
  }

  /** Appending a digit to a padded number pads the number ten times larger plus that digit. */
  lemma PadNatLast(n: nat, width: nat, d: nat)
    requires d < 10 && width >= 1 && n < Power10(width)
    ensures PadNat(10 * n + d, width + 1) == PadNat(n, width) + [DigitChar(d)]
  {
    PadRoundTrip(n, width);
    PadRoundTrip(10 * n + d, width + 1);
    var a := PadNat(n, width) + [DigitChar(d)];
    var b := PadNat(10 * n + d, width + 1);
    assert |a| == width + 1;
    assert a[..|a| - 1] == PadNat(n, width);
    assert AllDigits(a);
    assert ParseNat(a) == 10 * n + d;
    DigitsDetermined(a, b);
  }

  /** The padded text of a number below 10^width has exactly that width and reads back as the number. */
  lemma PadRoundTrip(n: nat, width: nat)
    requires width >= 1 && n < Power10(width)
    ensures |PadNat(n, width)| == width && AllDigits(PadNat(n, width))
    ensures ParseNat(PadNat(n, width)) == n
  {
    NatToStringLength(n, width);
    ParsePadNat(n, width);
  }

  lemma {:induction false} NatToStringLength(n: nat, width: nat)
    requires n < Power10(width)
    ensures width == 0 || |NatToString(n)| <= width
    decreases width
  {
    if width > 1 && n >= 10 {
      NatToStringLength(n / 10, width - 1);
    }
  }

  /** Two digit runs of the same length with the same value are the same text. */
  lemma {:induction false} DigitsDetermined(a: string, b: string)
    requires AllDigits(a) && AllDigits(b) && |a| == |b| && ParseNat(a) == ParseNat(b)
    ensures a == b
    decreases |a|
  {
    if a != [] {
      var a', b' := a[..|a| - 1], b[..|b| - 1];
      LastDigit(ParseNat(a'), DigitValue(a[|a| - 1]), ParseNat(b'), DigitValue(b[|b| - 1]));
      DigitsDetermined(a', b');
      assert a == a' + [a[|a| - 1]];
      assert b == b' + [b[|b| - 1]];
    }
  }

  /** A number written in base ten determines its last digit and the rest. */
  lemma LastDigit(x: nat, dx: nat, y: nat, dy: nat)
    requires dx < 10 && dy < 10 && 10 * x + dx == 10 * y + dy
    ensures x == y && dx == dy
  {
  }

  /** The compact layout of a valid date is eight digits that read back as its year, month and day. */
  lemma CompactParts(d: Date)
    requires ValidDate(d)
    ensures var c := FormatCompact(d);
      |c| == 8 && AllDigits(c)
      && ParseNat(c[..4]) == d.year && ParseNat(c[4..6]) == d.month && ParseNat(c[6..]) == d.day
  {
    var c := FormatCompact(d);
    assert Power10(2) == 100 && Power10(4) == 10000;
    PadRoundTrip(d.year, 4);
    PadRoundTrip(d.month, 2);
    PadRoundTrip(d.day, 2);
    assert c[..4] == PadNat(d.year, 4);
    assert c[4..6] == PadNat(d.month, 2);
    assert c[6..] == PadNat(d.day, 2);
  }
}
