/**
 * The `YYYYMM` period key sent to the statistics bureau's price-index API
 * (`get_date_for_cpi_lookup`, an f-string with `04d` and `02d` fields), and
 * its inverse.
 */
module PeriodKey {
  import opened Wrappers
  import opened Calendar

  predicate IsDigit(c: char) {
    '0' <= c <= '9'
  }

  predicate AllDigits(s: string) {
    forall i :: 0 <= i < |s| ==> IsDigit(s[i])
  }

  function DigitChar(d: int): (c: char)
    requires 0 <= d < 10
    ensures IsDigit(c)
  {
    (48 + d) as char
  }

  function DigitValue(c: char): (d: nat)
    requires IsDigit(c)
    ensures d < 10 && DigitChar(d) == c
  {
    c as int - 48
  }

  function Pow10(k: nat): (p: nat)
    ensures p >= 1
  {
    if k == 0 then 1 else 10 * Pow10(k - 1)
  }

  /** The shortest decimal spelling of `n`, most significant digit first. */
  function DecimalDigits(n: nat): (s: string)
    ensures |s| >= 1 && AllDigits(s)
    decreases n
  {
    if n < 10 then [DigitChar(n)] else DecimalDigits(n / 10) + [DigitChar(n % 10)]
  }

  function Zeros(k: nat): (s: string)
    ensures |s| == k && AllDigits(s)
  {
    seq(k, _ => '0')
  }

  /** Left-pads `s` with zeros to at least `width` characters. */
  function ZeroPadded(s: string, width: nat): (r: string)
    ensures |r| == if |s| < width then width else |s|
  {
    if |s| < width then Zeros(width - |s|) + s else s
  }

  /**
   * Python's `format(n, '0<width>d')`: sign-aware zero padding, the sign
   * counting towards the width; a number wider than `width` is not cut.
   * The result reads back as `n` (digits for `n >= 0`, a minus sign followed
   * by digits otherwise); it is at least `width` long, exactly `width` for a
   * non-negative number that fits, and a longer result carries no padding
   * zero.
   */
  function FormatPadded(n: int, width: nat): (r: string)
    ensures |r| >= width
    ensures n >= 0 ==> AllDigits(r) && ParseDigits(r) == n
    ensures n < 0 ==> |r| >= 2 && r[0] == '-' && AllDigits(r[1..]) && ParseDigits(r[1..]) == -n
    ensures width >= 1 && 0 <= n < Pow10(width) ==> |r| == width
    ensures n >= 0 && |r| > width ==> r == "0" || r[0] != '0'
    ensures n < 0 && |r| > width ==> r[1] != '0'
  {
    var magnitude := if n < 0 then -n else n;
    var padTo := if n < 0 then (if width > 0 then width - 1 else 0) else width;
    var digits := DecimalDigits(magnitude);
    ParseDecimalDigits(magnitude);
    LeadingDigitNonZero(magnitude);
    FitsWidth(magnitude, width);
    PaddedValue(digits, padTo);
    var padded := ZeroPadded(digits, padTo);
    if n < 0 then assert ("-" + padded)[1..] == padded; "-" + padded else padded
  }

  /** `get_date_for_cpi_lookup(year, month)`: for a four-digit year and a two-digit month, six digits that read back as (year, month). */
  function CpiLookupKey(year: int, month: int): (r: string)
    ensures 0 <= year <= 9999 && 0 <= month <= 99 ==>
      |r| == 6 && AllDigits(r) && ParseKey(r) == Some(Period(year, month))
  {
    var y, m := FormatPadded(year, 4), FormatPadded(month, 2);
    assert Pow10(4) == 10000 && Pow10(2) == 100;
    assert |y| == 4 ==> (y + m)[..4] == y && (y + m)[4..] == m;
    y + m
  }

  /** The value of a string of decimal digits (the empty string reads as 0). */
  function ParseDigits(s: string): nat
    requires AllDigits(s)
  {
    if s == [] then 0 else ParseDigits(s[..|s| - 1]) * 10 + DigitValue(s[|s| - 1])
  }

  /** Reads a six-digit key back into its (year, month) pair. */
  function ParseKey(s: string): Option<Period> {
    if |s| == 6 && AllDigits(s) then Some(Period(ParseDigits(s[..4]), ParseDigits(s[4..])))
    else None
  }

  lemma {:induction false} ParseDecimalDigits(n: nat)
    ensures ParseDigits(DecimalDigits(n)) == n
    decreases n
  {
    if n >= 10 {
      var s := DecimalDigits(n / 10);
      var t := s + [DigitChar(n % 10)];
      assert t[..|t| - 1] == s;
      ParseDecimalDigits(n / 10);
    }
  }

  lemma {:induction false} DecimalDigitsLength(n: nat, k: nat)
    requires n < Pow10(k) && k >= 1
    ensures |DecimalDigits(n)| <= k
    decreases n
  {
    if n >= 10 {
      assert k >= 2;
      assert n / 10 < Pow10(k - 1);
      DecimalDigitsLength(n / 10, k - 1);
    }
  }

  lemma {:induction false} ParseZeros(k: nat)
    ensures ParseDigits(Zeros(k)) == 0
  {
    if k > 0 {
      assert Zeros(k)[..k - 1] == Zeros(k - 1);
      ParseZeros(k - 1);
    }
  }

  lemma {:induction false} ParseLeadingZeros(k: nat, s: string)
    requires AllDigits(s)
    ensures ParseDigits(Zeros(k) + s) == ParseDigits(s)
    decreases |s|
  {
    if s == [] {
      assert Zeros(k) + s == Zeros(k);
      ParseZeros(k);
    } else {
      var t := Zeros(k) + s;
      assert t[..|t| - 1] == Zeros(k) + s[..|s| - 1];
      assert t[|t| - 1] == s[|s| - 1];
      ParseLeadingZeros(k, s[..|s| - 1]);
    }
  }

  /** Zero padding keeps a digit string's value. */
  lemma PaddedValue(s: string, width: nat)
    requires AllDigits(s)
    ensures AllDigits(ZeroPadded(s, width)) && ParseDigits(ZeroPadded(s, width)) == ParseDigits(s)
  {
    if |s| < width {
      ParseLeadingZeros(width - |s|, s);
    }
  }

  /** A number below `10^width` has at most `width` digits. */
  lemma FitsWidth(n: nat, width: nat)
    ensures width >= 1 && n < Pow10(width) ==> |DecimalDigits(n)| <= width
  {
    if width >= 1 && n < Pow10(width) {
      DecimalDigitsLength(n, width);
    }
  }

  /** Only 0 is spelled with a leading zero. */
  lemma {:induction false} LeadingDigitNonZero(n: nat)
    ensures n == 0 || DecimalDigits(n)[0] != '0'
    decreases n
  {
    if n >= 10 {
      LeadingDigitNonZero(n / 10);
      assert DecimalDigits(n)[0] == DecimalDigits(n / 10)[0];
    }
  }

  /** Distinct periods are looked up under distinct keys. */
  lemma KeyInjective(y1: int, m1: int, y2: int, m2: int)
    requires 0 <= y1 <= 9999 && 0 <= m1 <= 99
    requires 0 <= y2 <= 9999 && 0 <= m2 <= 99
    ensures CpiLookupKey(y1, m1) == CpiLookupKey(y2, m2) <==> y1 == y2 && m1 == m2
  {
  }
}
