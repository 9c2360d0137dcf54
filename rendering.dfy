/**
  Rendering a date as text with `strftime` and the exporter's `DATE_FORMAT`
  (`"%Y/%m/%d"`): a zero-padded 4-digit year, 2-digit month and 2-digit day
  separated by slashes.  Each numeric field reads back, as a decimal numeral,
  to the date component it came from.
*/
module Rendering {
  import opened Calendar

  /** The exporter's `DATE_FORMAT`. */
  const DateFormat := "%Y/%m/%d"

  predicate IsDigit(c: char) {
    '0' <= c <= '9'
  }

  predicate AllDigits(s: string) {
    forall i | 0 <= i < |s| :: IsDigit(s[i])
  }

  /** The shape of every rendered date: `DDDD/DD/DD`. */
  predicate IsCanonical(s: string) {
    && |s| == 10 && s[4] == '/' && s[7] == '/'
    && AllDigits(s[..4]) && AllDigits(s[5..7]) && AllDigits(s[8..])
  }

  function DigitChar(k: int): (c: char)
    requires 0 <= k < 10
    ensures IsDigit(c)
  {
    ('0' as int + k) as char
  }

  lemma DigitCharValues()
    ensures DigitChar(0) == '0' && DigitChar(1) == '1' && DigitChar(2) == '2' && DigitChar(3) == '3'
    ensures DigitChar(4) == '4' && DigitChar(5) == '5' && DigitChar(6) == '6' && DigitChar(7) == '7'
    ensures DigitChar(8) == '8' && DigitChar(9) == '9'
  {
  }

  function Pow10(k: nat): (p: nat)
    ensures p >= 1
  {
    if k == 0 then 1 else 10 * Pow10(k - 1)
  }

  /** The number a string of decimal digits denotes (most significant digit first). */
  function DecimalValue(s: string): (v: nat)
    requires AllDigits(s)
  {
    if s == [] then 0 else 10 * DecimalValue(s[..|s| - 1]) + (s[|s| - 1] as int - '0' as int)
  }

  /**
    `n` written in exactly `width` decimal digits, zero-padded on the left, as the
    directives `%Y`, `%m` and `%d` print a date component.
  */
  function Pad(n: nat, width: nat): (s: string)
    requires n < Pow10(width)
    ensures |s| == width && AllDigits(s)
    ensures DecimalValue(s) == n
    decreases width
  {
    if width == 0 then
      ""
    else
      var s := Pad(n / 10, width - 1) + [DigitChar(n % 10)];
      assert s[..|s| - 1] == Pad(n / 10, width - 1);
      s
  }

  /**
    `strftime` for the directives `%Y`, `%m` and `%d`; every other character of the
    format is copied unchanged.
  */
  function Strftime(format: string, d: PyDate): (s: string)
    decreases |format|
  {
    if format == [] then
      ""
    else if |format| >= 2 && format[0] == '%' && format[1] == 'Y' then
      Pad(d.year, 4) + Strftime(format[2..], d)
    else if |format| >= 2 && format[0] == '%' && format[1] == 'm' then
      Pad(d.month, 2) + Strftime(format[2..], d)
    else if |format| >= 2 && format[0] == '%' && format[1] == 'd' then
      Pad(d.day, 2) + Strftime(format[2..], d)
    else
      [format[0]] + Strftime(format[1..], d)
  }

  /** A character other than `%` is copied. */
  lemma StrftimeCopies(d: PyDate, c: char, rest: string)
    requires c != '%'
    ensures Strftime([c] + rest, d) == [c] + Strftime(rest, d)
  {
    var f := [c] + rest;
    assert f[0] == c && f[1..] == rest;
  }

  /** `%Y` prints the year in four digits. */
  lemma StrftimeYear(d: PyDate, rest: string)
    ensures Strftime("%Y" + rest, d) == Pad(d.year, 4) + Strftime(rest, d)
  {
    var f := "%Y" + rest;
    assert f[0] == '%' && f[1] == 'Y' && f[2..] == rest;
  }

  /** `%m` prints the month in two digits. */
  lemma StrftimeMonth(d: PyDate, rest: string)
    ensures Strftime("%m" + rest, d) == Pad(d.month, 2) + Strftime(rest, d)
  {
    var f := "%m" + rest;
    assert f[0] == '%' && f[1] == 'm' && f[2..] == rest;
  }

  /** `%d` prints the day in two digits. */
  lemma StrftimeDay(d: PyDate, rest: string)
    ensures Strftime("%d" + rest, d) == Pad(d.day, 2) + Strftime(rest, d)
  {
    var f := "%d" + rest;
    assert f[0] == '%' && f[1] == 'd' && f[2..] == rest;
  }

  /** `DATE_FORMAT` expands to the padded year, month and day joined by slashes. */
  lemma StrftimeDateFormat(d: PyDate)
    ensures Strftime(DateFormat, d) == Pad(d.year, 4) + "/" + Pad(d.month, 2) + "/" + Pad(d.day, 2)
  {
    StrftimeDay(d, "");
    assert "%d" + "" == "%d";
    StrftimeCopies(d, '/', "%d");
    StrftimeMonth(d, "/%d");
    StrftimeCopies(d, '/', "%m/%d");
    StrftimeYear(d, "/%m/%d");
    assert DateFormat == "%Y" + "/%m/%d";
  }

  /** The three fields of `y/m/dd` sit at positions 0..3, 5..6 and 8..9. */
  lemma FieldsOf(y: string, m: string, dd: string)
    requires |y| == 4 && |m| == 2 && |dd| == 2
    ensures var s := y + "/" + m + "/" + dd;
      |s| == 10 && s[4] == '/' && s[7] == '/' && s[..4] == y && s[5..7] == m && s[8..] == dd
  {
  }

  /**
    `d.strftime(DATE_FORMAT)`: ten characters, slashes at positions 4 and 7 and
    digits elsewhere, and the three digit groups read back as the year, month and
    day of `d`.
  */
  function Format(d: PyDate): (s: string)
    ensures IsCanonical(s)
    ensures DecimalValue(s[..4]) == d.year
    ensures DecimalValue(s[5..7]) == d.month
    ensures DecimalValue(s[8..]) == d.day
  {
    StrftimeDateFormat(d);
    FieldsOf(Pad(d.year, 4), Pad(d.month, 2), Pad(d.day, 2));
    Strftime(DateFormat, d)
  }

  /** Dropping two and three decimal digits one at a time. */
  lemma QuotientsOfTen(n: nat)
    ensures n / 10 / 10 == n / 100 && n / 100 / 10 == n / 1000
  {
    var q, r := n / 1000, n % 1000;
    assert n == 1000 * q + r && n / 100 == 10 * q + r / 100 && n / 10 == 100 * q + r / 10;
  }

  /** A four-digit field, digit by digit. */
  lemma PadFour(n: nat)
    requires n < 10000
    ensures Pad(n, 4) == [DigitChar(n / 1000), DigitChar(n / 100 % 10), DigitChar(n / 10 % 10), DigitChar(n % 10)]
  {
    QuotientsOfTen(n);
    assert Pad(n / 1000, 1) == [DigitChar(n / 1000)];
  }

  /** A two-digit field, digit by digit. */
  lemma PadTwo(n: nat)
    requires n < 100
    ensures Pad(n, 2) == [DigitChar(n / 10), DigitChar(n % 10)]
  {
    assert Pad(n, 2) == Pad(n / 10, 1) + [DigitChar(n % 10)];
  }

  /** The ten characters of `Format(d)`, digit by digit. */
  lemma FormatDigits(d: PyDate)
    ensures Format(d) == [
      DigitChar(d.year / 1000), DigitChar(d.year / 100 % 10), DigitChar(d.year / 10 % 10), DigitChar(d.year % 10), '/',
      DigitChar(d.month / 10), DigitChar(d.month % 10), '/',
      DigitChar(d.day / 10), DigitChar(d.day % 10)]
  {
    StrftimeDateFormat(d);
    PadFour(d.year);
    PadTwo(d.month);
    PadTwo(d.day);
  }

  /** `Format(d)` is the text `s` when each character of `s` is the matching digit of `d` or a slash. */
  lemma FormatIs(d: PyDate, s: string)
    requires |s| == 10 && s[4] == '/' && s[7] == '/'
    requires s[0] == DigitChar(d.year / 1000) && s[1] == DigitChar(d.year / 100 % 10)
    requires s[2] == DigitChar(d.year / 10 % 10) && s[3] == DigitChar(d.year % 10)
    requires s[5] == DigitChar(d.month / 10) && s[6] == DigitChar(d.month % 10)
    requires s[8] == DigitChar(d.day / 10) && s[9] == DigitChar(d.day % 10)
    ensures Format(d) == s
  {
    FormatDigits(d);
    assert s == [s[0], s[1], s[2], s[3], s[4], s[5], s[6], s[7], s[8], s[9]];
  }

  /** Different dates never render to the same text. */
  lemma FormatInjective(d1: PyDate, d2: PyDate)
    requires Format(d1) == Format(d2)
    ensures d1 == d2
  {
    var s := Format(d1);
    assert DecimalValue(s[..4]) == d1.year == d2.year;
  }
}
