/**
  The proleptic Gregorian calendar that Python's `datetime.date` uses: dates as
  (year, month, day), and the count of days between a date and 1970-01-01.

  `DaysSinceEpoch` is the reference definition (days before the year, plus days
  before the month, plus the day of the month); `CivilFromDays` is the inverse
  conversion that `date.fromtimestamp` performs, and the two are proved to be
  mutually inverse on valid dates.
*/
module Calendar {

  datatype Date = Date(year: int, month: int, day: int)

  /** `datetime.MINYEAR` and `datetime.MAXYEAR`. */
  const MinYear := 1
  const MaxYear := 9999

  /** Days from 0001-01-01 to 1970-01-01. */
  const EpochDayNumber := 719162

  predicate IsLeapYear(y: int) {
    y % 4 == 0 && (y % 100 != 0 || y % 400 == 0)
  }

  function DaysInYear(y: int): (n: int) {
    if IsLeapYear(y) then 366 else 365
  }

  function DaysInMonth(y: int, m: int): (n: int)
    requires 1 <= m <= 12
    ensures 28 <= n <= 31
  {
    if m == 2 then (if IsLeapYear(y) then 29 else 28)
    else if m == 4 || m == 6 || m == 9 || m == 11 then 30
    else 31
  }

  /** A date of the proleptic Gregorian calendar (any year). */
  predicate IsCivil(d: Date) {
    1 <= d.month <= 12 && 1 <= d.day <= DaysInMonth(d.year, d.month)
  }

  /** A date that a Python `datetime.date` object can hold. */
  predicate InPythonRange(d: Date) {
    IsCivil(d) && MinYear <= d.year <= MaxYear
  }

  type PyDate = d: Date | InPythonRange(d) witness Date(1970, 1, 1)

  /** Days of year `y` that lie in the months before month `m` (`m == 13` gives the whole year). */
  function DaysBeforeMonth(y: int, m: int): (n: int)
    requires 1 <= m <= 13
  {
    if m == 1 then 0 else DaysBeforeMonth(y, m - 1) + DaysInMonth(y, m - 1)
  }

  /** Days from 0001-01-01 to the first day of year `y`. */
  function DaysBeforeYear(y: int): (n: int) {
    var p := y - 1;
    365 * p + p / 4 - p / 100 + p / 400
  }

  /** Days from 1970-01-01 to `d`; negative before the epoch. */
  function DaysSinceEpoch(d: Date): (z: int)
    requires IsCivil(d)
  {
    DaysBeforeYear(d.year) + DaysBeforeMonth(d.year, d.month) + d.day - 1 - EpochDayNumber
  }

  /** Lexicographic order on dates: earlier year, then earlier month, then earlier day. */
  predicate Before(d1: Date, d2: Date) {
    d1.year < d2.year
    || (d1.year == d2.year && (d1.month < d2.month || (d1.month == d2.month && d1.day < d2.day)))
  }

  // ---------------------------------------------------------------------------
  // Facts about the day counts
  // ---------------------------------------------------------------------------

  lemma DaysBeforeMonthTable(y: int)
    ensures var l := if IsLeapYear(y) then 1 else 0;
      && DaysBeforeMonth(y, 1) == 0
      && DaysBeforeMonth(y, 2) == 31
      && DaysBeforeMonth(y, 3) == 59 + l
      && DaysBeforeMonth(y, 4) == 90 + l
      && DaysBeforeMonth(y, 5) == 120 + l
      && DaysBeforeMonth(y, 6) == 151 + l
      && DaysBeforeMonth(y, 7) == 181 + l
      && DaysBeforeMonth(y, 8) == 212 + l
      && DaysBeforeMonth(y, 9) == 243 + l
      && DaysBeforeMonth(y, 10) == 273 + l
      && DaysBeforeMonth(y, 11) == 304 + l
      && DaysBeforeMonth(y, 12) == 334 + l
      && DaysBeforeMonth(y, 13) == 365 + l
  {
    var l := if IsLeapYear(y) then 1 else 0;
    assert DaysBeforeMonth(y, 2) == 31;
    assert DaysBeforeMonth(y, 3) == 59 + l;
    assert DaysBeforeMonth(y, 4) == 90 + l;
    assert DaysBeforeMonth(y, 5) == 120 + l;
    assert DaysBeforeMonth(y, 6) == 151 + l;
    assert DaysBeforeMonth(y, 7) == 181 + l;
    assert DaysBeforeMonth(y, 8) == 212 + l;
    assert DaysBeforeMonth(y, 9) == 243 + l;
    assert DaysBeforeMonth(y, 10) == 273 + l;
    assert DaysBeforeMonth(y, 11) == 304 + l;
    assert DaysBeforeMonth(y, 12) == 334 + l;
  }

  /** The twelve months make up the year. */
  lemma MonthsFillYear(y: int)
    ensures DaysBeforeMonth(y, 13) == DaysInYear(y)
  {
    DaysBeforeMonthTable(y);
  }

  lemma {:induction false} DaysBeforeMonthMonotone(y: int, m1: int, m2: int)
    requires 1 <= m1 <= m2 <= 13
    ensures DaysBeforeMonth(y, m1) <= DaysBeforeMonth(y, m2)
    decreases m2 - m1
  {
    if m1 < m2 {
      DaysBeforeMonthMonotone(y, m1, m2 - 1);
    }
  }

  /** The quotient `y / k` grows by one exactly at the multiples of `k`. */
  lemma QuotientStep4(y: int)
    ensures y / 4 - (y - 1) / 4 == (if y % 4 == 0 then 1 else 0)
  {
    assert y - 1 == 4 * ((y - 1) / 4) + (y - 1) % 4;
  }

  lemma QuotientStep100(y: int)
    ensures y / 100 - (y - 1) / 100 == (if y % 100 == 0 then 1 else 0)
  {
    assert y - 1 == 100 * ((y - 1) / 100) + (y - 1) % 100;
  }

  lemma QuotientStep400(y: int)
    ensures y / 400 - (y - 1) / 400 == (if y % 400 == 0 then 1 else 0)
  {
    assert y - 1 == 400 * ((y - 1) / 400) + (y - 1) % 400;
  }

  lemma MultipleOf400(y: int)
    requires y % 400 == 0
    ensures y % 100 == 0
  {
    assert y == 100 * (4 * (y / 400));
  }

  lemma MultipleOf100(y: int)
    requires y % 100 == 0
    ensures y % 4 == 0
  {
    assert y == 4 * (25 * (y / 100));
  }

  /** Across the start of year `y`, the leap-day count of the closed form grows by one exactly when `y` is leap. */
  lemma LeapStep(y: int)
    ensures (y / 4 - (y - 1) / 4) - (y / 100 - (y - 1) / 100) + (y / 400 - (y - 1) / 400)
      == (if IsLeapYear(y) then 1 else 0)
  {
    QuotientStep4(y);
    QuotientStep100(y);
    QuotientStep400(y);
    if y % 400 == 0 {
      MultipleOf400(y);
      MultipleOf100(y);
    } else if y % 100 == 0 {
      MultipleOf100(y);
    }
  }

  /** Consecutive years are `DaysInYear` apart. */
  lemma DaysBeforeNextYear(y: int)
    ensures DaysBeforeYear(y + 1) == DaysBeforeYear(y) + DaysInYear(y)
  {
    LeapStep(y);
  }

  lemma {:induction false} DaysBeforeYearIncreasing(y1: int, y2: int)
    requires y1 < y2
    ensures DaysBeforeYear(y1) + DaysInYear(y1) <= DaysBeforeYear(y2)
    decreases y2 - y1
  {
    DaysBeforeNextYear(y1);
    if y1 + 1 < y2 {
      DaysBeforeYearIncreasing(y1 + 1, y2);
    }
  }

  /** Counting days preserves the order of dates, so it is injective on valid dates. */
  lemma DaysSinceEpochIncreasing(d1: Date, d2: Date)
    requires IsCivil(d1) && IsCivil(d2) && Before(d1, d2)
    ensures DaysSinceEpoch(d1) < DaysSinceEpoch(d2)
  {
    var y1, m1 := d1.year, d1.month;
    // Every date of a month lies before the next month starts.
    assert DaysBeforeMonth(y1, m1 + 1) == DaysBeforeMonth(y1, m1) + DaysInMonth(y1, m1);
    if y1 < d2.year {
      DaysBeforeMonthMonotone(y1, m1 + 1, 13);
      MonthsFillYear(y1);
      DaysBeforeYearIncreasing(y1, d2.year);
      DaysBeforeMonthMonotone(d2.year, 1, d2.month);
    } else if m1 < d2.month {
      DaysBeforeMonthMonotone(y1, m1 + 1, d2.month);
    }
  }

  lemma DaysSinceEpochInjective(d1: Date, d2: Date)
    requires IsCivil(d1) && IsCivil(d2) && DaysSinceEpoch(d1) == DaysSinceEpoch(d2)
    ensures d1 == d2
  {
    if Before(d1, d2) {
      DaysSinceEpochIncreasing(d1, d2);
    } else if Before(d2, d1) {
      DaysSinceEpochIncreasing(d2, d1);
    }
  }

  // ---------------------------------------------------------------------------
  // From a day count back to a date
  // ---------------------------------------------------------------------------

  /** `DaysBeforeYear` of a year written in 400-, 100-, 4- and 1-year blocks. */
  lemma DaysBeforeYearInBlocks(a: int, b: int, c: int, e: int)
    requires 0 <= b <= 3 && 0 <= c <= 24 && 0 <= e <= 3
    ensures DaysBeforeYear(400 * a + 100 * b + 4 * c + e + 1) == 146097 * a + 36524 * b + 1461 * c + 365 * e
  {
    var p := 400 * a + 100 * b + 4 * c + e;
    assert p / 4 == 100 * a + 25 * b + c;
    assert p / 100 == 4 * a + b;
    assert p / 400 == a;
  }

  /**
    Splits `n`, a count of days from 0001-01-01, into a year and a 0-based day
    of that year, using the 400-year cycle of 146097 days, centuries of 36524
    days, 4-year blocks of 1461 days and years of 365 days.
  */
  function YearAndDayOfYear(n: int): (yd: (int, int))
    ensures 0 <= yd.1 < DaysInYear(yd.0)
    ensures DaysBeforeYear(yd.0) + yd.1 == n
  {
    var n400, r400 := n / 146097, n % 146097;
    // the last day of a 400-year cycle belongs to the fourth century
    var n100 := if r400 / 36524 == 4 then 3 else r400 / 36524;
    var r100 := r400 - 36524 * n100;
    var n4, r4 := r100 / 1461, r100 % 1461;
    // the last day of a 4-year block belongs to its fourth year
    var n1 := if r4 / 365 == 4 then 3 else r4 / 365;
    var r1 := r4 - 365 * n1;
    assert 0 <= n100 <= 3 && 0 <= r100 <= 36524 && (n100 < 3 ==> r100 < 36524);
    assert 0 <= n4 <= 24 && r100 == 1461 * n4 + r4 && 0 <= r4 < 1461;
    assert 0 <= n1 <= 3 && 0 <= r1 <= 365 && (r1 == 365 ==> r4 == 1460);
    DaysBeforeYearInBlocks(n400, n100, n4, n1);
    var y := 400 * n400 + 100 * n100 + 4 * n4 + n1 + 1;
    LastDayOfBlockIsLeap(n400, n100, n4, n1, r100, r4, r1);
    (y, r1)
  }

  /** Day 366 of a year, which only the last day of a 4-year block can be, falls in a leap year. */
  lemma LastDayOfBlockIsLeap(a: int, b: int, c: int, e: int, r100: int, r4: int, r1: int)
    requires 0 <= b <= 3 && 0 <= c <= 24 && 0 <= e <= 3
    requires 0 <= r100 <= 36524 && (b < 3 ==> r100 < 36524)
    requires r100 == 1461 * c + r4 && 0 <= r4 < 1461
    requires r1 == r4 - 365 * e && (r1 == 365 ==> r4 == 1460 && e == 3)
    ensures r1 == 365 ==> IsLeapYear(400 * a + 100 * b + 4 * c + e + 1)
  {
    if r1 == 365 {
      var y := 400 * a + 100 * b + 4 * c + e + 1;
      assert y == 4 * (100 * a + 25 * b + c + 1);
      if c == 24 {
        assert b == 3;
        assert y == 400 * (a + 1);
      } else {
        assert y == 100 * (4 * a + b) + 4 * (c + 1) && 4 <= 4 * (c + 1) < 100;
      }
    }
  }

  /**
    Finds the month of year `y` holding day `r` (0-based) of the year, searching
    from month `m`, and the 1-based day within that month.
  */
  function MonthAndDay(y: int, r: int, m: int): (md: (int, int))
    requires 1 <= m <= 12
    requires DaysBeforeMonth(y, m) <= r < DaysInYear(y)
    ensures m <= md.0 <= 12 && 1 <= md.1 <= DaysInMonth(y, md.0)
    ensures DaysBeforeMonth(y, md.0) + md.1 - 1 == r
    decreases 12 - m
  {
    if r < DaysBeforeMonth(y, m) + DaysInMonth(y, m) then
      (m, r - DaysBeforeMonth(y, m) + 1)
    else
      MonthsFillYear(y);
      MonthAndDay(y, r, m + 1)
  }

  /**
    The date `z` days after 1970-01-01 (before it when `z` is negative): a valid
    date whose day count is `z`.
  */
  function CivilFromDays(z: int): (d: Date)
    ensures IsCivil(d)
    ensures DaysSinceEpoch(d) == z
  {
    var (y, r) := YearAndDayOfYear(z + EpochDayNumber);
    var (m, day) := MonthAndDay(y, r, 1);
    Date(y, m, day)
  }

  /** Counting the days of a valid date and converting back gives the date. */
  lemma CivilFromDaysOfDate(d: Date)
    requires IsCivil(d)
    ensures CivilFromDays(DaysSinceEpoch(d)) == d
  {
    DaysSinceEpochInjective(CivilFromDays(DaysSinceEpoch(d)), d);
  }

  /** The dates a Python `date` can hold are exactly the day counts in this range. */
  lemma PythonRangeInDays(d: Date)
    requires IsCivil(d)
    ensures InPythonRange(d) <==> -EpochDayNumber <= DaysSinceEpoch(d) <= 2932896
  {
    var first, last := Date(MinYear, 1, 1), Date(MaxYear, 12, 31);
    DaysBeforeMonthTable(MaxYear);
    assert DaysSinceEpoch(first) == -EpochDayNumber;
    assert DaysSinceEpoch(last) == 2932896;
    if Before(d, first) {
      DaysSinceEpochIncreasing(d, first);
    } else if Before(last, d) {
      DaysSinceEpochIncreasing(last, d);
    } else {
      if d != first { DaysSinceEpochIncreasing(first, d); }
      if d != last { DaysSinceEpochIncreasing(d, last); }
    }
  }
}
