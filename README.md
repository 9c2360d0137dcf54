# SQLExporter date normalization in Dafny

SQLExporter is a small Python class that exports rows of a database into a
delimiter-separated file. Its one piece of real logic is
`SQLExporter.normalize_date` (`sql-export.py`): it turns one raw date value into
text of the form `DATE_FORMAT = "%Y/%m/%d"`. The route is chosen by a table
keyed on the value's exact Python type:

- `str` goes to `dateutil.parser.parse`, and the parsed date is rendered;
- `int` and `float` go to `datetime.date.fromtimestamp`, which gives the local
  calendar date of the timestamp, and that date is rendered;
- `datetime.date` is rendered directly;
- any other type, including `bool` (a subclass of `int`) and
  `datetime.datetime` (a subclass of `date`), finds no entry in the table:
  `.get(type(date))` returns `None`, and calling it raises `TypeError`
  (`sql-export.py:95`). The model calls that error `TypeNotHandled`.

The project has four modules:

- `Results` (`results.dfy`): `Option` and `Result`.
- `Calendar` (`calendar.dfy`): the proleptic Gregorian calendar of Python's
  `date`. `DaysSinceEpoch` counts the days from 1970-01-01 to a date. It is the
  reference definition: days before the year, plus days before the month, plus
  the day of the month. `CivilFromDays` converts a day count back to a date,
  using 400-year, 100-year, 4-year and 1-year blocks and then a month search.
  The two are proved mutually inverse, and the day count is proved to follow
  the order of dates.
- `Rendering` (`rendering.dfy`): `strftime` for the `%Y`, `%m` and `%d`
  directives, and `Format`, which applies it with `DATE_FORMAT`. Every result is
  `DDDD/DD/DD`, and each digit group reads back, as a decimal numeral, to the
  year, month or day it came from.
- `DateNormalizer` (`normalizer.dfy`): the raw value as a tagged union
  (`RawDate`), its Python type (`TypeOf`), the keys of the dispatch table
  (`HandledTypes`), `FromTimestamp` and `Normalize`, plus the assertions of
  `run_tests` as lemmas.

Two things the source takes from its environment are parameters here:

- The host time zone is `utcOffset`, a fixed offset in seconds east of UTC.
  `fromtimestamp` (`sql-export.py:92`) gives the local date. `1535516087` is
  2018-08-29 04:14:47 UTC, so the test at line 103 that expects `2018/08/28`
  holds only when the offset is between -101687 and -15288 seconds
  (`PinnedIntegerNeedsOffset`). That means a host more than 4h14m47s behind
  UTC, for example US Central Daylight Time (-18000).
- The text parser is `parse: string -> Option<PyDate>`. It is uninterpreted, and
  only the test's example is pinned. The test expects `"04.02.1992"` to give
  `"1992/04/02"`. That is the month-first reading (April 2), which is dateutil's
  default. `PinnedTextNeedsMonthFirst` proves that the expected text forces
  that reading. A day-first reading (February 4) would fail the test.

`Normalize` has no `reads` clause, so in the model repeated calls with the
same arguments give the same result. The source is not deterministic in the
same way. `dateutil.parser.parse` is called without a `default`
(`sql-export.py:91`), so it fills the fields missing from a partial date such
as `"Aug 28"` from the current clock. `date.fromtimestamp` (`sql-export.py:92`)
reads the host's time zone at the moment of the call. The model fixes both:
`parse` depends on the string alone, and `utcOffset` is passed in.

The model follows Python 3:

- `fromtimestamp` rounds a float timestamp toward negative infinity to whole
  seconds, so `Floating(x)` is modelled as an `x.Floor`-second timestamp.
- `int` is unbounded. An out-of-range timestamp fails with
  `TimestampOutOfRange`, which stands for `OverflowError`, `OSError` and
  `ValueError` alike.

## Model

| member | source | states |
|---|---|---|
| `DateNormalizer.Normalize` | sql-export.py:90-95 | every successful result has the `DDDD/DD/DD` shape of `DATE_FORMAT` |
| `DateNormalizer.DispatchOnExactType` | sql-export.py:90-95 | the value fails for want of a handler exactly when `type(date)` is not one of the four keys `str`, `int`, `float`, `datetime.date` |
| `DateNormalizer.SubclassInstancesRejected` | sql-export.py:90-95 | `bool` and `datetime.datetime` values are `isinstance` of a handled type, yet the exact-type lookup rejects them |
| `DateNormalizer.TextDelegatesToParser` | sql-export.py:91 | a string succeeds exactly when the parser accepts it; a rejection is reported as such, and an accepted date is rendered with the same `Format` |
| `DateNormalizer.FromTimestamp` | sql-export.py:92-93 | `fromtimestamp` succeeds exactly when the local instant lies in years 1..9999; its date is the local calendar day that contains the instant |
| `DateNormalizer.EpochIsLocalDate` | sql-export.py:92 | an `int` timestamp renders as the text of any supported date whose local day (of 86400 seconds, shifted by the UTC offset) contains it |
| `DateNormalizer.EpochOutOfRange` | sql-export.py:92 | an `int` timestamp fails, with the out-of-range error, exactly when its local instant is before year 1 or after year 9999 |
| `DateNormalizer.FloatAgreesWithInteger` | sql-export.py:92-93 | a `float` in `[n, n + 1)` gives the same result as the `int` `n` |
| `DateNormalizer.CalendarDateFormattedDirectly` | sql-export.py:94 | a `datetime.date` is rendered without conversion: the digit groups are its year, month and day, for any offset and parser |
| `DateNormalizer.PinnedTextExample` | sql-export.py:102 | with a month-first parser, `"04.02.1992"` gives `"1992/04/02"` |
| `DateNormalizer.PinnedTextNeedsMonthFirst` | sql-export.py:102 | the expected `"1992/04/02"` holds only if the parser reads `"04.02.1992"` as April 2, 1992 |
| `DateNormalizer.PinnedIntegerNeedsOffset` | sql-export.py:103 | `1535516087` gives `"2018/08/28"` exactly when the UTC offset is in [-101687, -15288] |
| `DateNormalizer.PinnedIntegerExample` | sql-export.py:103 | on a UTC-5 host, `1535516087` gives `"2018/08/28"` |
| `DateNormalizer.PinnedIntegerInUtc` | sql-export.py:103 | on a UTC host, the same timestamp gives `"2018/08/29"` |
| `DateNormalizer.PinnedFloatExample` | sql-export.py:104 | on a UTC-5 host, `1535516087.322354` gives `"2018/08/28"` |
| `DateNormalizer.PinnedTodayExample` | sql-export.py:105 | the disabled (commented-out) test on `date.today()`, with the clock fixed at 2018-08-28: that date gives `"2018/08/28"` |
| `Calendar.CivilFromDays` | sql-export.py:92 | the date `z` days after 1970-01-01 is a valid Gregorian date (month 1..12, day within the month) whose day count is `z` |
| `Calendar.CivilFromDaysOfDate` | sql-export.py:92 | converting a valid date's day count back gives the date |
| `Calendar.DaysSinceEpochIncreasing` | sql-export.py:92 | an earlier date has a smaller day count |
| `Calendar.DaysSinceEpochInjective` | sql-export.py:92 | two valid dates with the same day count are equal |
| `Calendar.PythonRangeInDays` | sql-export.py:92-93 | a valid date has a year in 1..9999 exactly when its day count is in [-719162, 2932896] |
| `Calendar.YearAndDayOfYear` | sql-export.py:92 | a day count splits into a year and a day of that year below the year's length |
| `Calendar.MonthAndDay` | sql-export.py:92 | the month found holds that day of the year, with a day of the month within that month's length |
| `Calendar.MonthsFillYear` | sql-export.py:92 | the twelve month lengths add up to the year's length (365 or 366) |
| `Calendar.DaysBeforeNextYear` | sql-export.py:92 | consecutive years start 365 or 366 days apart, by the Gregorian leap rule |
| `Rendering.Pad` | sql-export.py:52 | `n` in exactly `width` zero-padded digits, reading back as `n` |
| `Rendering.StrftimeDateFormat` | sql-export.py:52 | `DATE_FORMAT` expands to the padded year, a slash, the padded month, a slash and the padded day |
| `Rendering.Format` | sql-export.py:94 | `strftime(DATE_FORMAT)` gives ten characters, slashes at positions 4 and 7, digits elsewhere, and the digit groups read back as year, month and day |
| `Rendering.FormatInjective` | sql-export.py:94 | different dates never render to the same text |

## Left out

- The constructor's dynamic imports, its `SystemExit` messages and its logging
  setup (`sql-export.py:15-34`): environment and I/O.
- The delimiter table (`sql-export.py:46-51`): constants that nothing uses.
- `connect_db` (`sql-export.py:54-72`): database I/O, mostly empty stubs, and it
  reads attributes that the class never sets.
- `export` (`sql-export.py:97-98`): an empty stub.
- The `__main__` block (`sql-export.py:108-113`): it reads environment
  variables.
- dateutil's parsing heuristics: a foreign library, kept as the uninterpreted
  `parse` parameter. Whether `import dateutil` alone makes `dateutil.parser`
  available depends on the dateutil version; the model assumes it does.
- IEEE floating point: NaN and infinities, which `fromtimestamp` rejects, and
  sub-second rounding. A float is a Dafny `real`, and only its whole-second part
  is used.
- Host time-zone lookup and daylight-saving rules: a single fixed `utcOffset`
  stands for the zone in force at the call, and it is used for every instant.
- The parser's dependence on the clock: `parse` stands for dateutil on one
  fixed day. dateutil fills missing fields of a partial date (`"Aug 28"`,
  `"28"`) from the current date and time, and the model does not capture that.
- Platform limits of `time_t` and of the C `localtime`: any timestamp whose
  local date is in years 1..9999 is accepted.
- Python 2 semantics: there a float timestamp is truncated toward zero, an
  integer too large for `int` has type `long` (which has no entry), and text
  may be `unicode` (which has no entry either).
- `Rendering.Format`: pads years below 1000 to four digits, as `f"{Y:04d}"`
  does. The C `strftime` behind `%Y` on glibc prints such years without
  padding, so for years 1..999 the model's text may differ from the host's.
- `Rendering.Strftime`: interprets only `%Y`, `%m` and `%d` and copies every
  other character, which covers `DATE_FORMAT` and nothing else.
