/**
  `SQLExporter.normalize_date`: one raw date value, whatever its Python type,
  becomes the text `YYYY/MM/DD`.

  The source looks the handler up in a table keyed on the value's exact type
  (`type(date)`): `str` goes to the text parser, `int` and `float` to
  `date.fromtimestamp`, `datetime.date` straight to `strftime`.  Any other type,
  including the subclasses `bool` (of `int`) and `datetime.datetime` (of
  `date`), finds no handler, and calling the missing handler raises.

  The host's time zone is the parameter `utcOffset` (seconds east of UTC, fixed
  for all instants), and the text parser is the parameter `parse`.
*/
module DateNormalizer {
  import opened Results
  import opened Calendar
  import opened Rendering

  const SecondsPerDay := 86400

  /** Local seconds since the epoch of 0001-01-01T00:00 and of 10000-01-01T00:00. */
  const MinLocalSeconds := -62135596800
  const MaxLocalSeconds := 253402300800

  /** The Python types a raw date value can have. */
  datatype PyType =
    | StrType
    | IntType
    | FloatType
    | BoolType
    | DateType
    | DateTimeType
    | OtherType(name: string)

  /**
    A raw date value as the exporter receives it.  A `DateTime` carries its time
    of day, which no route reads.  `Unsupported` is a value of any type other
    than the six above (`None`, a `dict`, a `list`, ...), and `typeName` names
    that type.
  */
  datatype RawDate =
    | Text(text: string)
    | Integer(n: int)
    | Floating(x: real)
    | Boolean(b: bool)
    | CalendarDate(date: PyDate)
    | DateTime(date: PyDate, secondOfDay: int)
    | Unsupported(typeName: string)

  datatype Error =
      /** `.get(type(date))` found no handler and calling `None` raised `TypeError`. */
    | TypeNotHandled(t: PyType)
      /** The text parser rejected the string. */
    | ParserRejected(text: string)
      /** The local date of the timestamp is not a year of 1..9999. */
    | TimestampOutOfRange

  /** `type(v)`. */
  function TypeOf(v: RawDate): (t: PyType) {
    match v
    case Text(_) => StrType
    case Integer(_) => IntType
    case Floating(_) => FloatType
    case Boolean(_) => BoolType
    case CalendarDate(_) => DateType
    case DateTime(_, _) => DateTimeType
    case Unsupported(name) => OtherType(name)
  }

  /** Python's subclass relation among these types: `bool` extends `int`, `datetime` extends `date`. */
  predicate IsSubclass(t: PyType, u: PyType) {
    t == u || (t == BoolType && u == IntType) || (t == DateTimeType && u == DateType)
  }

  /** `isinstance(v, u)`. */
  predicate IsInstance(v: RawDate, u: PyType) {
    IsSubclass(TypeOf(v), u)
  }

  /** The keys of the dispatch table. */
  const HandledTypes: set<PyType> := {StrType, IntType, FloatType, DateType}

  /**
    `date.fromtimestamp(t)` on a host `utcOffset` seconds east of UTC: the local
    calendar day that contains the instant, when its year is one Python supports.
  */
  function FromTimestamp(t: int, utcOffset: int): (r: Result<PyDate, Error>)
    ensures r.Ok? <==> MinLocalSeconds <= t + utcOffset < MaxLocalSeconds
    ensures r.Err? ==> r.error == TimestampOutOfRange
    ensures r.Ok? ==>
      DaysSinceEpoch(r.value) * SecondsPerDay <= t + utcOffset < (DaysSinceEpoch(r.value) + 1) * SecondsPerDay
  {
    // Dafny's `/` rounds toward negative infinity for a positive divisor
    var days := (t + utcOffset) / SecondsPerDay;
    var d := CivilFromDays(days);
    PythonRangeInDays(d);
    if MinYear <= d.year <= MaxYear then Ok(d) else Err(TimestampOutOfRange)
  }

  /** `normalize_date(v)`. */
  function Normalize(parse: string -> Option<PyDate>, utcOffset: int, v: RawDate): (r: Result<string, Error>)
    ensures r.Ok? ==> IsCanonical(r.value)
  {
    match v
    case Text(s) =>
      (match parse(s)
       case Some(d) => Ok(Format(d))
       case None => Err(ParserRejected(s)))
    case Integer(n) =>
      (match FromTimestamp(n, utcOffset)
       case Ok(d) => Ok(Format(d))
       case Err(e) => Err(e))
    case Floating(x) =>
      // CPython rounds a float timestamp toward negative infinity to whole seconds
      (match FromTimestamp(x.Floor, utcOffset)
       case Ok(d) => Ok(Format(d))
       case Err(e) => Err(e))
    case CalendarDate(d) => Ok(Format(d))
    case Boolean(_) => Err(TypeNotHandled(TypeOf(v)))
    case DateTime(_, _) => Err(TypeNotHandled(TypeOf(v)))
    case Unsupported(_) => Err(TypeNotHandled(TypeOf(v)))
  }

  // ---------------------------------------------------------------------------
  // Properties of the dispatch
  // ---------------------------------------------------------------------------

  /**
    The lookup is keyed on the exact type: a value fails for want of a handler
    exactly when its type is not a key of the table.
  */
  lemma DispatchOnExactType(parse: string -> Option<PyDate>, utcOffset: int, v: RawDate)
    ensures var r := Normalize(parse, utcOffset, v);
      (r.Err? && r.error.TypeNotHandled?) <==> TypeOf(v) !in HandledTypes
  {
    match v
    case Text(s) =>
      assert StrType in HandledTypes;
    case Integer(n) =>
      assert IntType in HandledTypes;
    case Floating(x) =>
      assert FloatType in HandledTypes;
    case CalendarDate(d) =>
      assert DateType in HandledTypes;
    case _ =>
  }

  /**
    `bool` and `datetime.datetime` values pass an `isinstance` test for a handled
    type, yet the exact-type lookup rejects them.
  */
  lemma SubclassInstancesRejected(parse: string -> Option<PyDate>, utcOffset: int, v: RawDate)
    requires v.Boolean? || v.DateTime?
    ensures exists u :: u in HandledTypes && IsInstance(v, u)
    ensures Normalize(parse, utcOffset, v) == Err(TypeNotHandled(TypeOf(v)))
  {
    var u := if v.Boolean? then IntType else DateType;
    assert u in HandledTypes && IsInstance(v, u);
  }

  /**
    A `datetime.date` is rendered without conversion: the three digit groups of
    the result are its year, month and day, whatever the time zone and parser.
  */
  lemma CalendarDateFormattedDirectly(parse: string -> Option<PyDate>, utcOffset: int, d: PyDate)
    ensures var r := Normalize(parse, utcOffset, CalendarDate(d));
      && r.Ok? && IsCanonical(r.value)
      && DecimalValue(r.value[..4]) == d.year
      && DecimalValue(r.value[5..7]) == d.month
      && DecimalValue(r.value[8..]) == d.day
  {
  }

  /**
    Text goes to the parser: it fails exactly when the parser does, and otherwise
    the parsed date is rendered like any other.
  */
  lemma TextDelegatesToParser(parse: string -> Option<PyDate>, utcOffset: int, s: string)
    ensures var r := Normalize(parse, utcOffset, Text(s));
      && (r.Ok? <==> parse(s).Some?)
      && (r.Err? ==> r.error == ParserRejected(s))
      && (parse(s).Some? ==> r == Ok(Format(parse(s).value)))
  {
  }

  /**
    An integer timestamp renders as the local calendar day that contains it: for
    every supported date `d` whose local day holds `t`, the result is `d`'s text.
  */
  lemma EpochIsLocalDate(parse: string -> Option<PyDate>, utcOffset: int, t: int, d: PyDate)
    requires DaysSinceEpoch(d) * SecondsPerDay <= t + utcOffset < (DaysSinceEpoch(d) + 1) * SecondsPerDay
    ensures Normalize(parse, utcOffset, Integer(t)) == Ok(Format(d))
  {
    assert (t + utcOffset) / SecondsPerDay == DaysSinceEpoch(d);
    CivilFromDaysOfDate(d);
    PythonRangeInDays(d);
  }

  /** An integer timestamp fails exactly when its local instant is outside years 1..9999. */
  lemma EpochOutOfRange(parse: string -> Option<PyDate>, utcOffset: int, t: int)
    ensures Normalize(parse, utcOffset, Integer(t)).Err?
      <==> !(MinLocalSeconds <= t + utcOffset < MaxLocalSeconds)
    ensures Normalize(parse, utcOffset, Integer(t)).Err?
      ==> Normalize(parse, utcOffset, Integer(t)).error == TimestampOutOfRange
  {
  }

  /** A float takes the route of the integer below it: `n` and any `x` in `[n, n + 1)` agree. */
  lemma FloatAgreesWithInteger(parse: string -> Option<PyDate>, utcOffset: int, n: int, x: real)
    requires n as real <= x < n as real + 1.0
    ensures Normalize(parse, utcOffset, Floating(x)) == Normalize(parse, utcOffset, Integer(n))
  {
    assert x.Floor == n;
  }

  // ---------------------------------------------------------------------------
  // The assertions of `run_tests`
  // ---------------------------------------------------------------------------

  /** `"04.02.1992"` gives `"1992/04/02"` when the parser reads it month first. */
  lemma PinnedTextExample(parse: string -> Option<PyDate>, utcOffset: int)
    requires parse("04.02.1992") == Some(Date(1992, 4, 2))
    ensures Normalize(parse, utcOffset, Text("04.02.1992")) == Ok("1992/04/02")
  {
    TextExampleRendering(Date(1992, 4, 2));
  }

  lemma TextExampleRendering(d: PyDate)
    requires d == Date(1992, 4, 2)
    ensures Format(d) == "1992/04/02"
  {
    DigitCharValues();
    FormatIs(d, "1992/04/02");
  }

  /** No other date renders as `"1992/04/02"`. */
  lemma OnlyTextExampleRenders(d: PyDate)
    requires Format(d) == "1992/04/02"
    ensures d == Date(1992, 4, 2)
  {
    var e: PyDate := Date(1992, 4, 2);
    TextExampleRendering(e);
    assert Format(d) == Format(e);
    FormatInjective(d, e);
  }

  /** Conversely, that expected text pins the parser to the month-first reading (April 2, not February 4). */
  lemma PinnedTextNeedsMonthFirst(parse: string -> Option<PyDate>, utcOffset: int)
    requires Normalize(parse, utcOffset, Text("04.02.1992")) == Ok("1992/04/02")
    ensures parse("04.02.1992") == Some(Date(1992, 4, 2))
  {
    TextDelegatesToParser(parse, utcOffset, "04.02.1992");
    OnlyTextExampleRenders(parse("04.02.1992").value);
  }

  /** 2018-08-28 is day 17771 after the epoch. */
  lemma DaysOfTestDate(d: PyDate)
    requires d == Date(2018, 8, 28)
    ensures DaysSinceEpoch(d) == 17771
    ensures Format(d) == "2018/08/28"
  {
    DaysBeforeMonthTable(2018);
    DigitCharValues();
    FormatIs(d, "2018/08/28");
  }

  /**
    `1535516087` is 2018-08-29 04:14:47 UTC, so it renders as `"2018/08/28"` exactly
    when the host is between 4h14m48s and 28h14m47s behind UTC.
  */
  lemma PinnedIntegerNeedsOffset(parse: string -> Option<PyDate>, utcOffset: int)
    ensures Normalize(parse, utcOffset, Integer(1535516087)) == Ok("2018/08/28")
      <==> -101687 <= utcOffset <= -15288
  {
    var d: PyDate := Date(2018, 8, 28);
    DaysOfTestDate(d);
    if -101687 <= utcOffset <= -15288 {
      EpochIsLocalDate(parse, utcOffset, 1535516087, d);
    }
    var r := FromTimestamp(1535516087, utcOffset);
    if Normalize(parse, utcOffset, Integer(1535516087)) == Ok("2018/08/28") {
      FormatInjective(r.value, d);
    }
  }

  /** With a US Central Daylight Time host (UTC-5) the test on `1535516087` holds. */
  lemma PinnedIntegerExample(parse: string -> Option<PyDate>)
    ensures Normalize(parse, -18000, Integer(1535516087)) == Ok("2018/08/28")
  {
    PinnedIntegerNeedsOffset(parse, -18000);
  }

  /** On a UTC host the same timestamp renders as the next day. */
  lemma PinnedIntegerInUtc(parse: string -> Option<PyDate>)
    ensures Normalize(parse, 0, Integer(1535516087)) == Ok("2018/08/29")
  {
    var d: PyDate := Date(2018, 8, 29);
    DaysBeforeMonthTable(2018);
    assert DaysSinceEpoch(d) == 17772;
    DigitCharValues();
    FormatIs(d, "2018/08/29");
    EpochIsLocalDate(parse, 0, 1535516087, d);
  }

  /** The float test `1535516087.322354` agrees with the integer one. */
  lemma PinnedFloatExample(parse: string -> Option<PyDate>)
    ensures Normalize(parse, -18000, Floating(1535516087.322354)) == Ok("2018/08/28")
  {
    FloatAgreesWithInteger(parse, -18000, 1535516087, 1535516087.322354);
    PinnedIntegerExample(parse);
  }

  /** The disabled test: `date.today()` on 2018-08-28 renders as `"2018/08/28"`. */
  lemma PinnedTodayExample(parse: string -> Option<PyDate>, utcOffset: int)
    ensures Normalize(parse, utcOffset, CalendarDate(Date(2018, 8, 28))) == Ok("2018/08/28")
  {
    var d: PyDate := Date(2018, 8, 28);
    DaysOfTestDate(d);
    assert Normalize(parse, utcOffset, CalendarDate(d)) == Ok(Format(d));
  }
}
