/**
 * The proleptic Gregorian calendar as both sides of the feedback loop use it.
 * The app derives day of year, month and weekday with Python's `date`
 * (toordinal-based, Monday == 0); the trainer derives them with pandas'
 * `.dt` accessors (a month-offset table and Sakamoto's weekday method).
 * Both are written out here and proved to agree. The module also holds the
 * strftime formats the two files write and read: '%Y-%m-%d' for forecast
 * dates, '%Y-%m-%d %H:%M:%S' for logging times and '%Y%m%d_%H%M%S' for
 * artifact timestamps.
 */
module Calendar {
  import opened Wrappers
  import opened Text

  datatype Date = Date(year: int, month: int, day: int)

  datatype DateTime = DateTime(date: Date, hour: int, minute: int, second: int)

  /** The calendar features the model consumes, in the order both files list them. */
  datatype CalendarFeatures = CalendarFeatures(dayOfYear: int, month: int, dayOfWeek: int)

  predicate IsLeapYear(y: int) {
    y % 4 == 0 && (y % 100 != 0 || y % 400 == 0)
  }

  function YearLength(y: int): int {
    if IsLeapYear(y) then 366 else 365
  }

  function DaysInMonth(y: int, m: int): (n: int)
    requires 1 <= m <= 12
    ensures 28 <= n <= 31
  {
    if m == 2 then (if IsLeapYear(y) then 29 else 28)
    else if m == 4 || m == 6 || m == 9 || m == 11 then 30
    else 31
  }

  /** A date Python's `date` type accepts, except that the model does not stop at year 9999. */
  predicate ValidDate(d: Date) {
    d.year >= 1 && 1 <= d.month <= 12 && 1 <= d.day <= DaysInMonth(d.year, d.month)
  }

  predicate ValidDateTime(t: DateTime) {
    ValidDate(t.date) && 0 <= t.hour < 24 && 0 <= t.minute < 60 && 0 <= t.second < 60
  }

  // ------------------------------------------------ Python's `date` arithmetic

  /** CPython's _days_before_month: a cumulative table plus the leap day after February. */
  function DaysBeforeMonth(y: int, m: int): int
    requires 1 <= m <= 12
  {
    [0, 31, 59, 90, 120, 151, 181, 212, 243, 273, 304, 334][m - 1]
      + (if m > 2 && IsLeapYear(y) then 1 else 0)
  }

  /** CPython's _days_before_year: days from 0001-01-01 to January 1st of `y`. */
  function DaysBeforeYear(y: int): int
    requires y >= 1
  {
    var p := y - 1;
    p * 365 + p / 4 - p / 100 + p / 400
  }

  /** date.toordinal(): 0001-01-01 is day 1. */
  function Ordinal(d: Date): int
    requires ValidDate(d)
  {
    DaysBeforeYear(d.year) + DaysBeforeMonth(d.year, d.month) + d.day
  }

  /** date.timetuple().tm_yday. */
  function PythonDayOfYear(d: Date): int
    requires ValidDate(d)
  {
    DaysBeforeMonth(d.year, d.month) + d.day
  }

  /** date.weekday(): Monday is 0 and Sunday is 6. */
  function PythonWeekday(d: Date): int
    requires ValidDate(d)
  {
    (Ordinal(d) + 6) % 7
  }

  /** The features app/main.py derives with Python's `date` before predicting. */
  function PythonFeatures(d: Date): (f: CalendarFeatures)
    requires ValidDate(d)
    ensures 1 <= f.dayOfYear <= YearLength(d.year) <= 366
    ensures f.month == d.month && 1 <= f.month <= 12
    ensures 0 <= f.dayOfWeek <= 6
  {
    DaysBeforeMonthBounds(d.year, d.month);
    CalendarFeatures(PythonDayOfYear(d), d.month, PythonWeekday(d))
  }

  /** date + timedelta(days=1). */
  function NextDay(d: Date): (n: Date)
    requires ValidDate(d)
    ensures ValidDate(n)
  {
    if d.day < DaysInMonth(d.year, d.month) then Date(d.year, d.month, d.day + 1)
    else if d.month < 12 then Date(d.year, d.month + 1, 1)
    else Date(d.year + 1, 1, 1)
  }

  // ---------------------------------------------------- pandas' `.dt` fields

  /** pandas' month_offset table: days before each month, common-year row then leap-year row. */
  const MonthOffset: seq<int> :=
    [0, 31, 59, 90, 120, 151, 181, 212, 243, 273, 304, 334, 365,
     0, 31, 60, 91, 121, 152, 182, 213, 244, 274, 305, 335, 366]

  /** Series.dt.dayofyear: month_offset[isleap * 13 + month - 1] + day. */
  function PandasDayOfYear(d: Date): int
    requires ValidDate(d)
  {
    MonthOffset[(if IsLeapYear(d.year) then 13 else 0) + d.month - 1] + d.day
  }

  /** Sakamoto's table of month offsets modulo 7, as pandas uses it. */
  const SakamotoOffset: seq<int> := [0, 3, 2, 5, 0, 3, 5, 1, 4, 6, 2, 4]

  /** Series.dt.dayofweek: Sakamoto's method (Sunday == 0) shifted so that Monday is 0. */
  function PandasDayOfWeek(d: Date): int
    requires ValidDate(d)
  {
    var y := if d.month < 3 then d.year - 1 else d.year;
    var sunday0 := (y + y / 4 - y / 100 + y / 400 + SakamotoOffset[d.month - 1] + d.day) % 7;
    (sunday0 + 6) % 7
  }

  /** The features training/train_model.py derives with pandas for every retained row. */
  function PandasFeatures(d: Date): CalendarFeatures
    requires ValidDate(d)
  {
    CalendarFeatures(PandasDayOfYear(d), d.month, PandasDayOfWeek(d))
  }

  // ------------------------------------------------------------- formatting

  /** strftime('%Y-%m-%d'), with the year zero-padded to four digits. */
  function FormatDate(d: Date): (s: string)
    requires ValidDate(d)
    ensures |s| == 10 && s[4] == '-' && s[7] == '-'
  {
    Pad(d.year, 4) + "-" + Pad(d.month, 2) + "-" + Pad(d.day, 2)
  }

  /** strftime('%Y-%m-%d %H:%M:%S'), the logging time of an observation. */
  function FormatDateTime(t: DateTime): (s: string)
    requires ValidDateTime(t)
    ensures |s| == 19 && s[..10] == FormatDate(t.date) && s[10] == ' ' && s[13] == ':' && s[16] == ':'
  {
    FormatDate(t.date) + " " + Pad(t.hour, 2) + ":" + Pad(t.minute, 2) + ":" + Pad(t.second, 2)
  }

  /** pd.to_datetime on a 'YYYY-MM-DD' string: None stands for the parse error it raises. */
  function ParseDate(s: string): (r: Option<Date>)
    ensures r.Some? ==> ValidDate(r.value)
  {
    if |s| == 10 && s[4] == '-' && s[7] == '-'
       && AllDigits(s[..4]) && AllDigits(s[5..7]) && AllDigits(s[8..])
    then
      var d := Date(DigitsValue(s[..4]), DigitsValue(s[5..7]), DigitsValue(s[8..]));
      if ValidDate(d) then Some(d) else None
    else None
  }

  /** The '%Y%m%d' part of a timestamp. */
  function DateStamp(d: Date): (s: string)
    requires ValidDate(d)
    ensures |s| == 8
  {
    Pad(d.year, 4) + (Pad(d.month, 2) + Pad(d.day, 2))
  }

  /** The '%H%M%S' part of a timestamp. */
  function ClockStamp(t: DateTime): (s: string)
    requires ValidDateTime(t)
    ensures |s| == 6
  {
    Pad(t.hour, 2) + (Pad(t.minute, 2) + Pad(t.second, 2))
  }

  /** strftime('%Y%m%d_%H%M%S'). */
  function Stamp(t: DateTime): (s: string)
    requires ValidDateTime(t)
    ensures |s| == 15 && s[8] == '_'
  {
    DateStamp(t.date) + ("_" + ClockStamp(t))
  }

  /** Seconds elapsed since 0001-01-01 00:00:00, so that chronological order is `<` on it. */
  function Seconds(t: DateTime): int
    requires ValidDateTime(t)
  {
    ((Ordinal(t.date) - 1) * 24 + t.hour) * 3600 + t.minute * 60 + t.second
  }

  // ----------------------------------------------------------------- lemmas

  lemma DaysBeforeMonthBounds(y: int, m: int)
    requires 1 <= m <= 12
    ensures 0 <= DaysBeforeMonth(y, m)
    ensures DaysBeforeMonth(y, m) + DaysInMonth(y, m) <= YearLength(y)
    ensures m < 12 ==> DaysBeforeMonth(y, m) + DaysInMonth(y, m) == DaysBeforeMonth(y, m + 1)
    ensures m == 12 ==> DaysBeforeMonth(y, m) + DaysInMonth(y, m) == YearLength(y)
  {
  }

  lemma DivStep(y: int)
    requires y >= 1
    ensures y / 4 - (y - 1) / 4 == (if y % 4 == 0 then 1 else 0)
    ensures y / 100 - (y - 1) / 100 == (if y % 100 == 0 then 1 else 0)
    ensures y / 400 - (y - 1) / 400 == (if y % 400 == 0 then 1 else 0)
  {
  }

  /** The leap-day corrections of _days_before_year grow by one exactly in leap years. */
  lemma LeapCorrectionStep(y: int)
    requires y >= 1
    ensures y / 4 - y / 100 + y / 400
         == (y - 1) / 4 - (y - 1) / 100 + (y - 1) / 400 + (if IsLeapYear(y) then 1 else 0)
  {
    DivStep(y);
    if y % 400 == 0 {
      CenturyOfFour(y);
    } else if y % 100 == 0 {
      FourOfCentury(y);
    }
  }

  lemma CenturyOfFour(y: int)
    requires y % 400 == 0
    ensures y % 100 == 0 && y % 4 == 0
  {
    var k := y / 400;
    assert y == 100 * (4 * k) && y == 4 * (100 * k);
  }

  lemma FourOfCentury(y: int)
    requires y % 100 == 0
    ensures y % 4 == 0
  {
    var k := y / 100;
    assert y == 4 * (25 * k);
  }

  lemma DaysBeforeYearStep(y: int)
    requires y >= 1
    ensures DaysBeforeYear(y + 1) == DaysBeforeYear(y) + YearLength(y)
  {
    LeapCorrectionStep(y);
  }

  /** The next day is exactly one ordinal later: timedelta(days=1) moves the calendar by one day. */
  lemma NextDayOrdinal(d: Date)
    requires ValidDate(d)
    ensures Ordinal(NextDay(d)) == Ordinal(d) + 1
  {
    DaysBeforeMonthBounds(d.year, d.month);
    if d.day == DaysInMonth(d.year, d.month) && d.month == 12 {
      DaysBeforeYearStep(d.year);
    }
  }

  /** Successive days have successive weekdays, wrapping from Sunday (6) to Monday (0). */
  lemma NextDayWeekday(d: Date)
    requires ValidDate(d)
    ensures PythonWeekday(NextDay(d)) == (PythonWeekday(d) + 1) % 7
  {
    NextDayOrdinal(d);
    ModSuccessor(Ordinal(d) + 6);
  }

  lemma ModSuccessor(x: int)
    ensures (x + 1) % 7 == (x % 7 + 1) % 7
  {
  }

  lemma SameResidue(a: int, b: int)
    requires (a - b) % 7 == 0
    ensures (b % 7 + 6) % 7 == (a + 6) % 7
  {
  }

  /** Sakamoto's month table is the cumulative month lengths modulo 7, shifted by one from March on. */
  lemma SakamotoTable(m: int)
    requires 1 <= m <= 12
    ensures var base := DaysBeforeMonth(1, m);
      (m < 3 ==> (base - SakamotoOffset[m - 1]) % 7 == 0)
      && (m >= 3 ==> (base - SakamotoOffset[m - 1] - 1) % 7 == 0)
  {
  }

  /** The weekday convention is pinned: 2024-01-01 was a Monday, and Monday is 0. */
  lemma MondayIsZero()
    ensures PythonWeekday(Date(2024, 1, 1)) == 0
    ensures PandasDayOfWeek(Date(2024, 1, 1)) == 0
  {
  }

  lemma DaysBeforeYearMonotone(a: int, b: int)
    requires 1 <= a < b
    ensures DaysBeforeYear(a) + YearLength(a) <= DaysBeforeYear(b)
    decreases b - a
  {
    DaysBeforeYearStep(a);
    if a + 1 < b {
      DaysBeforeYearMonotone(a + 1, b);
    }
  }

  /** Ordinals of valid dates follow the (year, month, day) order. */
  lemma {:induction false} OrdinalOrder(d1: Date, d2: Date)
    requires ValidDate(d1) && ValidDate(d2)
    ensures Ordinal(d1) < Ordinal(d2) <==>
      (d1.year < d2.year
       || (d1.year == d2.year && d1.month < d2.month)
       || (d1.year == d2.year && d1.month == d2.month && d1.day < d2.day))
    ensures Ordinal(d1) == Ordinal(d2) <==> d1 == d2
  {
    DaysBeforeMonthBounds(d1.year, d1.month);
    DaysBeforeMonthBounds(d2.year, d2.month);
    if d1.year < d2.year {
      DaysBeforeYearMonotone(d1.year, d2.year);
    } else if d2.year < d1.year {
      DaysBeforeYearMonotone(d2.year, d1.year);
    } else if d1.month < d2.month {
      MonthsMonotone(d1.year, d1.month, d2.month);
    } else if d2.month < d1.month {
      MonthsMonotone(d1.year, d2.month, d1.month);
    }
  }

  lemma MonthsMonotone(y: int, m1: int, m2: int)
    requires 1 <= m1 < m2 <= 12
    ensures DaysBeforeMonth(y, m1) + DaysInMonth(y, m1) <= DaysBeforeMonth(y, m2)
  {
  }

  /** pandas' day of year is Python's tm_yday. */
  lemma DayOfYearAgrees(d: Date)
    requires ValidDate(d)
    ensures PandasDayOfYear(d) == PythonDayOfYear(d)
  {
  }

  /** Sakamoto's weekday, which pandas computes, is Python's (toordinal() + 6) % 7. */
  lemma {:induction false} DayOfWeekAgrees(d: Date)
    requires ValidDate(d)
    ensures PandasDayOfWeek(d) == PythonWeekday(d)
  {
    var y, m := d.year, d.month;
    var t := SakamotoOffset[m - 1];
    var base := DaysBeforeMonth(1, m);
    SakamotoTable(m);
    assert DaysBeforeMonth(y, m) == base + (if m > 2 && IsLeapYear(y) then 1 else 0);
    var q := if m < 3 then y - 1 else y;
    var sak := q + q / 4 - q / 100 + q / 400 + t + d.day;
    OrdinalMinusSakamoto(y, m, d.day, base, t);
    SameResidue(Ordinal(d), sak);
  }

  lemma OrdinalMinusSakamoto(y: int, m: int, day: int, base: int, t: int)
    requires y >= 1 && 1 <= m <= 12
    requires m < 3 ==> (base - t) % 7 == 0
    requires m >= 3 ==> (base - t - 1) % 7 == 0
    ensures var q := if m < 3 then y - 1 else y;
      var ord := DaysBeforeYear(y) + base + (if m > 2 && IsLeapYear(y) then 1 else 0) + day;
      (ord - (q + q / 4 - q / 100 + q / 400 + t + day)) % 7 == 0
  {
    var p := y - 1;
    var a := p / 4 - p / 100 + p / 400;
    assert DaysBeforeYear(y) == p * 365 + a;
    var c := if m < 3 then base - t else base - t - 1;
    var k := c / 7;
    assert c == 7 * k;
    var q := if m < 3 then y - 1 else y;
    var ord := DaysBeforeYear(y) + base + (if m > 2 && IsLeapYear(y) then 1 else 0) + day;
    var sak := q + q / 4 - q / 100 + q / 400 + t + day;
    if m >= 3 {
      LeapCorrectionStep(y);
      assert q / 4 - q / 100 + q / 400 == a + (if IsLeapYear(y) then 1 else 0);
    }
    assert ord - sak == 7 * (52 * p + k);
    MultipleOfSeven(52 * p + k);
  }

  lemma MultipleOfSeven(x: int)
    ensures (7 * x) % 7 == 0
  {
  }

  /** Training and inference derive the same calendar features from the same date. */
  lemma FeaturesAgree(d: Date)
    requires ValidDate(d)
    ensures PandasFeatures(d) == PythonFeatures(d)
  {
    DayOfYearAgrees(d);
    DayOfWeekAgrees(d);
  }

  /** Parsing what strftime('%Y-%m-%d') printed gives back the date. */
  lemma ParseFormatDate(d: Date)
    requires ValidDate(d) && d.year <= 9999
    ensures ParseDate(FormatDate(d)) == Some(d)
  {
    var s := FormatDate(d);
    assert s[..4] == Pad(d.year, 4);
    assert s[5..7] == Pad(d.month, 2);
    assert s[8..] == Pad(d.day, 2);
    PadValue(d.year, 4);
    PadValue(d.month, 2);
    PadValue(d.day, 2);
  }

  /** The time-of-day part of Seconds stays within one day. */
  lemma SecondsSplit(t: DateTime)
    requires ValidDateTime(t)
    ensures Seconds(t) == (Ordinal(t.date) - 1) * 86400 + (t.hour * 3600 + t.minute * 60 + t.second)
    ensures 0 <= t.hour * 3600 + t.minute * 60 + t.second < 86400
  {
  }

  /** Three fields of fixed widths compare field by field, and are equal only when every field is. */
  lemma ThreeFields(x1: string, x2: string, x3: string, y1: string, y2: string, y3: string)
    requires |x1| == |y1| && |x2| == |y2|
    ensures LexLess(x1 + (x2 + x3), y1 + (y2 + y3)) <==>
      LexLess(x1, y1) || (x1 == y1 && (LexLess(x2, y2) || (x2 == y2 && LexLess(x3, y3))))
    ensures x1 + (x2 + x3) == y1 + (y2 + y3) <==> x1 == y1 && x2 == y2 && x3 == y3
  {
    LexLessConcat(x1, x2 + x3, y1, y2 + y3);
    LexLessConcat(x2, x3, y2, y3);
    if x1 + (x2 + x3) == y1 + (y2 + y3) {
      assert x1 == (x1 + (x2 + x3))[..|x1|] && y1 == (y1 + (y2 + y3))[..|y1|];
      assert x2 + x3 == (x1 + (x2 + x3))[|x1|..] && y2 + y3 == (y1 + (y2 + y3))[|y1|..];
      assert x2 == (x2 + x3)[..|x2|] && y2 == (y2 + y3)[..|y2|];
      assert x3 == (x2 + x3)[|x2|..] && y3 == (y2 + y3)[|y2|..];
    }
  }

  /** '%Y%m%d' strings of years up to 9999 sort as the dates, and are equal only for equal dates. */
  lemma DateStampOrder(a: Date, b: Date)
    requires ValidDate(a) && ValidDate(b) && a.year <= 9999 && b.year <= 9999
    ensures LexLess(DateStamp(a), DateStamp(b)) <==> Ordinal(a) < Ordinal(b)
    ensures DateStamp(a) == DateStamp(b) <==> a == b
  {
    ThreeFields(Pad(a.year, 4), Pad(a.month, 2), Pad(a.day, 2), Pad(b.year, 4), Pad(b.month, 2), Pad(b.day, 2));
    PadOrder(a.year, b.year, 4); PadInjective(a.year, b.year, 4);
    PadOrder(a.month, b.month, 2); PadInjective(a.month, b.month, 2);
    PadOrder(a.day, b.day, 2); PadInjective(a.day, b.day, 2);
    OrdinalOrder(a, b);
  }

  /** '%H%M%S' strings sort as the times of day. */
  lemma ClockStampOrder(a: DateTime, b: DateTime)
    requires ValidDateTime(a) && ValidDateTime(b)
    ensures LexLess(ClockStamp(a), ClockStamp(b)) <==>
      a.hour * 3600 + a.minute * 60 + a.second < b.hour * 3600 + b.minute * 60 + b.second
  {
    ThreeFields(Pad(a.hour, 2), Pad(a.minute, 2), Pad(a.second, 2), Pad(b.hour, 2), Pad(b.minute, 2), Pad(b.second, 2));
    PadOrder(a.hour, b.hour, 2); PadInjective(a.hour, b.hour, 2);
    PadOrder(a.minute, b.minute, 2); PadInjective(a.minute, b.minute, 2);
    PadOrder(a.second, b.second, 2);
  }

  /** Timestamp strings of valid date-times (years up to 9999) sort as the instants they name. */
  lemma StampOrder(a: DateTime, b: DateTime)
    requires ValidDateTime(a) && ValidDateTime(b) && a.date.year <= 9999 && b.date.year <= 9999
    ensures LexLess(Stamp(a), Stamp(b)) <==> Seconds(a) < Seconds(b)
  {
    var da, db := DateStamp(a.date), DateStamp(b.date);
    var ca, cb := ClockStamp(a), ClockStamp(b);
    LexLessConcat(da, "_" + ca, db, "_" + cb);
    LexLessConcat("_", ca, "_", cb);
    LexLessIrreflexive("_");
    DateStampOrder(a.date, b.date);
    OrdinalOrder(a.date, b.date);
    ClockStampOrder(a, b);
    SecondsSplit(a);
    SecondsSplit(b);
  }
}
