/** Proleptic Gregorian calendar dates, as chrono's `NaiveDate` and Python's
    `date` use them: day numbering, weekdays, adding and subtracting days,
    and the "%Y-%m-%d" text form. Day number 0 is 0000-01-01, a Saturday. */
module Dates {
  import opened Wrappers
  import opened Digits

  datatype Date = Date(year: int, month: int, day: int)

  datatype Weekday = Mon | Tue | Wed | Thu | Fri | Sat | Sun

  predicate IsLeapYear(y: int) {
    y % 4 == 0 && (y % 100 != 0 || y % 400 == 0)
  }

  function DaysInMonth(y: int, m: int): int
    requires 1 <= m <= 12
  {
    if m == 2 then (if IsLeapYear(y) then 29 else 28)
    else if m == 4 || m == 6 || m == 9 || m == 11 then 30
    else 31
  }

  predicate Valid(d: Date) {
    1 <= d.month <= 12 && 1 <= d.day <= DaysInMonth(d.year, d.month)
  }

  function YearLength(y: int): int {
    if IsLeapYear(y) then 366 else 365
  }

  /** Days in the months of year `y` before month `m`. */
  function DaysBeforeMonth(y: int, m: int): int
    requires 1 <= m <= 12
  {
    var common :=
      if m == 1 then 0 else if m == 2 then 31 else if m == 3 then 59
      else if m == 4 then 90 else if m == 5 then 120 else if m == 6 then 151
      else if m == 7 then 181 else if m == 8 then 212 else if m == 9 then 243
      else if m == 10 then 273 else if m == 11 then 304 else 334;
    if m > 2 && IsLeapYear(y) then common + 1 else common
  }

  /** Days from 0000-01-01 to the first of January of year `y` (negative before year 0). */
  function DaysBeforeYear(y: int): int {
    365 * y + (y + 3) / 4 - (y + 99) / 100 + (y + 399) / 400
  }

  /** The day number of `d`: 0 for 0000-01-01, counting up by one per day. */
  function DayNumber(d: Date): int
    requires Valid(d)
  {
    DaysBeforeYear(d.year) + DaysBeforeMonth(d.year, d.month) + d.day - 1
  }

  function WeekdayOf(d: Date): Weekday
    requires Valid(d)
  {
    WeekdayOfNumber(DayNumber(d))
  }

  /** The weekday of day number `n`; day 0 (0000-01-01) is a Saturday. */
  function WeekdayOfNumber(n: int): Weekday {
    var k := n % 7;
    if k == 0 then Sat else if k == 1 then Sun else if k == 2 then Mon
    else if k == 3 then Tue else if k == 4 then Wed else if k == 5 then Thu else Fri
  }

  /** Anchors on the civil calendar: 2024-01-06 was a Saturday and the Unix
      epoch, 1970-01-01, a Thursday. */
  lemma CalendarAnchors()
    ensures WeekdayOf(Date(2024, 1, 6)) == Sat
    ensures WeekdayOf(Date(1970, 1, 1)) == Thu
  {
    assert DayNumber(Date(2024, 1, 6)) == 739256;
    assert DayNumber(Date(1970, 1, 1)) == 719528;
  }

  function NextWeekday(w: Weekday): Weekday {
    match w
    case Mon => Tue
    case Tue => Wed
    case Wed => Thu
    case Thu => Fri
    case Fri => Sat
    case Sat => Sun
    case Sun => Mon
  }

  lemma StepCount4(y: int)
    ensures (y + 4) / 4 - (y + 3) / 4 == (if y % 4 == 0 then 1 else 0)
  {
  }

  lemma StepCount100(y: int)
    ensures (y + 100) / 100 - (y + 99) / 100 == (if y % 100 == 0 then 1 else 0)
  {
  }

  lemma StepCount400(y: int)
    ensures (y + 400) / 400 - (y + 399) / 400 == (if y % 400 == 0 then 1 else 0)
  {
  }

  /** Consecutive new-year days are one year length apart. */
  lemma DaysBeforeNextYear(y: int)
    ensures DaysBeforeYear(y + 1) == DaysBeforeYear(y) + YearLength(y)
  {
    StepCount4(y);
    StepCount100(y);
    StepCount400(y);
  }

  /** The day before `d`, across month, year and leap-day boundaries. */
  function Prev(d: Date): (r: Date)
    requires Valid(d)
    ensures Valid(r)
    ensures DayNumber(r) == DayNumber(d) - 1
  {
    if d.day > 1 then Date(d.year, d.month, d.day - 1)
    else if d.month > 1 then Date(d.year, d.month - 1, DaysInMonth(d.year, d.month - 1))
    else
      DaysBeforeNextYear(d.year - 1);
      Date(d.year - 1, 12, 31)
  }

  /** The day after `d`, across month, year and leap-day boundaries. */
  function Next(d: Date): (r: Date)
    requires Valid(d)
    ensures Valid(r)
    ensures DayNumber(r) == DayNumber(d) + 1
  {
    if d.day < DaysInMonth(d.year, d.month) then Date(d.year, d.month, d.day + 1)
    else if d.month < 12 then Date(d.year, d.month + 1, 1)
    else
      DaysBeforeNextYear(d.year);
      Date(d.year + 1, 1, 1)
  }

  /** `d` moved by `n` days (backwards for negative `n`), one day at a time. */
  function AddDays(d: Date, n: int): (r: Date)
    requires Valid(d)
    ensures Valid(r)
    ensures DayNumber(r) == DayNumber(d) + n
    decreases if n < 0 then -n else n
  {
    if n == 0 then d
    else if n > 0 then AddDays(Next(d), n - 1)
    else AddDays(Prev(d), n + 1)
  }

  lemma {:induction false} DaysBeforeYearMonotone(a: int, b: int)
    requires a <= b
    ensures DaysBeforeYear(a) + 365 * (b - a) <= DaysBeforeYear(b)
    decreases b - a
  {
    if a < b {
      DaysBeforeNextYear(a);
      DaysBeforeYearMonotone(a + 1, b);
    }
  }

  /** A valid date's day number lies within its own year. */
  lemma DayNumberWithinYear(d: Date)
    requires Valid(d)
    ensures DaysBeforeYear(d.year) <= DayNumber(d) < DaysBeforeYear(d.year + 1)
  {
    DaysBeforeNextYear(d.year);
  }

  /** Different valid dates have different day numbers. */
  lemma DayNumberInjective(a: Date, b: Date)
    requires Valid(a) && Valid(b)
    requires DayNumber(a) == DayNumber(b)
    ensures a == b
  {
    DayNumberWithinYear(a);
    DayNumberWithinYear(b);
    if a.year < b.year {
      DaysBeforeYearMonotone(a.year + 1, b.year);
    } else if b.year < a.year {
      DaysBeforeYearMonotone(b.year + 1, a.year);
    }
    assert a.year == b.year;
  }

  /** `AddDays(d, n)` is the only valid date whose day number is `n` after `d`'s. */
  lemma AddDaysUnique(d: Date, n: int, e: Date)
    requires Valid(d) && Valid(e)
    requires DayNumber(e) == DayNumber(d) + n
    ensures e == AddDays(d, n)
  {
    DayNumberInjective(e, AddDays(d, n));
  }

  /** The weekday advances by one each day. */
  lemma WeekdayOfNext(d: Date)
    requires Valid(d)
    ensures WeekdayOf(Next(d)) == NextWeekday(WeekdayOf(d))
  {
    var n := DayNumber(d);
    var m := DayNumber(Next(d));
    assert m == n + 1;
    WeekdayOfNextNumber(n);
    assert WeekdayOf(Next(d)) == WeekdayOfNumber(m);
  }

  lemma WeekdayOfNextNumber(n: int)
    ensures WeekdayOfNumber(n + 1) == NextWeekday(WeekdayOfNumber(n))
  {
    assert (n + 1) % 7 == (n % 7 + 1) % 7;
  }

  /** Rendering of a year by chrono's "%Y": four zero-padded digits for years
      0 to 9999, otherwise an explicit sign followed by at least four digits. */
  function YearText(y: int): string {
    if 0 <= y <= 9999 then PadZero(y, 4)
    else if y < 0 then "-" + PadZero(-y, 4)
    else "+" + PadZero(y, 4)
  }

  /** "%Y-%m-%d". */
  function Format(d: Date): string
    requires Valid(d)
  {
    YearText(d.year) + "-" + PadZero(d.month, 2) + "-" + PadZero(d.day, 2)
  }

  /** Strict "YYYY-MM-DD": ten characters, dashes at positions 4 and 7,
      digits elsewhere, naming a real calendar day. */
  function Parse(s: string): (r: Option<Date>)
    ensures r.Some? ==> Valid(r.value) && 0 <= r.value.year <= 9999
  {
    if |s| == 10 && s[4] == '-' && s[7] == '-'
       && AllDigits(s[..4]) && AllDigits(s[5..7]) && AllDigits(s[8..])
    then
      ValueOfBound(s[..4]);
      assert Pow10(4) == 10000;
      var d := Date(ValueOf(s[..4]), ValueOf(s[5..7]), ValueOf(s[8..]));
      if Valid(d) then Some(d) else None
    else None
  }

  lemma FormatIsFixedWidth(d: Date)
    requires Valid(d) && 0 <= d.year <= 9999
    ensures Format(d) == Fixed(d.year, 4) + "-" + Fixed(d.month, 2) + "-" + Fixed(d.day, 2)
  {
    assert Pow10(2) == 100 && Pow10(4) == 10000;
    PadZeroIsFixed(d.year, 4);
    PadZeroIsFixed(d.month, 2);
    PadZeroIsFixed(d.day, 2);
  }

  /** Parsing a formatted date in years 0 to 9999 gives the date back. */
  lemma ParseFormat(d: Date)
    requires Valid(d) && 0 <= d.year <= 9999
    ensures Parse(Format(d)) == Some(d)
  {
    FormatIsFixedWidth(d);
    assert Pow10(2) == 100 && Pow10(4) == 10000;
    ValueOfFixed(d.year, 4);
    ValueOfFixed(d.month, 2);
    ValueOfFixed(d.day, 2);
    DateTextParts(Fixed(d.year, 4), Fixed(d.month, 2), Fixed(d.day, 2));
  }

  /** Where the fields of a "YYYY-MM-DD" text sit. */
  lemma DateTextParts(y: string, m: string, d: string)
    requires |y| == 4 && |m| == 2 && |d| == 2
    ensures var s := y + "-" + m + "-" + d;
      && |s| == 10 && s[4] == '-' && s[7] == '-'
      && s[..4] == y && s[5..7] == m && s[8..] == d
  {
    var s := y + "-" + m + "-" + d;
    assert s[..4] == y;
    assert s[5..7] == m;
    assert s[8..] == d;
  }

  /** Only the canonical text of a date parses: formatting a parsed date
      reproduces the input exactly. */
  lemma FormatParse(s: string)
    requires Parse(s).Some?
    ensures Format(Parse(s).value) == s
  {
    var d := Parse(s).value;
    assert d == Date(ValueOf(s[..4]), ValueOf(s[5..7]), ValueOf(s[8..]));
    FormatIsFixedWidth(d);
    FixedOfValue(s[..4]);
    FixedOfValue(s[5..7]);
    FixedOfValue(s[8..]);
    assert Fixed(d.year, 4) == s[..4];
    assert Fixed(d.month, 2) == s[5..7];
    assert Fixed(d.day, 2) == s[8..];
    DateTextSplits(s);
  }

  /** Ten characters with dashes at positions 4 and 7 are the year, month
      and day fields joined by dashes. */
  lemma DateTextSplits(s: string)
    requires |s| == 10 && s[4] == '-' && s[7] == '-'
    ensures s == s[..4] + "-" + s[5..7] + "-" + s[8..]
  {
    assert s[..5] == s[..4] + "-";
    assert s[..7] == s[..5] + s[5..7];
    assert s[..8] == s[..7] + "-";
  }
}
