/** Calendar arithmetic behind `strftime('%Y-W%U')` on a parsed date: the proleptic
    Gregorian day of the year, the weekday, and the Sunday-based week number `%U`. */
module Calendar {
  import opened Wrappers
  import opened Strings

  /** The date part of a parsed timestamp. */
  datatype Date = Date(year: int, month: int, day: int)

  predicate IsLeapYear(y: int) {
    y % 4 == 0 && (y % 100 != 0 || y % 400 == 0)
  }

  function DaysInYear(y: int): int {
    if IsLeapYear(y) then 366 else 365
  }

  function DaysInMonth(y: int, m: int): int
    requires 1 <= m <= 12
  {
    if m == 2 then (if IsLeapYear(y) then 29 else 28)
    else if m == 4 || m == 6 || m == 9 || m == 11 then 30
    else 31
  }

  /** A date the parser can produce: Python's `datetime` range, a real month and day. */
  predicate ValidDate(d: Date) {
    1 <= d.year <= 9999 && 1 <= d.month <= 12 && 1 <= d.day <= DaysInMonth(d.year, d.month)
  }

  /** A date that exists on the calendar: what the date parser produces. */
  type Day = d: Date | ValidDate(d) witness Date(1970, 1, 1)

  /** Days of the year before the first day of month `m`. */
  function DaysBeforeMonth(y: int, m: int): int
    requires 1 <= m <= 12
  {
    [0, 31, 59, 90, 120, 151, 181, 212, 243, 273, 304, 334][m - 1]
      + (if m > 2 && IsLeapYear(y) then 1 else 0)
  }

  /** `tm_yday`: the zero-based day of the year. */
  function DayOfYear(d: Date): (r: nat)
    requires ValidDate(d)
    ensures r < DaysInYear(d.year)
  {
    DaysBeforeMonth(d.year, d.month) + d.day - 1
  }

  /** Days from 0001-01-01 to the first day of year `y` in the proleptic Gregorian calendar. */
  function DaysBeforeYear(y: int): nat
    requires y >= 1
  {
    var p := y - 1;
    365 * p + p / 4 - p / 100 + p / 400
  }

  /** `tm_wday` of the first day of year `y`: 0 is Sunday, 6 is Saturday (0001-01-01 was a Monday). */
  function Jan1Weekday(y: int): (w: nat)
    requires y >= 1
    ensures w < 7
  {
    (DaysBeforeYear(y) + 1) % 7
  }

  /** `tm_wday` of a date: 0 is Sunday, 6 is Saturday. */
  function Weekday(d: Date): (w: nat)
    requires ValidDate(d)
    ensures w < 7
  {
    (DaysBeforeYear(d.year) + DayOfYear(d) + 1) % 7
  }

  /** The months tile the year: each month starts where the previous one ends, and the last
      one ends where the year does. */
  lemma MonthsFillYear(y: int, m: int)
    requires 1 <= m <= 12
    ensures m < 12 ==> DaysBeforeMonth(y, m + 1) == DaysBeforeMonth(y, m) + DaysInMonth(y, m)
    ensures m == 12 ==> DaysBeforeMonth(y, m) + DaysInMonth(y, m) == DaysInYear(y)
  {
  }

  /** The day count before a year grows by that year's length, so the leap rule in
      `DaysBeforeYear` is the one `IsLeapYear` states. */
  lemma DaysBeforeNextYear(y: int)
    requires y >= 1
    ensures DaysBeforeYear(y + 1) == DaysBeforeYear(y) + DaysInYear(y)
  {
    var p := y - 1;
    assert (p + 1) / 4 == p / 4 + (if y % 4 == 0 then 1 else 0);
    assert (p + 1) / 100 == p / 100 + (if y % 100 == 0 then 1 else 0);
    assert (p + 1) / 400 == p / 400 + (if y % 400 == 0 then 1 else 0);
  }

  /** The weekday moves on by one from each day to the next, within a year and across the
      turn of the year. */
  lemma NextDayWeekday(d: Date, e: Date)
    requires ValidDate(d) && ValidDate(e)
    requires || (e.year == d.year && DayOfYear(e) == DayOfYear(d) + 1)
             || (e.year == d.year + 1 && DayOfYear(d) == DaysInYear(d.year) - 1 && DayOfYear(e) == 0)
    ensures Weekday(e) == (Weekday(d) + 1) % 7
  {
    if e.year == d.year + 1 {
      DaysBeforeNextYear(d.year);
    }
    var x := DaysBeforeYear(d.year) + DayOfYear(d) + 1;
    assert DaysBeforeYear(e.year) + DayOfYear(e) + 1 == x + 1;
    ModSevenShift(x, 1);
  }

  /** Two known weekdays: 1970-01-01 was a Thursday and 2024-01-01 a Monday. */
  lemma KnownWeekdays()
    ensures Weekday(Date(1970, 1, 1)) == 4
    ensures Weekday(Date(2024, 1, 1)) == 1
  {
    assert DaysBeforeYear(1970) == 719162;
    assert 719162 + 1 == 7 * 102737 + 4;
    assert DaysBeforeYear(2024) == 738885;
    assert 738885 + 1 == 7 * 105555 + 1;
  }

  /** `%U` around the first Sunday of 2024, which fell on 7 January: the 6th is in week 00,
      the 7th starts week 01, and 31 December is in week 52. */
  lemma KnownSundayWeeks()
    ensures SundayWeek(Date(2024, 1, 6)) == 0
    ensures SundayWeek(Date(2024, 1, 7)) == 1
    ensures SundayWeek(Date(2024, 12, 31)) == 52
  {
    assert DaysBeforeYear(2024) == 738885;
    assert Weekday(Date(2024, 1, 6)) == 6 by { assert 738885 + 5 + 1 == 7 * 105555 + 6; }
    assert Weekday(Date(2024, 1, 7)) == 0 by { assert 738885 + 6 + 1 == 7 * 105556; }
    assert Weekday(Date(2024, 12, 31)) == 2 by {
      assert DayOfYear(Date(2024, 12, 31)) == 365;
      assert 738885 + 365 + 1 == 7 * 105607 + 2;
    }
  }

  /** `%U`: the week of the year counted from Sunday, as C's `strftime` computes it. */
  function SundayWeek(d: Date): (w: nat)
    requires ValidDate(d)
    ensures w <= 53
  {
    (DayOfYear(d) + 7 - Weekday(d)) / 7
  }

  /** The number of Sundays among days 0..n of a year whose day 0 has weekday `w0`. */
  function SundaysThrough(w0: nat, n: nat): nat {
    (if (w0 + n) % 7 == 0 then 1 else 0) + (if n == 0 then 0 else SundaysThrough(w0, n - 1))
  }

  /** The weekday of a date is that of the year's first day moved on by its day of the year. */
  lemma WeekdayFromJan1(d: Date)
    requires ValidDate(d)
    ensures Weekday(d) == (Jan1Weekday(d.year) + DayOfYear(d)) % 7
  {
    ModSevenShift(DaysBeforeYear(d.year) + 1, DayOfYear(d));
  }

  lemma ModSevenShift(b: nat, n: nat)
    ensures (b + n) % 7 == (b % 7 + n) % 7
  {
    assert b == 7 * (b / 7) + b % 7;
    assert b + n == 7 * (b / 7) + (b % 7 + n);
  }

  /** The `%U` formula in closed form: full weeks since the Sunday before day 0, plus one when
      day 0 is itself a Sunday. */
  lemma WeekFormulaClosedForm(w0: nat, n: nat)
    requires w0 < 7
    ensures (n + 7 - (w0 + n) % 7) / 7 == (w0 + n) / 7 + (if w0 == 0 then 1 else 0)
  {
    var q, r := (w0 + n) / 7, (w0 + n) % 7;
    assert w0 + n == 7 * q + r;
    assert n + 7 - r == 7 * q + 7 - w0;
  }

  lemma {:induction false} SundaysThroughClosedForm(w0: nat, n: nat)
    requires w0 < 7
    ensures SundaysThrough(w0, n) == (w0 + n) / 7 + (if w0 == 0 then 1 else 0)
    decreases n
  {
    if n > 0 {
      SundaysThroughClosedForm(w0, n - 1);
      var q, r := (w0 + n - 1) / 7, (w0 + n - 1) % 7;
      assert w0 + n - 1 == 7 * q + r;
      assert (w0 + n) / 7 == q + (if r == 6 then 1 else 0);
    }
  }

  /** `%U` counts the Sundays of the year on or before the date: days before the first
      Sunday are in week 00, and each Sunday starts the next week. */
  lemma WeekCountsSundays(d: Date)
    requires ValidDate(d)
    ensures SundayWeek(d) == SundaysThrough(Jan1Weekday(d.year), DayOfYear(d))
  {
    WeekdayFromJan1(d);
    WeekFormulaClosedForm(Jan1Weekday(d.year), DayOfYear(d));
    SundaysThroughClosedForm(Jan1Weekday(d.year), DayOfYear(d));
  }

  /** The zero-based day of the year of the first Sunday of year `y`. */
  function FirstSunday(y: int): (n: nat)
    requires y >= 1
    ensures n < 7
  {
    (7 - Jan1Weekday(y)) % 7
  }

  /** Week 00 holds exactly the days before the year's first Sunday. */
  lemma WeekZeroBeforeFirstSunday(d: Date)
    requires ValidDate(d)
    ensures SundayWeek(d) == 0 <==> DayOfYear(d) < FirstSunday(d.year)
  {
    WeekdayFromJan1(d);
    WeekFormulaClosedForm(Jan1Weekday(d.year), DayOfYear(d));
    WeekZeroClosedForm(Jan1Weekday(d.year), DayOfYear(d));
  }

  /** Week 00 in closed form: no full week has passed and day 0 is not a Sunday. */
  lemma WeekZeroClosedForm(w0: nat, n: nat)
    requires w0 < 7
    ensures (w0 + n) / 7 + (if w0 == 0 then 1 else 0) == 0 <==> n < (7 - w0) % 7
  {
    if w0 != 0 {
      assert (7 - w0) % 7 == 7 - w0;
    }
  }

  /** Two decimal digits, as `%U` pads the week number. */
  function Pad2(n: nat): (s: string)
    requires n < 100
    ensures |s| == 2 && IsDigit(s[0]) && IsDigit(s[1])
  {
    [DigitChar(n / 10), DigitChar(n % 10)]
  }

  /** `strftime('%Y-W%U')`: the year, the text `-W` and the two-digit Sunday-based week. */
  function WeekLabel(d: Date): (text: string)
    requires ValidDate(d)
  {
    NatToString(d.year) + "-W" + Pad2(SundayWeek(d))
  }

  /** Reads a week label back into its year and week number. */
  function ParseWeekLabel(text: string): Option<(nat, nat)> {
    if |text| < 5 then None
    else
      var year, tag, week := text[..|text| - 4], text[|text| - 4..|text| - 2], text[|text| - 2..];
      if tag == "-W" && (forall k :: 0 <= k < |year| ==> IsDigit(year[k]))
         && IsDigit(week[0]) && IsDigit(week[1])
      then Some((DigitsValue(year), DigitsValue(week)))
      else None
  }

  /** A week label determines the date's year and its `%U` week: reading it back gives both. */
  lemma WeekLabelRoundTrip(d: Date)
    requires ValidDate(d)
    ensures ParseWeekLabel(WeekLabel(d)) == Some((d.year, SundayWeek(d)))
  {
    var y, w := NatToString(d.year), Pad2(SundayWeek(d));
    var text := WeekLabel(d);
    assert text[..|text| - 4] == y;
    assert text[|text| - 4..|text| - 2] == "-W";
    assert text[|text| - 2..] == w;
    NatToStringRoundTrip(d.year);
    assert w[..1] == [w[0]];
    assert DigitsValue(w) == DigitsValue(w[..1]) * 10 + DigitValue(w[1]);
  }
}
