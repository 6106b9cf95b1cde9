/** Proleptic Gregorian calendar arithmetic: the part of JavaScript's `Date` that the booking
    calendar relies on (days in a month, the weekday of a date, the day after a date and
    month arithmetic with year carry). Months are numbered 1..12 here, where `Date.getMonth`
    numbers them 0..11. */
module Gregorian {

  /** A calendar day, standing for a local-midnight `Date`. */
  datatype Date = Date(year: int, month: int, day: int)

  predicate IsLeapYear(y: int) {
    y % 4 == 0 && (y % 100 != 0 || y % 400 == 0)
  }

  function DaysInYear(y: int): int {
    if IsLeapYear(y) then 366 else 365
  }

  function DaysInMonth(y: int, m: int): (n: int)
    requires 1 <= m <= 12
    ensures 28 <= n <= 31
    ensures n == 29 <==> m == 2 && IsLeapYear(y)
  {
    if m == 2 then (if IsLeapYear(y) then 29 else 28)
    else if m == 4 || m == 6 || m == 9 || m == 11 then 30
    else 31
  }

  predicate Valid(d: Date) {
    1 <= d.month <= 12 && 1 <= d.day <= DaysInMonth(d.year, d.month)
  }

  /** Number of days of year `y` before the first of month `m` (`m == 13` gives the whole year). */
  function DaysBeforeMonth(y: int, m: int): int
    requires 1 <= m <= 13
  {
    var leap := if IsLeapYear(y) then 1 else 0;
    match m
    case 1 => 0
    case 2 => 31
    case 3 => 59 + leap
    case 4 => 90 + leap
    case 5 => 120 + leap
    case 6 => 151 + leap
    case 7 => 181 + leap
    case 8 => 212 + leap
    case 9 => 243 + leap
    case 10 => 273 + leap
    case 11 => 304 + leap
    case 12 => 334 + leap
    case _ => 365 + leap
  }

  lemma DaysBeforeMonthStep(y: int, m: int)
    requires 1 <= m <= 12
    ensures DaysBeforeMonth(y, m + 1) == DaysBeforeMonth(y, m) + DaysInMonth(y, m)
    ensures DaysBeforeMonth(y, 13) == DaysInYear(y)
  {
  }

  lemma DaysBeforeMonthMonotone(y: int, m1: int, m2: int)
    requires 1 <= m1 <= m2 <= 13
    ensures DaysBeforeMonth(y, m1) <= DaysBeforeMonth(y, m2)
  {
  }

  /** Number of days from 0000-01-01 to the first of January of year `y` (negative before). */
  function YearStart(y: int): int {
    365 * y + (y + 3) / 4 - (y + 99) / 100 + (y + 399) / 400
  }

  lemma FloorStep(x: int, k: int)
    requires k == 4 || k == 100 || k == 400
    ensures (x + 1) / k - x / k == if (x + 1) % k == 0 then 1 else 0
  {
    var q, r := x / k, x % k;
    assert x == k * q + r && 0 <= r < k;
    if r + 1 < k {
      assert x + 1 == k * q + (r + 1);
    } else {
      assert x + 1 == k * (q + 1);
    }
  }

  lemma MultipleOf4(m: int)
    ensures (4 * m) % 4 == 0
  {
    var q, r := (4 * m) / 4, (4 * m) % 4;
    assert 4 * m == 4 * q + r && 0 <= r < 4;
    assert 4 * (m - q) == r;
  }

  lemma MultipleOf100(m: int)
    ensures (100 * m) % 100 == 0
  {
    var q, r := (100 * m) / 100, (100 * m) % 100;
    assert 100 * m == 100 * q + r && 0 <= r < 100;
    assert 100 * (m - q) == r;
  }

  /** A multiple of 400 is a multiple of 100, and a multiple of 100 one of 4. */
  lemma DivisibilityChain(y: int)
    ensures y % 400 == 0 ==> y % 100 == 0
    ensures y % 100 == 0 ==> y % 4 == 0
  {
    if y % 400 == 0 {
      var q := y / 400;
      assert y == 100 * (4 * q);
      MultipleOf100(4 * q);
    }
    if y % 100 == 0 {
      var q := y / 100;
      assert y == 4 * (25 * q);
      MultipleOf4(25 * q);
    }
  }

  lemma {:induction false} YearStartStep(y: int)
    ensures YearStart(y + 1) == YearStart(y) + DaysInYear(y)
  {
    FloorStep(y + 3, 4);
    FloorStep(y + 99, 100);
    FloorStep(y + 399, 400);
    assert (y + 4) % 4 == y % 4;
    assert (y + 100) % 100 == y % 100;
    assert (y + 400) % 400 == y % 400;
    DivisibilityChain(y);
    var d4 := (y + 4) / 4 - (y + 3) / 4;
    var d100 := (y + 100) / 100 - (y + 99) / 100;
    var d400 := (y + 400) / 400 - (y + 399) / 400;
    assert YearStart(y + 1) == YearStart(y) + 365 + d4 - d100 + d400;
  }

  lemma {:induction false} YearStartMonotone(y1: int, y2: int)
    requires y1 < y2
    ensures YearStart(y1) + DaysInYear(y1) <= YearStart(y2)
    decreases y2 - y1
  {
    YearStartStep(y1);
    if y1 + 1 < y2 {
      YearStartMonotone(y1 + 1, y2);
    }
  }

  /** Zero-based position of `d` within its year. */
  function DayOfYear(d: Date): int
    requires Valid(d)
  {
    DaysBeforeMonth(d.year, d.month) + d.day - 1
  }

  lemma DayOfYearBounds(d: Date)
    requires Valid(d)
    ensures 0 <= DayOfYear(d) < DaysInYear(d.year)
  {
  }

  /** Days since 0000-01-01: the local-midnight time value of `d` divided by one day. */
  function DayNumber(d: Date): int
    requires Valid(d)
  {
    YearStart(d.year) + DayOfYear(d)
  }

  /** `d.getDay()`: 0 for Sunday through 6 for Saturday (0000-01-01 was a Saturday). */
  function Weekday(d: Date): (w: int)
    requires Valid(d)
    ensures 0 <= w < 7
  {
    (DayNumber(d) + 6) % 7
  }

  /** Calendar order on (year, month, day). */
  predicate LexBefore(a: Date, b: Date) {
    a.year < b.year || (a.year == b.year && (a.month < b.month || (a.month == b.month && a.day < b.day)))
  }

  /** Comparing two dates' time values (`a < b` on `Date`s) agrees with calendar order. */
  lemma DayNumberOrder(a: Date, b: Date)
    requires Valid(a) && Valid(b)
    ensures LexBefore(a, b) <==> DayNumber(a) < DayNumber(b)
  {
    if LexBefore(a, b) {
      DayNumberLexLess(a, b);
    } else if a != b {
      DayNumberLexLess(b, a);
    }
  }

  lemma DayNumberLexLess(a: Date, b: Date)
    requires Valid(a) && Valid(b) && LexBefore(a, b)
    ensures DayNumber(a) < DayNumber(b)
  {
    DayOfYearBounds(a);
    DayOfYearBounds(b);
    if a.year < b.year {
      YearStartMonotone(a.year, b.year);
    } else if a.month < b.month {
      DaysBeforeMonthStep(a.year, a.month);
      DaysBeforeMonthMonotone(a.year, a.month + 1, b.month);
    }
  }

  /** Two valid dates with the same time value are the same date (`getTime() ===` is date equality). */
  lemma DayNumberInjective(a: Date, b: Date)
    requires Valid(a) && Valid(b) && DayNumber(a) == DayNumber(b)
    ensures a == b
  {
    DayNumberOrder(a, b);
    DayNumberOrder(b, a);
  }

  /** The day after `d`, as `setDate(getDate() + 1)` rolls over month and year. */
  function NextDay(d: Date): (r: Date)
    requires Valid(d)
    ensures Valid(r)
    ensures d.day < DaysInMonth(d.year, d.month) ==> r == Date(d.year, d.month, d.day + 1)
    ensures d.day == DaysInMonth(d.year, d.month) ==> r.day == 1 && r == FirstOfMonth(NextMonth(d.year, d.month))
  {
    if d.day < DaysInMonth(d.year, d.month) then Date(d.year, d.month, d.day + 1)
    else FirstOfMonth(NextMonth(d.year, d.month))
  }

  lemma NextDayNumber(d: Date)
    requires Valid(d)
    ensures DayNumber(NextDay(d)) == DayNumber(d) + 1
    ensures Weekday(NextDay(d)) == (Weekday(d) + 1) % 7
  {
    var r := NextDay(d);
    if d.day < DaysInMonth(d.year, d.month) {
      assert DayOfYear(r) == DayOfYear(d) + 1;
    } else if d.month < 12 {
      DaysBeforeMonthStep(d.year, d.month);
      assert r == Date(d.year, d.month + 1, 1);
      assert DayOfYear(r) == DayOfYear(d) + 1;
    } else {
      YearStartStep(d.year);
      assert r == Date(d.year + 1, 1, 1);
      assert DayOfYear(d) + 1 == DaysInYear(d.year);
      assert DayOfYear(r) == 0;
    }
    WeekdayStep(DayNumber(d));
  }

  lemma WeekdayStep(n: int)
    ensures (n + 1 + 6) % 7 == ((n + 6) % 7 + 1) % 7
  {
  }

  /** A (year, month) pair, as the displayed month of the calendar. */
  datatype YearMonth = YearMonth(year: int, month: int)

  predicate ValidMonth(ym: YearMonth) { 1 <= ym.month <= 12 }

  function FirstOfMonth(ym: YearMonth): (d: Date)
    requires ValidMonth(ym)
    ensures Valid(d)
  {
    Date(ym.year, ym.month, 1)
  }

  function LastOfMonth(ym: YearMonth): (d: Date)
    requires ValidMonth(ym)
    ensures Valid(d)
  {
    Date(ym.year, ym.month, DaysInMonth(ym.year, ym.month))
  }

  /** The month after (year, month): `new Date(y, m + 1, 1)` carries December into January. */
  function NextMonth(y: int, m: int): (r: YearMonth)
    requires 1 <= m <= 12
    ensures ValidMonth(r)
    ensures 12 * r.year + r.month == 12 * y + m + 1
  {
    if m == 12 then YearMonth(y + 1, 1) else YearMonth(y, m + 1)
  }

  /** The month before (year, month): `new Date(y, m - 1, 1)` borrows January from December. */
  function PrevMonth(y: int, m: int): (r: YearMonth)
    requires 1 <= m <= 12
    ensures ValidMonth(r)
    ensures 12 * r.year + r.month == 12 * y + m - 1
  {
    if m == 1 then YearMonth(y - 1, 12) else YearMonth(y, m - 1)
  }

  /** The last day of the previous month is followed by the first of this one. */
  lemma NextDayAfterPrevMonth(ym: YearMonth)
    requires ValidMonth(ym)
    ensures NextDay(LastOfMonth(PrevMonth(ym.year, ym.month))) == FirstOfMonth(ym)
  {
  }

  /** Anchors of the weekday numbering: 1970-01-01 was a Thursday, 2025-08-10 a Sunday. */
  lemma KnownWeekdays()
    ensures Weekday(Date(1970, 1, 1)) == 4
    ensures Weekday(Date(2025, 8, 10)) == 0
  {
  }
}
