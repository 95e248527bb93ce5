/** Calendar dates as Python's `datetime.date` holds and compares them.
    The not-in-the-future validator compares a submitted date with today's
    with `>`; this module gives that comparison and proves that it is the
    chronological order (the order of `date.toordinal()`). */
module Dates {

  datatype Date = Date(year: int, month: int, day: int)

  const MinYear := 1
  const MaxYear := 9999

  predicate IsLeap(y: int) {
    y % 4 == 0 && (y % 100 != 0 || y % 400 == 0)
  }

  function DaysInMonth(y: int, m: int): int
    requires 1 <= m <= 12
  {
    if m == 2 then (if IsLeap(y) then 29 else 28)
    else if m == 4 || m == 6 || m == 9 || m == 11 then 30
    else 31
  }

  function DaysInYear(y: int): int {
    if IsLeap(y) then 366 else 365
  }

  /** Every `date` object Python can build: years 1 to 9999, a real day of the month. */
  predicate Valid(d: Date) {
    && MinYear <= d.year <= MaxYear
    && 1 <= d.month <= 12
    && 1 <= d.day <= DaysInMonth(d.year, d.month)
  }

  /** `a > b` on dates: the fields are compared year first, then month, then day. */
  predicate After(a: Date, b: Date) {
    || a.year > b.year
    || (a.year == b.year && a.month > b.month)
    || (a.year == b.year && a.month == b.month && a.day > b.day)
  }

  /** Days in the months before `m` of a common year, indexed by month (index 0 unused). */
  const DaysBeforeMonthTable: seq<int> := [-1, 0, 31, 59, 90, 120, 151, 181, 212, 243, 273, 304, 334]

  /** Days of year `y` before the first of month `m`. */
  function DaysBeforeMonth(y: int, m: int): int
    requires 1 <= m <= 12
  {
    DaysBeforeMonthTable[m] + (if m > 2 && IsLeap(y) then 1 else 0)
  }

  /** Days before January 1st of year `y`, counted from 0001-01-01. */
  function DaysBeforeYear(y: int): int
    requires y >= 1
  {
    var p := y - 1;
    p * 365 + p / 4 - p / 100 + p / 400
  }

  /** `date.toordinal()`: 0001-01-01 is day 1. */
  function Ordinal(d: Date): int
    requires Valid(d)
  {
    DaysBeforeYear(d.year) + DaysBeforeMonth(d.year, d.month) + d.day
  }

  /** The month table agrees with the month lengths: month `m + 1` starts
      `DaysInMonth(y, m)` days after month `m`, and December ends the year. */
  lemma MonthTableConsistent(y: int, m: int)
    requires 1 <= m <= 12
    ensures m < 12 ==> DaysBeforeMonth(y, m + 1) == DaysBeforeMonth(y, m) + DaysInMonth(y, m)
    ensures m == 12 ==> DaysBeforeMonth(y, m) + DaysInMonth(y, m) == DaysInYear(y)
  {
  }

  /** The closed form of the days before a year adds up the year lengths. */
  lemma DaysBeforeNextYear(y: int)
    requires y >= 1
    ensures DaysBeforeYear(y + 1) == DaysBeforeYear(y) + DaysInYear(y)
  {
    var p := y - 1;
    assert y / 4 == p / 4 + (if y % 4 == 0 then 1 else 0);
    assert y / 100 == p / 100 + (if y % 100 == 0 then 1 else 0);
    assert y / 400 == p / 400 + (if y % 400 == 0 then 1 else 0);
  }

  /** A whole year of days separates any earlier year's start from a later one's. */
  lemma {:induction false} DaysBeforeYearGrows(y1: int, y2: int)
    requires 1 <= y1 < y2
    ensures DaysBeforeYear(y1) + DaysInYear(y1) <= DaysBeforeYear(y2)
    decreases y2 - y1
  {
    DaysBeforeNextYear(y1);
    if y1 + 1 < y2 {
      DaysBeforeYearGrows(y1 + 1, y2);
    }
  }

  /** The day of a valid date falls inside its year. */
  lemma DayOfYearBounds(d: Date)
    requires Valid(d)
    ensures 1 <= DaysBeforeMonth(d.year, d.month) + d.day <= DaysInYear(d.year)
  {
    if d.month < 12 {
      MonthTableConsistent(d.year, d.month);
      MonthEndsBeforeYearEnds(d.year, d.month + 1);
    } else {
      MonthTableConsistent(d.year, 12);
    }
  }

  /** No month starts after the days of December have begun. */
  lemma MonthEndsBeforeYearEnds(y: int, m: int)
    requires 1 <= m <= 12
    ensures DaysBeforeMonth(y, m) <= DaysBeforeMonth(y, 12)
  {
  }

  /** A later month of the same year starts after the earlier month has ended. */
  lemma MonthsDoNotOverlap(y: int, m1: int, m2: int)
    requires 1 <= m1 < m2 <= 12
    ensures DaysBeforeMonth(y, m1) + DaysInMonth(y, m1) <= DaysBeforeMonth(y, m2)
  {
    MonthTableConsistent(y, m1);
  }

  /** One direction of the order: a later date has a larger ordinal. */
  lemma AfterMeansLaterOrdinal(a: Date, b: Date)
    requires Valid(a) && Valid(b) && After(a, b)
    ensures Ordinal(a) > Ordinal(b)
  {
    if a.year > b.year {
      DayOfYearBounds(a);
      DayOfYearBounds(b);
      DaysBeforeYearGrows(b.year, a.year);
    } else if a.month > b.month {
      MonthsDoNotOverlap(a.year, b.month, a.month);
    }
  }

  /** Python's `>` on dates is the chronological order: for valid dates,
      `a > b` holds exactly when `a` lies strictly later in the calendar. */
  lemma AfterIsChronological(a: Date, b: Date)
    requires Valid(a) && Valid(b)
    ensures After(a, b) <==> Ordinal(a) > Ordinal(b)
    ensures a == b <==> Ordinal(a) == Ordinal(b)
  {
    if After(a, b) {
      AfterMeansLaterOrdinal(a, b);
    } else if After(b, a) {
      AfterMeansLaterOrdinal(b, a);
    }
  }

  /** The day after `d`, as `d + timedelta(days=1)` computes it. */
  function NextDay(d: Date): (r: Date)
    requires Valid(d)
    ensures After(r, d)
    ensures d != Date(MaxYear, 12, 31) ==> Valid(r) && Ordinal(r) == Ordinal(d) + 1
  {
    if d.day < DaysInMonth(d.year, d.month) then
      Date(d.year, d.month, d.day + 1)
    else if d.month < 12 then
      MonthTableConsistent(d.year, d.month);
      Date(d.year, d.month + 1, 1)
    else
      MonthTableConsistent(d.year, 12);
      DaysBeforeNextYear(d.year);
      Date(d.year + 1, 1, 1)
  }
}
