/**
  Calendar dates as the preprocessing step sees them once `Order Date` has
  been parsed, and the calendar-month arithmetic behind monthly grouping.
  A month is identified by a single integer (its "month number"), so that
  consecutive months differ by one and a range of months is a range of
  integers.
 */
module Calendar {

  type MonthNum = m: int | 1 <= m <= 12 witness 1
  type DayNum = d: int | 1 <= d <= 31 witness 1

  datatype Date = Date(year: int, month: MonthNum, day: DayNum)

  /** Gregorian leap years. */
  predicate IsLeapYear(y: int) {
    y % 4 == 0 && (y % 100 != 0 || y % 400 == 0)
  }

  function DaysInMonth(y: int, m: MonthNum): DayNum {
    if m == 2 then (if IsLeapYear(y) then 29 else 28)
    else if m == 4 || m == 6 || m == 9 || m == 11 then 30
    else 31
  }

  /** A date that exists in the calendar. */
  predicate ValidDate(d: Date) {
    d.day <= DaysInMonth(d.year, d.month)
  }

  /** The month a date falls in, counted from January of year 0. */
  function MonthNumber(d: Date): int {
    d.year * 12 + (d.month - 1)
  }

  /** Chronological order on dates (lexicographic on year, month, day). */
  predicate Before(a: Date, b: Date) {
    a.year < b.year
    || (a.year == b.year && a.month < b.month)
    || (a.year == b.year && a.month == b.month && a.day < b.day)
  }

  predicate NotAfter(a: Date, b: Date) {
    a == b || Before(a, b)
  }

  /**
    The timestamp a month-end period uses as the label of month `m`: the
    last day of that month. It is a real date, and it lies in month `m`.
   */
  function MonthEnd(m: int): (d: Date)
    ensures MonthNumber(d) == m
    ensures ValidDate(d)
  {
    var y := m / 12;
    var mo := m % 12 + 1;
    Date(y, mo, DaysInMonth(y, mo))
  }

  /** No date of month `MonthNumber(a)` comes after that month's label. */
  lemma MonthEndIsLastDay(a: Date)
    requires ValidDate(a)
    ensures NotAfter(a, MonthEnd(MonthNumber(a)))
  {
    var e := MonthEnd(MonthNumber(a));
    SameMonthNumber(a, e);
  }

  /** Two dates with the same month number have the same year and month. */
  lemma SameMonthNumber(a: Date, b: Date)
    requires MonthNumber(a) == MonthNumber(b)
    ensures a.year == b.year && a.month == b.month
  {
  }

  /** Month numbers order dates: an earlier month means an earlier date. */
  lemma EarlierMonthIsBefore(a: Date, b: Date)
    requires MonthNumber(a) < MonthNumber(b)
    ensures Before(a, b)
  {
  }
}
