/**
 * The part of JavaScript's `Date` that the expense pipeline relies on: a calendar
 * day in the proleptic Gregorian calendar, the roll-over performed by
 * `new Date(year, monthIndex, day)`, and the chronological order of days and months.
 */
module Calendar {
  import opened Ordering

  /** A calendar day; `month` is 1-based (JavaScript's `getMonth() + 1`). */
  datatype Date = Date(year: int, month: int, day: int)

  /** A (year, month) pair, the key of the monthly series. */
  datatype YearMonth = YearMonth(year: int, month: int)

  predicate IsLeapYear(year: int) {
    (year % 4 == 0 && year % 100 != 0) || year % 400 == 0
  }

  function DaysInMonth(year: int, month: int): (n: int)
    requires 1 <= month <= 12
    ensures 28 <= n <= 31
    ensures n == 29 <==> month == 2 && IsLeapYear(year)
    ensures n == 31 <==> month in {1, 3, 5, 7, 8, 10, 12}
  {
    if month == 2 then (if IsLeapYear(year) then 29 else 28)
    else if month in {4, 6, 9, 11} then 30
    else 31
  }

  /** A day that exists in the calendar (what every JavaScript `Date` denotes). */
  predicate IsCalendarDay(d: Date) {
    1 <= d.month <= 12 && 1 <= d.day <= DaysInMonth(d.year, d.month)
  }

  /**
   * `new Date(year, monthIndex, day)` for a day of month of at least 1: a day past
   * the end of the month rolls over into the following months (and years).
   */
  function NewDate(year: int, monthIndex: int, day: int): (d: Date)
    requires 0 <= monthIndex < 12 && day >= 1
    ensures IsCalendarDay(d)
    ensures day <= DaysInMonth(year, monthIndex + 1) ==> d == Date(year, monthIndex + 1, day)
    decreases day
  {
    var month := monthIndex + 1;
    var length := DaysInMonth(year, month);
    if day <= length then Date(year, month, day)
    else if month == 12 then NewDate(year + 1, 0, day - length)
    else NewDate(year, month, day - length)
  }

  /**
   * The round-trip test of the date validator: the date built from (year, month, day)
   * gives back exactly those three numbers iff they already name a calendar day.
   */
  lemma NewDateRoundTrip(year: int, month: int, day: int)
    requires 1 <= month <= 12 && day >= 1
    ensures NewDate(year, month - 1, day) == Date(year, month, day) <==> IsCalendarDay(Date(year, month, day))
  {
  }

  /** Chronological order of days (JavaScript compares `getTime()` values). */
  predicate DateLess(a: Date, b: Date) {
    a.year < b.year
    || (a.year == b.year && a.month < b.month)
    || (a.year == b.year && a.month == b.month && a.day < b.day)
  }

  predicate DateAtMost(a: Date, b: Date) {
    a == b || DateLess(a, b)
  }

  /** Chronological order of months. */
  predicate MonthLess(a: YearMonth, b: YearMonth) {
    a.year < b.year || (a.year == b.year && a.month < b.month)
  }

  /** Days are totally ordered in time. */
  lemma DateOrder()
    ensures StrictTotalOrder(DateLess)
  {
    forall a, b | a != b ensures DateLess(a, b) || DateLess(b, a) {
      assert a.year != b.year || a.month != b.month || a.day != b.day;
    }
  }

  /** Months are totally ordered in time. */
  lemma MonthOrder()
    ensures StrictTotalOrder(MonthLess)
  {
    forall a, b | a != b ensures MonthLess(a, b) || MonthLess(b, a) {
      assert a.year != b.year || a.month != b.month;
    }
  }

  function MonthOf(d: Date): YearMonth {
    YearMonth(d.year, d.month)
  }
}
