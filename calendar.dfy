/** Calendar dates and instants as Earth Engine's `ee.Date` uses them: a
    Gregorian day plus a millisecond offset within it, compared in time order.
    `filterDate(start, end)` keeps instants in the half-open range [start, end). */
module Calendar {

  /** A Gregorian calendar day. */
  datatype Day = Day(year: int, month: int, day: int)

  /** A day written as 'mm-dd' without a year, as the compositing window bounds are. */
  datatype MonthDay = MonthDay(month: int, day: int)

  /** An instant: a day and the milliseconds elapsed since its midnight (UTC). */
  datatype Instant = Instant(date: Day, millis: int)

  const MILLIS_PER_DAY: int := 86_400_000

  predicate IsLeapYear(y: int) {
    (y % 4 == 0 && y % 100 != 0) || y % 400 == 0
  }

  function DaysInMonth(y: int, m: int): (n: int)
    requires 1 <= m <= 12
    ensures 28 <= n <= 31
  {
    if m == 2 then (if IsLeapYear(y) then 29 else 28)
    else if m == 4 || m == 6 || m == 9 || m == 11 then 30
    else 31
  }

  predicate ValidDay(d: Day) {
    1 <= d.month <= 12 && 1 <= d.day <= DaysInMonth(d.year, d.month)
  }

  predicate ValidInstant(t: Instant) {
    ValidDay(t.date) && 0 <= t.millis < MILLIS_PER_DAY
  }

  /** A month-day that names a real day in every year (anything but Feb 29). */
  predicate ValidMonthDay(md: MonthDay) {
    1 <= md.month <= 12 && 1 <= md.day <= DaysInMonth(2001, md.month)
  }

  /** `ee.Date.fromYMD(year, month, day)` for a 'mm-dd' bound. */
  function OnYear(md: MonthDay, year: int): (d: Day)
    requires ValidMonthDay(md)
    ensures ValidDay(d) && d.year == year
  {
    Day(year, md.month, md.day)
  }

  /** Day `a` comes strictly before day `b`. */
  predicate DayBefore(a: Day, b: Day) {
    a.year < b.year
    || (a.year == b.year && (a.month < b.month || (a.month == b.month && a.day < b.day)))
  }

  predicate DayAtMost(a: Day, b: Day) {
    DayBefore(a, b) || a == b
  }

  /** `advance(1, "day")`: the following calendar day. */
  function NextDay(d: Day): (r: Day)
    requires ValidDay(d)
    ensures ValidDay(r) && DayBefore(d, r)
  {
    if d.day < DaysInMonth(d.year, d.month) then Day(d.year, d.month, d.day + 1)
    else if d.month < 12 then Day(d.year, d.month + 1, 1)
    else Day(d.year + 1, 1, 1)
  }

  /** No valid day lies strictly between `e` and the day after it, so
      "before the day after `e`" means "not after `e`". */
  lemma NextDayIsSuccessor(d: Day, e: Day)
    requires ValidDay(d) && ValidDay(e)
    ensures DayBefore(d, NextDay(e)) <==> DayAtMost(d, e)
  {
  }

  /** Midnight at the start of a day. */
  function Midnight(d: Day): Instant {
    Instant(d, 0)
  }

  /** Instant `a` comes strictly before instant `b`. */
  predicate InstantBefore(a: Instant, b: Instant) {
    DayBefore(a.date, b.date) || (a.date == b.date && a.millis < b.millis)
  }

  /** `filterDate(start, end)`: start inclusive, end exclusive. */
  predicate InDateRange(t: Instant, start: Instant, end: Instant) {
    !InstantBefore(t, start) && InstantBefore(t, end)
  }

  /** The source's idiom `filterDate(first, last.advance(1, "day"))` keeps exactly
      the instants whose day lies in [first, last], both ends included. */
  lemma FilterDateInclusive(t: Instant, first: Day, last: Day)
    requires ValidInstant(t) && ValidDay(first) && ValidDay(last)
    ensures InDateRange(t, Midnight(first), Midnight(NextDay(last)))
            <==> DayAtMost(first, t.date) && DayAtMost(t.date, last)
  {
    NextDayIsSuccessor(t.date, last);
  }

  /** A window whose both bounds lie in year `y` only admits instants of year `y`. */
  lemma WindowWithinYear(t: Instant, y: int, first: MonthDay, last: MonthDay)
    requires ValidInstant(t) && ValidMonthDay(first) && ValidMonthDay(last)
    requires InDateRange(t, Midnight(OnYear(first, y)), Midnight(NextDay(OnYear(last, y))))
    ensures t.date.year == y
  {
    FilterDateInclusive(t, OnYear(first, y), OnYear(last, y));
  }
}
