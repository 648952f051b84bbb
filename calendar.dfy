/**
 * Instants as integer milliseconds since 1970-01-01, and the instant at which
 * a calendar month begins in the proleptic Gregorian calendar that JavaScript
 * `Date` uses. The local time zone is taken to be UTC.
 */
module Calendar {

  const MsPerDay: int := 86_400_000

  /** The largest magnitude of a valid `Date` time value; anything beyond
      it is an invalid date whose time value is NaN. */
  const MaxTimeMs: int := 8_640_000_000_000_000

  /** Days before the first of each month in a common year. */
  const CommonDaysBefore: seq<int> := [0, 31, 59, 90, 120, 151, 181, 212, 243, 273, 304, 334]

  predicate IsMonth(m: int) {
    1 <= m <= 12
  }

  predicate IsLeapYear(y: int) {
    y % 4 == 0 && (y % 100 != 0 || y % 400 == 0)
  }

  function DaysInYear(y: int): int {
    if IsLeapYear(y) then 366 else 365
  }

  /** Days from the first of January of `y` to the first of month `m`. */
  function DaysBeforeMonth(y: int, m: int): int
    requires IsMonth(m)
  {
    CommonDaysBefore[m - 1] + (if m > 2 && IsLeapYear(y) then 1 else 0)
  }

  /** Number of leap years among 1..y (negative for y < 0, counting down). */
  function LeapYearsThrough(y: int): int {
    y / 4 - y / 100 + y / 400
  }

  /** Day number (days since 1970-01-01) of the first of January of `y`. */
  function YearStartDay(y: int): int {
    365 * (y - 1970) + LeapYearsThrough(y - 1) - LeapYearsThrough(1969)
  }

  /** `new Date(y, m - 1, 1).getTime()` for a year already past the 0..99
      adjustment, in milliseconds. */
  function FirstOfMonthMs(y: int, m: int): int
    requires IsMonth(m)
  {
    (YearStartDay(y) + DaysBeforeMonth(y, m)) * MsPerDay
  }

  /** Whether a time value lies inside the range of a valid `Date`. */
  predicate IsValidTime(t: int) {
    -MaxTimeMs <= t <= MaxTimeMs
  }

  /** The month after (y, m), as a (year, month) pair. */
  function NextMonth(y: int, m: int): (r: (int, int))
    requires IsMonth(m)
    ensures IsMonth(r.1)
    ensures MonthIndex(r.0, r.1) == MonthIndex(y, m) + 1
  {
    if m == 12 then (y + 1, 1) else (y, m + 1)
  }

  /** Months counted from January of year 0; orders (year, month) pairs. */
  function MonthIndex(y: int, m: int): int {
    12 * y + m - 1
  }

  /** A reading of the clock: the instant and the calendar year and month
      (1-based) that `getFullYear()` and `getMonth() + 1` report for it. */
  datatype Clock = Clock(ms: int, year: int, month: int)

  /** The year and month of a clock reading are those of its instant. */
  predicate ConsistentClock(now: Clock) {
    IsMonth(now.month) && IsValidTime(now.ms) &&
    var next := NextMonth(now.year, now.month);
    FirstOfMonthMs(now.year, now.month) <= now.ms < FirstOfMonthMs(next.0, next.1)
  }

  // ---------------------------------------------------------------------
  // Lemmas
  // ---------------------------------------------------------------------

  /** Going from year y - 1 to y adds one leap year exactly when y is leap. */
  lemma LeapStep(y: int)
    ensures LeapYearsThrough(y) - LeapYearsThrough(y - 1) == if IsLeapYear(y) then 1 else 0
  {
    DivStep(y, 4);
    DivStep(y, 100);
    DivStep(y, 400);
  }

  /** Floor division by k steps up by one exactly at the multiples of k. */
  lemma DivStep(y: int, k: int)
    requires k == 4 || k == 100 || k == 400
    ensures y / k - (y - 1) / k == if y % k == 0 then 1 else 0
  {
    var q, r := (y - 1) / k, (y - 1) % k;
    assert y - 1 == q * k + r && 0 <= r < k;
    if r + 1 < k {
      assert y == q * k + (r + 1);
    } else {
      assert y == (q + 1) * k;
    }
  }

  /** A year is 365 or 366 days long, according to the leap-year rule. */
  lemma YearLength(y: int)
    ensures YearStartDay(y + 1) == YearStartDay(y) + DaysInYear(y)
  {
    LeapStep(y);
  }

  /** Year starts grow by at least 365 days per year. */
  lemma {:induction false} YearStartGrows(y1: int, y2: int)
    requires y1 <= y2
    ensures YearStartDay(y1) + 365 * (y2 - y1) <= YearStartDay(y2)
    decreases y2 - y1
  {
    if y1 < y2 {
      YearStartGrows(y1, y2 - 1);
      YearLength(y2 - 1);
    }
  }

  /** The first of a later month is a later instant, and conversely: month
      starts are ordered exactly as the months are. */
  lemma FirstOfMonthOrder(y1: int, m1: int, y2: int, m2: int)
    requires IsMonth(m1) && IsMonth(m2)
    ensures MonthIndex(y1, m1) < MonthIndex(y2, m2) <==> FirstOfMonthMs(y1, m1) < FirstOfMonthMs(y2, m2)
    ensures MonthIndex(y1, m1) == MonthIndex(y2, m2) <==> (y1 == y2 && m1 == m2)
  {
    if y1 < y2 {
      StrictlyLater(y1, m1, y2, m2);
    } else if y2 < y1 {
      StrictlyLater(y2, m2, y1, m1);
    } else if m1 < m2 {
      assert DaysBeforeMonth(y1, m1) < DaysBeforeMonth(y2, m2);
    } else if m2 < m1 {
      assert DaysBeforeMonth(y2, m2) < DaysBeforeMonth(y1, m1);
    }
  }

  lemma StrictlyLater(y1: int, m1: int, y2: int, m2: int)
    requires IsMonth(m1) && IsMonth(m2) && y1 < y2
    ensures FirstOfMonthMs(y1, m1) < FirstOfMonthMs(y2, m2)
  {
    YearStartGrows(y1 + 1, y2);
    YearLength(y1);
    assert DaysBeforeMonth(y1, m1) < 365;
    assert YearStartDay(y1) + DaysBeforeMonth(y1, m1) < YearStartDay(y2) + DaysBeforeMonth(y2, m2);
  }

  /** The first of a month is no earlier than the first of its year, and at
      least a year's worth of milliseconds separates the first of January of
      y1 from every month of a later year y2. */
  lemma YearApart(y1: int, y2: int, m: int)
    requires y1 < y2 && IsMonth(m)
    ensures FirstOfMonthMs(y1, 1) + 365 * MsPerDay <= FirstOfMonthMs(y2, m)
  {
    YearStartGrows(y1, y2);
    var a, b := YearStartDay(y1), YearStartDay(y2) + DaysBeforeMonth(y2, m);
    assert a + 365 <= b;
    assert (a + 365) * MsPerDay <= b * MsPerDay;
  }

  /** The month a consistent clock reports is the only month whose span
      [first instant, first instant of the next month) holds the clock's
      instant. */
  lemma MonthOfInstant(now: Clock, y: int, m: int)
    requires ConsistentClock(now) && IsMonth(m)
    ensures (y == now.year && m == now.month) <==>
            (var next := NextMonth(y, m);
             FirstOfMonthMs(y, m) <= now.ms < FirstOfMonthMs(next.0, next.1))
  {
    var next := NextMonth(y, m);
    var nowNext := NextMonth(now.year, now.month);
    FirstOfMonthOrder(y, m, now.year, now.month);
    FirstOfMonthOrder(next.0, next.1, now.year, now.month);
    FirstOfMonthOrder(y, m, nowNext.0, nowNext.1);
  }

  /** June 2025 begins on day 20240 after the epoch. */
  lemma FirstOfJune2025()
    ensures FirstOfMonthMs(2025, 6) == 20240 * MsPerDay
  {
  }
}
