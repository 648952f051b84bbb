/**
 * The vacation-date classifier: a record's free-text vacation value
 * "<MONTH>/<YEAR>" against the current clock reading. Both copies of the
 * dashboard use the same parse rules and the same 60-day window; they differ
 * only in the style names of the badge.
 */
module Vacation {
  import opened Wrappers
  import opened Text
  import opened Calendar
  import opened Config

  /** A parsed vacation value: the year as `parseInt` read it and the month
      number from the month-name table. */
  datatype YearMonth = YearMonth(year: int, month: int)

  /** The month named by a token, looked up after upper-casing it. */
  function MonthNumber(token: string): (r: Option<int>)
    ensures r.Some? ==> IsMonth(r.value) && ToUpper(token) == MonthNames[r.value - 1]
    ensures r.None? ==> ToUpper(token) !in Months
  {
    MonthTablesAgree();
    var key := ToUpper(token);
    if key in Months then Some(Months[key]) else None
  }

  /** The guard and parse shared by the three predicates: the value is split
      on '/', the first piece names the month and the second is read by
      `parseInt`; an empty value, the "not informed" sentinel, an unknown
      month, a missing second piece, NaN or a zero year all give `None`.
      Pieces after the second are ignored. */
  function Parse(v: string): (r: Option<YearMonth>)
    ensures r.Some? ==> IsMonth(r.value.month) && r.value.year != 0
    ensures v == "" || v == NotInformed ==> r.None?
    ensures var pieces := Split(v, '/');
            r.Some? <==>
              && v != "" && v != NotInformed
              && |pieces| >= 2
              && MonthNumber(pieces[0]).Some?
              && ParseInt(pieces[1]).Some? && ParseInt(pieces[1]).value != 0
    ensures var pieces := Split(v, '/');
            r.Some? ==>
              && |pieces| >= 2
              && MonthNumber(pieces[0]) == Some(r.value.month)
              && ParseInt(pieces[1]) == Some(r.value.year)
  {
    var pieces := Split(v, '/');
    if v == "" || v == NotInformed || |pieces| < 2 then None
    else
      var month, year := MonthNumber(pieces[0]), ParseInt(pieces[1]);
      if month.None? || year.None? || year.value == 0 then None
      else Some(YearMonth(year.value, month.value))
  }

  /** `new Date(year, ...)` reads a year of 0..99 as 1900 + year. */
  function DateYear(year: int): int {
    if 0 <= year <= 99 then 1900 + year else year
  }

  /** The time value of `new Date(year, month - 1, 1)`, or `None` when that is
      an invalid date (NaN). */
  function StartMs(p: YearMonth): Option<int>
    requires IsMonth(p.month)
  {
    var t := FirstOfMonthMs(DateYear(p.year), p.month);
    if IsValidTime(t) then Some(t) else None
  }

  /** 60 days in milliseconds. */
  const UpcomingWindowMs: int := 60 * MsPerDay

  /** `isFeriasMesAtual`: month and year equal the clock's. */
  predicate IsCurrentMonth(v: string, now: Clock) {
    var p := Parse(v);
    p.Some? && p.value.month == now.month && p.value.year == now.year
  }

  /** `isProximaFerias`: the first instant of the month is more than 0 and at
      most 60 days after now (the source divides by the length of a day in
      floating point; the integer comparison below decides the same). */
  predicate IsUpcoming(v: string, now: Clock) {
    var p := Parse(v);
    p.Some? && var t := StartMs(p.value);
    t.Some? && 0 < t.value - now.ms <= UpcomingWindowMs
  }

  /** `isFeriasAtrasada`: the first instant of the month is before now. */
  predicate IsOverdue(v: string, now: Clock) {
    var p := Parse(v);
    p.Some? && var t := StartMs(p.value);
    t.Some? && t.value < now.ms
  }

  datatype Status = Current | Upcoming | Overdue | NoStatus

  /** The status `getStatusFerias` picks: current, else upcoming, else
      overdue, else none. */
  function StatusOf(v: string, now: Clock): (s: Status)
    ensures Parse(v).None? ==> s == NoStatus
    ensures s == Current <==> IsCurrentMonth(v, now)
    ensures s == Upcoming <==> IsUpcoming(v, now) && !IsCurrentMonth(v, now)
    ensures s == Overdue <==> IsOverdue(v, now) && !IsCurrentMonth(v, now)
    ensures s == NoStatus <==> !IsCurrentMonth(v, now) && !IsUpcoming(v, now) && !IsOverdue(v, now)
  {
    if v == "" || v == NotInformed then NoStatus
    else if IsCurrentMonth(v, now) then Current
    else if IsUpcoming(v, now) then Upcoming
    else if IsOverdue(v, now) then Overdue
    else NoStatus
  }

  /** The style class, badge class and badge text of a status. */
  datatype Badge = Badge(styleClass: string, badgeClass: string, text: string)

  function BadgeOf(edition: Edition, s: Status): (b: Badge)
    ensures s == NoStatus <==> b.text == ""
    ensures b.text == "" <==> b.styleClass == "" && b.badgeClass == ""
  {
    match (edition, s)
    case (_, NoStatus) => Badge("", "", "")
    case (Classic, Current) => Badge("ferias-atual", "ferias-atual", "F\U{E9}rias")
    case (Classic, Upcoming) => Badge("ferias-proximas", "ferias-proximas", "Pr\U{F3}xima")
    case (Classic, Overdue) => Badge("ferias-atrasadas", "ferias-atrasadas", "Atrasada")
    case (Professional, Current) => Badge("status-success", "badge-success", "F\U{E9}rias")
    case (Professional, Upcoming) => Badge("status-warning", "badge-warning", "Pr\U{F3}xima")
    case (Professional, Overdue) => Badge("status-danger", "badge-danger", "Atrasada")
  }

  /** `getStatusFerias`. */
  function StatusBadge(edition: Edition, v: string, now: Clock): (b: Badge)
    ensures b.text == "Atrasada" ==> IsOverdue(v, now) && !IsCurrentMonth(v, now)
    ensures Parse(v).None? ==> b == Badge("", "", "")
  {
    BadgeOf(edition, StatusOf(v, now))
  }

  // ---------------------------------------------------------------------
  // What the classification means in terms of instants
  // ---------------------------------------------------------------------

  /** Every month name is written in capitals, without '/', and its second
      letter is not the second letter of the "not informed" sentinel. */
  lemma MonthNameShape(m: int)
    requires IsMonth(m)
    ensures var name := MonthNames[m - 1];
            |name| >= 4 && name[1] != NotInformed[1] && '/' !in name &&
            forall i :: 0 <= i < |name| ==> IsUpperLetter(name[i])
  {
    var name := MonthNames[m - 1];
    if m == 1 { assert name == "JANEIRO"; }
    else if m == 2 { assert name == "FEVEREIRO"; }
    else if m == 3 { assert name == "MAR\U{C7}O"; }
    else if m == 4 { assert name == "ABRIL"; }
    else if m == 5 { assert name == "MAIO"; }
    else if m == 6 { assert name == "JUNHO"; }
    else if m == 7 { assert name == "JULHO"; }
    else if m == 8 { assert name == "AGOSTO"; }
    else if m == 9 { assert name == "SETEMBRO"; }
    else if m == 10 { assert name == "OUTUBRO"; }
    else if m == 11 { assert name == "NOVEMBRO"; }
    else { assert name == "DEZEMBRO"; }
  }

  /** A month name, in capitals, looks up its own number. */
  lemma MonthNumberOfName(m: int)
    requires IsMonth(m)
    ensures MonthNumber(MonthNames[m - 1]) == Some(m)
  {
    MonthTablesAgree();
    MonthNameShape(m);
    ToUpperOfCapitals(MonthNames[m - 1]);
  }

  /** A value written the way the form expects, a month name, '/', and a
      positive year in decimal, parses back to that month and year. */
  lemma ParseFormatted(m: int, y: int)
    requires IsMonth(m) && y > 0
    ensures Parse(MonthNames[m - 1] + "/" + DecimalString(y)) == Some(YearMonth(y, m))
  {
    var name := MonthNames[m - 1];
    var digits := DecimalString(y);
    var v := name + "/" + digits;
    MonthNameShape(m);
    assert v[1] == name[1];
    assert v != "" && v != NotInformed;
    assert v == Join([name, digits], '/');
    assert '/' !in digits;
    SplitJoin([name, digits], '/');
    assert Split(v, '/') == [name, digits];
    MonthNumberOfName(m);
    ParseIntDecimal(y);
  }

  /** For a year that `Date` takes as written (not 1..99), a value is of the
      current month exactly when the clock's instant lies between the first
      instant of that month and the first instant of the next. */
  lemma {:induction false} CurrentMeansInstantInMonth(v: string, now: Clock)
    requires ConsistentClock(now)
    requires Parse(v).Some? && DateYear(Parse(v).value.year) == Parse(v).value.year
    ensures var p := Parse(v).value; var next := NextMonth(p.year, p.month);
            IsCurrentMonth(v, now) <==>
            FirstOfMonthMs(p.year, p.month) <= now.ms < FirstOfMonthMs(next.0, next.1)
  {
    var p := Parse(v).value;
    MonthOfInstant(now, p.year, p.month);
  }

  /** The status read off the instants alone, for a year that `Date` takes as
      written: current while now is inside the month; upcoming when the month
      starts after now and at most 60 days later; overdue once the whole
      month lies before now; otherwise, when it starts more than 60 days
      ahead or outside the range of a `Date`, no status. */
  lemma {:induction false} StatusByInstant(v: string, now: Clock)
    requires ConsistentClock(now)
    requires Parse(v).Some? && DateYear(Parse(v).value.year) == Parse(v).value.year
    ensures var p := Parse(v).value;
            var start := FirstOfMonthMs(p.year, p.month);
            var next := NextMonth(p.year, p.month);
            var end := FirstOfMonthMs(next.0, next.1);
            && (StatusOf(v, now) == Current <==> start <= now.ms < end)
            && (StatusOf(v, now) == Upcoming <==>
                  IsValidTime(start) && now.ms < start <= now.ms + UpcomingWindowMs)
            && (StatusOf(v, now) == Overdue <==> IsValidTime(start) && end <= now.ms)
            && (StatusOf(v, now) == NoStatus <==>
                  (now.ms < start || end <= now.ms) &&
                  (!IsValidTime(start) || now.ms + UpcomingWindowMs < start))
  {
    var p := Parse(v).value;
    var start := FirstOfMonthMs(p.year, p.month);
    var next := NextMonth(p.year, p.month);
    var end := FirstOfMonthMs(next.0, next.1);
    var current, upcoming, overdue := IsCurrentMonth(v, now), IsUpcoming(v, now), IsOverdue(v, now);
    assert upcoming == (IsValidTime(start) && 0 < start - now.ms <= UpcomingWindowMs);
    assert overdue == (IsValidTime(start) && start < now.ms);
    CurrentMeansInstantInMonth(v, now);
    assert current == (start <= now.ms < end);
    FirstOfMonthOrder(p.year, p.month, next.0, next.1);
    assert start < end;
  }

  /** A current-month value is never upcoming, whatever its year. */
  lemma {:induction false} CurrentIsNotUpcoming(v: string, now: Clock)
    requires ConsistentClock(now)
    requires IsCurrentMonth(v, now)
    ensures !IsUpcoming(v, now)
  {
    var p := Parse(v).value;
    assert p == YearMonth(now.year, now.month);
    var start := FirstOfMonthMs(DateYear(p.year), p.month);
    if 0 <= p.year <= 99 {
      LegacyYearIsFar(now, p.month);
    } else {
      assert start <= now.ms;
    }
    assert IsUpcoming(v, now) ==> 0 < start - now.ms <= UpcomingWindowMs;
  }

  /** When the clock's year is 0..99, `Date` reads that year as 1900 + year,
      whose months all begin more than 60 days after now. */
  lemma LegacyYearIsFar(now: Clock, m: int)
    requires ConsistentClock(now) && 0 <= now.year <= 99 && IsMonth(m)
    ensures FirstOfMonthMs(DateYear(now.year), m) - now.ms > UpcomingWindowMs
  {
    var nowNext := NextMonth(now.year, now.month);
    FirstOfMonthOrder(nowNext.0, nowNext.1, now.year + 1, 1);
    assert now.ms < FirstOfMonthMs(now.year + 1, 1);
    YearApart(now.year + 1, DateYear(now.year), m);
  }

  /** A current-month value also counts as overdue as soon as now is past the
      first instant of the month (for clock years from 100 on). */
  lemma {:induction false} CurrentIsOverdueAfterFirstInstant(v: string, now: Clock)
    requires ConsistentClock(now) && now.year >= 100
    requires IsCurrentMonth(v, now)
    ensures IsOverdue(v, now) <==> FirstOfMonthMs(now.year, now.month) < now.ms
  {
    FirstOfMonthOrder(100, 1, now.year, now.month);
    assert FirstOfMonthMs(100, 1) >= -MaxTimeMs;
  }
}
