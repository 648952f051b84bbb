/**
 * `calcularEstatisticas`: the dashboard's counters over the records of a
 * snapshot. Each vacation counter applies one classifier predicate on its
 * own, not the status precedence, so the counters may overlap.
 */
module Statistics {
  import opened Seqs
  import opened Calendar
  import opened Config
  import opened Vacation

  datatype Stats = Stats(
    total: nat,
    currentMonth: nat,
    upcoming: nat,
    overdue: nat,
    morning: nat,
    afternoon: nat,
    night: nat)

  /** The record tests the counters apply. */
  function CurrentTest(now: Clock): Employee -> bool {
    (e: Employee) => IsCurrentMonth(e.vacation, now)
  }

  function UpcomingTest(now: Clock): Employee -> bool {
    (e: Employee) => IsUpcoming(e.vacation, now)
  }

  function OverdueTest(now: Clock): Employee -> bool {
    (e: Employee) => IsOverdue(e.vacation, now)
  }

  function ShiftTest(shift: string): Employee -> bool {
    (e: Employee) => e.shift == shift
  }

  /** The badge a record gets, as a record test. */
  function StatusTest(now: Clock, status: Status): Employee -> bool {
    (e: Employee) => StatusOf(e.vacation, now) == status
  }

  /** The counters of a snapshot's records (`Object.values`) at `now`. */
  function Calculate(es: seq<Employee>, now: Clock): (s: Stats)
    ensures s.total == |es|
    ensures es == [] ==> s == Stats(0, 0, 0, 0, 0, 0, 0)
  {
    Stats(
      |es|,
      Count(es, CurrentTest(now)),
      Count(es, UpcomingTest(now)),
      Count(es, OverdueTest(now)),
      Count(es, ShiftTest(Morning)),
      Count(es, ShiftTest(Afternoon)),
      Count(es, ShiftTest(Night)))
  }

  /** The shift counters count only the three exact shift names: together
      they never exceed the total, and they reach it exactly when every record
      names one of the three. */
  lemma ShiftCountsBound(es: seq<Employee>, now: Clock)
    ensures var s := Calculate(es, now);
            s.morning + s.afternoon + s.night <= s.total
    ensures var s := Calculate(es, now);
            s.morning + s.afternoon + s.night == s.total <==> forall e :: e in es ==> e.shift in Shifts
  {
    var dayTime := (e: Employee) => e.shift == Morning || e.shift == Afternoon;
    var anyShift := (e: Employee) => e.shift in Shifts;
    CountDisjoint(es, ShiftTest(Morning), ShiftTest(Afternoon), dayTime);
    CountDisjoint(es, dayTime, ShiftTest(Night), anyShift);
    CountAll(es, anyShift);
  }

  /** Records with an upcoming or an overdue vacation. */
  function UpcomingOrOverdueTest(now: Clock): Employee -> bool {
    (e: Employee) => IsUpcoming(e.vacation, now) || IsOverdue(e.vacation, now)
  }

  /** Records on vacation this month or with an upcoming vacation. */
  function CurrentOrUpcomingTest(now: Clock): Employee -> bool {
    (e: Employee) => IsCurrentMonth(e.vacation, now) || IsUpcoming(e.vacation, now)
  }

  /** No record is both upcoming and overdue, and, for a consistent clock,
      none is both current and upcoming. So the upcoming and overdue counters
      together count exactly the records that are one or the other, and
      likewise the current-month and upcoming counters; neither pair exceeds
      the total. */
  lemma VacationCountsBound(es: seq<Employee>, now: Clock)
    requires ConsistentClock(now)
    ensures forall e :: e in es ==>
              !(IsUpcoming(e.vacation, now) && IsOverdue(e.vacation, now)) &&
              !(IsCurrentMonth(e.vacation, now) && IsUpcoming(e.vacation, now))
    ensures var s := Calculate(es, now);
            s.upcoming + s.overdue == Count(es, UpcomingOrOverdueTest(now)) <= s.total
    ensures var s := Calculate(es, now);
            s.currentMonth + s.upcoming == Count(es, CurrentOrUpcomingTest(now)) <= s.total
  {
    CountDisjoint(es, UpcomingTest(now), OverdueTest(now), UpcomingOrOverdueTest(now));
    forall e | e in es && IsCurrentMonth(e.vacation, now)
      ensures !IsUpcoming(e.vacation, now)
    {
      CurrentIsNotUpcoming(e.vacation, now);
    }
    CountDisjoint(es, CurrentTest(now), UpcomingTest(now), CurrentOrUpcomingTest(now));
  }

  /** The overdue counter is the number of records badged "Atrasada" plus the
      number of current-month records that also pass the overdue test. */
  lemma OverdueCountSplit(es: seq<Employee>, now: Clock)
    ensures Calculate(es, now).overdue ==
            Count(es, StatusTest(now, Overdue)) +
            Count(es, (e: Employee) => IsCurrentMonth(e.vacation, now) && IsOverdue(e.vacation, now))
  {
    var both := (e: Employee) => IsCurrentMonth(e.vacation, now) && IsOverdue(e.vacation, now);
    CountSplit(es, OverdueTest(now), both, StatusTest(now, Overdue), CurrentTest(now));
    // The ensures spells `both` out again; it is the same function.
    CountSame(es, both, (e: Employee) => IsCurrentMonth(e.vacation, now) && IsOverdue(e.vacation, now));
  }

  /** The double counting of the dashboard: once the clock is past the first
      millisecond of its month, every current-month record is also counted as
      overdue; at that very first millisecond none is. */
  lemma CurrentCountedAsOverdue(es: seq<Employee>, now: Clock)
    requires ConsistentClock(now) && now.year >= 100
    ensures var s := Calculate(es, now);
            FirstOfMonthMs(now.year, now.month) < now.ms ==>
              s.overdue == Count(es, StatusTest(now, Overdue)) + s.currentMonth && s.currentMonth <= s.overdue
    ensures var s := Calculate(es, now);
            FirstOfMonthMs(now.year, now.month) == now.ms ==>
              s.overdue == Count(es, StatusTest(now, Overdue))
  {
    var both := (e: Employee) => IsCurrentMonth(e.vacation, now) && IsOverdue(e.vacation, now);
    OverdueCountSplit(es, now);
    CountSame(es, both, (e: Employee) => IsCurrentMonth(e.vacation, now) && IsOverdue(e.vacation, now));
    forall e | e in es && IsCurrentMonth(e.vacation, now)
      ensures IsOverdue(e.vacation, now) <==> FirstOfMonthMs(now.year, now.month) < now.ms
    {
      CurrentIsOverdueAfterFirstInstant(e.vacation, now);
    }
    if FirstOfMonthMs(now.year, now.month) < now.ms {
      CountSame(es, both, CurrentTest(now));
    } else {
      CountNone(es, both);
    }
  }

  /** The current and upcoming counters agree with the badges, and the four
      badge kinds partition the records. */
  lemma StatusCounts(es: seq<Employee>, now: Clock)
    requires ConsistentClock(now)
    ensures Count(es, StatusTest(now, Current)) == Calculate(es, now).currentMonth
    ensures Count(es, StatusTest(now, Upcoming)) == Calculate(es, now).upcoming
    ensures Count(es, StatusTest(now, Current)) + Count(es, StatusTest(now, Upcoming)) +
            Count(es, StatusTest(now, Overdue)) + Count(es, StatusTest(now, NoStatus)) == |es|
  {
    CountSame(es, StatusTest(now, Current), CurrentTest(now));
    forall e | e in es
      ensures StatusOf(e.vacation, now) == Upcoming <==> IsUpcoming(e.vacation, now)
    {
      if IsCurrentMonth(e.vacation, now) {
        CurrentIsNotUpcoming(e.vacation, now);
      }
    }
    CountSame(es, StatusTest(now, Upcoming), UpcomingTest(now));
    var cu := (e: Employee) => StatusOf(e.vacation, now) in {Current, Upcoming};
    var cuo := (e: Employee) => StatusOf(e.vacation, now) in {Current, Upcoming, Overdue};
    var any := (e: Employee) => true;
    CountDisjoint(es, StatusTest(now, Current), StatusTest(now, Upcoming), cu);
    CountDisjoint(es, cu, StatusTest(now, Overdue), cuo);
    CountDisjoint(es, cuo, StatusTest(now, NoStatus), any);
    CountAll(es, any);
  }
}
