/**
 * The lists the dashboard draws from a snapshot's entries (`Object.entries`,
 * in key order): the upcoming-vacation section, cut to a fixed number of
 * cards, the current-month section, and one section per shift with its
 * vacation counter.
 */
module Sections {
  import opened Seqs
  import opened Calendar
  import opened Config
  import opened Vacation
  import opened Statistics

  /** A record test applied to the record of an entry. */
  function OfEntry(p: Employee -> bool): Entry -> bool {
    (x: Entry) => p(x.employee)
  }

  /** Entries whose record is on `shift` and on vacation this month. */
  function OnShiftAndCurrent(shift: string, now: Clock): Entry -> bool {
    (x: Entry) => x.employee.shift == shift && IsCurrentMonth(x.employee.vacation, now)
  }

  /** All entries with an upcoming vacation, in entry order. */
  function UpcomingEntries(entries: seq<Entry>, now: Clock): (r: seq<Entry>)
    ensures forall x :: x in r <==> x in entries && IsUpcoming(x.employee.vacation, now)
  {
    FilterSpec(entries, [], OfEntry(UpcomingTest(now)));
    Filter(entries, OfEntry(UpcomingTest(now)))
  }

  /** `renderizarProximasFerias`: the first `limit` entries with an upcoming
      vacation (`slice(0, limit)`). */
  function UpcomingSection(entries: seq<Entry>, now: Clock, limit: nat): (r: seq<Entry>)
    ensures |r| <= limit
    ensures forall x :: x in r ==> x in entries && IsUpcoming(x.employee.vacation, now)
  {
    var all := UpcomingEntries(entries, now);
    all[..if |all| <= limit then |all| else limit]
  }

  /** `renderizarFeriasMesAtual` / `renderizarFeriasAtuais`: every entry on
      vacation this month, in entry order. */
  function CurrentSection(entries: seq<Entry>, now: Clock): (r: seq<Entry>)
    ensures forall x :: x in r <==> x in entries && IsCurrentMonth(x.employee.vacation, now)
  {
    FilterSpec(entries, [], OfEntry(CurrentTest(now)));
    Filter(entries, OfEntry(CurrentTest(now)))
  }

  /** The entries of one shift (exact name), in entry order. */
  function ShiftSection(entries: seq<Entry>, shift: string): (r: seq<Entry>)
    ensures forall x :: x in r <==> x in entries && x.employee.shift == shift
  {
    FilterSpec(entries, [], OfEntry(ShiftTest(shift)));
    Filter(entries, OfEntry(ShiftTest(shift)))
  }

  /** The "de férias" counter of a shift: its entries on vacation this month. */
  function ShiftOnVacation(entries: seq<Entry>, shift: string, now: Clock): (n: nat)
    ensures n <= |ShiftSection(entries, shift)|
  {
    |Filter(ShiftSection(entries, shift), OfEntry(CurrentTest(now)))|
  }

  /** Counting entries by their records counts the records. */
  lemma {:induction false} CountEntries(entries: seq<Entry>, p: Employee -> bool)
    ensures Count(entries, OfEntry(p)) == Count(Employees(entries), p)
    decreases |entries|
  {
    if entries != [] {
      CountEntries(entries[1..], p);
      assert Employees(entries[1..]) == Employees(entries)[1..];
    }
  }

  /** The upcoming section holds as many cards as the upcoming counter, up
      to the limit; it is the beginning of the full upcoming list, and when
      the counter is within the limit it holds every upcoming entry. */
  lemma UpcomingSectionSize(entries: seq<Entry>, now: Clock, limit: nat)
    ensures var n := Calculate(Employees(entries), now).upcoming;
            |UpcomingSection(entries, now, limit)| == (if n <= limit then n else limit)
    ensures UpcomingSection(entries, now, limit) <= UpcomingEntries(entries, now)
    ensures Calculate(Employees(entries), now).upcoming <= limit ==>
            forall x :: x in UpcomingSection(entries, now, limit) <==>
                        x in entries && IsUpcoming(x.employee.vacation, now)
  {
    FilterEntries(entries, UpcomingTest(now));
  }

  /** The shift's vacation counter counts the entries that are both on the
      shift and on vacation this month. */
  lemma ShiftOnVacationCount(entries: seq<Entry>, shift: string, now: Clock)
    ensures ShiftOnVacation(entries, shift, now) == Count(entries, OnShiftAndCurrent(shift, now))
  {
    FilterFilter(entries, OfEntry(ShiftTest(shift)), OfEntry(CurrentTest(now)), OnShiftAndCurrent(shift, now));
    FilterSpec(entries, [], OnShiftAndCurrent(shift, now));
  }

  /** Filtering entries by a record test keeps as many entries as the
      records that pass it. */
  lemma FilterEntries(entries: seq<Entry>, p: Employee -> bool)
    ensures |Filter(entries, OfEntry(p))| == Count(Employees(entries), p)
  {
    FilterSpec(entries, [], OfEntry(p));
    CountEntries(entries, p);
  }

  /** The sections agree with the counters: the current-month section has
      `feriasMesAtual` cards and each shift section has its `porTurno` count. */
  lemma SectionsAgreeWithStatistics(entries: seq<Entry>, now: Clock)
    ensures var s := Calculate(Employees(entries), now);
            && |CurrentSection(entries, now)| == s.currentMonth
            && |ShiftSection(entries, Morning)| == s.morning
            && |ShiftSection(entries, Afternoon)| == s.afternoon
            && |ShiftSection(entries, Night)| == s.night
  {
    FilterEntries(entries, CurrentTest(now));
    FilterEntries(entries, ShiftTest(Morning));
    FilterEntries(entries, ShiftTest(Afternoon));
    FilterEntries(entries, ShiftTest(Night));
  }

  /** The three shifts' vacation counters add up to at most the current-month
      counter; records on no known shift are in no shift section. */
  lemma ShiftVacationTotal(entries: seq<Entry>, now: Clock)
    ensures ShiftOnVacation(entries, Morning, now) + ShiftOnVacation(entries, Afternoon, now) +
            ShiftOnVacation(entries, Night, now) <= Calculate(Employees(entries), now).currentMonth
  {
    ShiftOnVacationCount(entries, Morning, now);
    ShiftOnVacationCount(entries, Afternoon, now);
    ShiftOnVacationCount(entries, Night, now);
    ShiftCurrentCounts(entries, now);
    CountEntries(entries, CurrentTest(now));
  }

  /** Entries on a day shift (morning or afternoon) and on vacation. */
  function OnDayShiftAndCurrent(now: Clock): Entry -> bool {
    (x: Entry) => (x.employee.shift == Morning || x.employee.shift == Afternoon) &&
                  IsCurrentMonth(x.employee.vacation, now)
  }

  /** Entries on any of the three shifts and on vacation. */
  function OnAnyShiftAndCurrent(now: Clock): Entry -> bool {
    (x: Entry) => x.employee.shift in Shifts && IsCurrentMonth(x.employee.vacation, now)
  }

  lemma ShiftCurrentCounts(entries: seq<Entry>, now: Clock)
    ensures Count(entries, OnShiftAndCurrent(Morning, now)) + Count(entries, OnShiftAndCurrent(Afternoon, now)) +
            Count(entries, OnShiftAndCurrent(Night, now)) <= Count(entries, OfEntry(CurrentTest(now)))
  {
    CountDisjoint(entries, OnShiftAndCurrent(Morning, now), OnShiftAndCurrent(Afternoon, now), OnDayShiftAndCurrent(now));
    CountDisjoint(entries, OnDayShiftAndCurrent(now), OnShiftAndCurrent(Night, now), OnAnyShiftAndCurrent(now));
    CountMonotone(entries, OnAnyShiftAndCurrent(now), OfEntry(CurrentTest(now)));
  }

  /** `renderizarTurnos`: for each shift in display order, the number of its
      entries and of those on vacation this month. */
  method ShiftCounters(entries: seq<Entry>, now: Clock) returns (staff: seq<nat>, onVacation: seq<nat>)
    ensures |staff| == |onVacation| == |Shifts|
    ensures forall i :: 0 <= i < |Shifts| ==>
              staff[i] == |ShiftSection(entries, Shifts[i])| &&
              onVacation[i] == ShiftOnVacation(entries, Shifts[i], now)
    ensures var s := Calculate(Employees(entries), now);
            staff == [s.morning, s.afternoon, s.night] &&
            onVacation[0] + onVacation[1] + onVacation[2] <= s.currentMonth
  {
    staff, onVacation := [], [];
    for i := 0 to |Shifts|
      invariant |staff| == |onVacation| == i
      invariant forall j :: 0 <= j < i ==>
                  staff[j] == |ShiftSection(entries, Shifts[j])| &&
                  onVacation[j] == ShiftOnVacation(entries, Shifts[j], now)
    {
      var members := ShiftSection(entries, Shifts[i]);
      staff := staff + [|members|];
      onVacation := onVacation + [|Filter(members, OfEntry(CurrentTest(now)))|];
    }
    SectionsAgreeWithStatistics(entries, now);
    ShiftVacationTotal(entries, now);
  }
}
