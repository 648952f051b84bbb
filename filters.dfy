/**
 * The card filters of the dashboard (`aplicarFiltros`, `aplicarFiltroFerias`):
 * a free-text search over the card's text, three exact-match selects and a
 * vacation select, all of which must accept a card for it to be shown.
 */
module Filters {
  import opened Text
  import opened Calendar
  import opened Config
  import opened Vacation

  /** The select value that accepts everything. */
  const All: string := "todos"

  /** The vacation-select values with a test of their own; any other value
      accepts every card. */
  const VacationFilterNames: set<string> :=
    {"feriados", "proximos", "atrasadas", "este-mes", "nao-informado"}

  /** The filter values as stored after reading the controls; the search text
      is kept lower-cased. */
  datatype FilterValues = FilterValues(search: string, shift: string, role: string, team: string, vacation: string)

  /** The filters the page starts with and `resetarFiltros` restores. */
  const DefaultFilters: FilterValues := FilterValues("", All, All, All, All)

  /** What a card exposes to the filters: its `data-` attributes, copied from
      the record, and its rendered text. */
  datatype Card = Card(shift: string, role: string, team: string, vacation: string, text: string)

  function CardOf(e: Employee, text: string): Card {
    Card(e.shift, e.role, e.team, e.vacation, text)
  }

  /** Reading the five controls: only the search text is transformed, by
      lower-casing it, so reading it a second time changes nothing. */
  function ReadFilters(searchInput: string, shift: string, role: string, team: string, vacation: string): (f: FilterValues)
    ensures f.search == ToLower(searchInput)
    ensures ToLower(f.search) == f.search && |f.search| == |searchInput|
    ensures f.shift == shift && f.role == role && f.team == team && f.vacation == vacation
  {
    ToLowerIdempotent(searchInput);
    FilterValues(ToLower(searchInput), shift, role, team, vacation)
  }

  /** `aplicarFiltroFerias`: the vacation select applied to a card's vacation
      value. "feriados" and "este-mes" are the same test, "nao-informado"
      accepts only the exact sentinel, and "todos" or an unknown value accepts
      everything. */
  function VacationFilterMatches(filter: string, v: string, now: Clock): (r: bool)
    ensures filter !in VacationFilterNames ==> r
    ensures filter == "feriados" || filter == "este-mes" ==> (r <==> IsCurrentMonth(v, now))
    ensures filter == "proximos" ==> (r <==> IsUpcoming(v, now))
    ensures filter == "atrasadas" ==> (r <==> IsOverdue(v, now))
    ensures filter == "nao-informado" ==> (r <==> v == NotInformed) && (r ==> StatusOf(v, now) == NoStatus)
  {
    match filter
    case "todos" => true
    case "feriados" => IsCurrentMonth(v, now)
    case "proximos" => IsUpcoming(v, now)
    case "atrasadas" => IsOverdue(v, now)
    case "este-mes" => IsCurrentMonth(v, now)
    case "nao-informado" => v == NotInformed
    case _ => true
  }

  /** Whether one select accepts a card attribute. */
  predicate SelectMatches(selected: string, attribute: string) {
    selected == All || attribute == selected
  }

  /** Whether `aplicarFiltros` shows a card: the search text is empty or
      occurs in the lower-cased card text, and every select accepts it. */
  predicate CardVisible(f: FilterValues, c: Card, now: Clock) {
    && (f.search == "" || Contains(ToLower(c.text), f.search))
    && SelectMatches(f.shift, c.shift)
    && SelectMatches(f.role, c.role)
    && SelectMatches(f.team, c.team)
    && VacationFilterMatches(f.vacation, c.vacation, now)
  }

  /** What a shown card satisfies: the search text occurs at some position
      of its lower-cased text, and a select other than "todos" equals the
      card's attribute. Widening any one filter back to its default keeps the
      card shown, and the default filters show every card. */
  lemma VisibleCardMatches(f: FilterValues, c: Card, now: Clock)
    ensures CardVisible(f, c, now) && f.search != "" ==>
              exists k :: OccursAt(ToLower(c.text), f.search, k)
    ensures CardVisible(f, c, now) && f.shift != All ==> c.shift == f.shift
    ensures CardVisible(f, c, now) && f.role != All ==> c.role == f.role
    ensures CardVisible(f, c, now) && f.team != All ==> c.team == f.team
    ensures CardVisible(f, c, now) ==>
              CardVisible(f.(search := ""), c, now) && CardVisible(f.(shift := All), c, now) &&
              CardVisible(f.(role := All), c, now) && CardVisible(f.(team := All), c, now) &&
              CardVisible(f.(vacation := All), c, now)
    ensures CardVisible(DefaultFilters, c, now)
  {
    ContainsAt(ToLower(c.text), f.search);
  }

  /** The search ignores case: typing the search in any mix of cases shows
      the same cards as typing it lower-cased. */
  lemma SearchIgnoresCase(searchInput: string, shift: string, role: string, team: string, vacation: string, c: Card, now: Clock)
    ensures CardVisible(ReadFilters(searchInput, shift, role, team, vacation), c, now) <==>
            CardVisible(ReadFilters(ToLower(searchInput), shift, role, team, vacation), c, now)
  {
    ToLowerIdempotent(searchInput);
  }

  /** The loop over the cards: for each card, whether it is shown. */
  method Visibility(cards: seq<Card>, f: FilterValues, now: Clock) returns (shown: seq<bool>)
    ensures |shown| == |cards|
    ensures forall i :: 0 <= i < |cards| ==> shown[i] == CardVisible(f, cards[i], now)
  {
    shown := [];
    for i := 0 to |cards|
      invariant |shown| == i
      invariant forall j :: 0 <= j < i ==> shown[j] == CardVisible(f, cards[j], now)
    {
      var c := cards[i];
      var matchSearch := f.search == "" || Contains(ToLower(c.text), f.search);
      var matchShift := f.shift == All || c.shift == f.shift;
      var matchRole := f.role == All || c.role == f.role;
      var matchTeam := f.team == All || c.team == f.team;
      var matchVacation := VacationFilterMatches(f.vacation, c.vacation, now);
      shown := shown + [matchSearch && matchShift && matchRole && matchTeam && matchVacation];
    }
  }
}
