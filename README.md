# Vacation dashboard: a verified model

The repository is a staff dashboard for a corrective-maintenance team. It
shows each employee's shift, team, role and planned vacation month. It exists
in two near-identical copies:

- `script.js` is the classic edition, written against `APP_STATE`;
- `Script.js` is the professional edition, written against `STATE`.

This project models, in Dafny, the logic the two copies share. The
`Edition` datatype (`Classic`, `Professional`) carries the points where they
differ.

The modules:

- **Vacation** (`vacation.dfy`): the classifier of a free-text vacation value
  `"<MONTH>/<YEAR>"`, which covers `isFeriasMesAtual`, `isProximaFerias`,
  `isFeriasAtrasada` and `getStatusFerias`. The value is split on `/`, the
  month is upper-cased and looked up in the month table, and the year is read
  by `parseInt`. The classifier then decides "current month", "upcoming
  within 60 days" and "overdue" against a clock reading passed in as a
  parameter.
- **Calendar** (`calendar.dfy`): instants are integer milliseconds.
  `new Date(y, m - 1, 1)` is the proleptic Gregorian first of the month, with
  JavaScript's `TimeClip` range and its reading of years 0..99 as 1900 + y. A
  `Clock` is an instant together with the month and year that `Date` reports
  for it.
- **Text** (`text.dfy`): the string built-ins the source relies on:
  - `trim`;
  - `split` and `join` on one character;
  - `toUpperCase` and `toLowerCase` on the characters that matter;
  - `includes`;
  - `replace(/\D/g, '')`;
  - `parseInt`.
- **Statistics** (`stats.dfy`): `calcularEstatisticas`.
- **Sections** (`sections.dfy`): the upcoming-vacation list, cut to 10
  (classic) or 6 (professional) cards, the current-month list, and the
  per-shift lists and counters of `renderizarTurnos`.
- **Filters** (`filters.dfy`): `aplicarFiltroFerias` and the per-card test of
  `aplicarFiltros`.
- **Form** (`form.dfy`): `obterDadosFormulario`. It checks the required
  fields in order, rejects a duplicate DRT only when creating a record, and
  fills in defaults.
- **Export** (`export.dfy`): the CSV text of `exportarDados` and the
  WhatsApp link of `abrirWhatsApp`.
- **Session** (`session.dfy`): a `Dashboard` class. Its fields are the
  snapshot, `isAdmin`, `funcionarioEditando` (`editing`), the filters, the
  stored counters, the store writes requested and the messages shown. Each
  handler is a method guarded by the administrator check.
- **Config**, **Seqs** and **Wrappers** hold the constants and records, the
  counting and filtering lemmas, and `Option`/`Result`.

## Model

| member | source | states |
|---|---|---|
| Config.MonthTablesAgree | script.js:9-12 | The month table maps exactly the twelve Portuguese month names, in capitals, to 1..12, and each number maps back to its name. |
| Text.TrimIdempotent | script.js:330-338 | A trimmed field has no JavaScript whitespace at either end, and trimming it again changes nothing. |
| Text.SplitJoin | script.js:669 | Joining separator-free pieces and splitting the result on the same separator gives the pieces back. |
| Text.JoinSplit | script.js:669 | Splitting a string and joining the pieces with the same separator gives the string back. |
| Text.ParseIntDecimal | script.js:671 | `parseInt` reads the decimal numeral of a positive number back as that number. |
| Text.ToLowerIdempotent | Script.js:574 | Lower-casing a second time changes nothing. |
| Text.ContainsAt | Script.js:589 | `includes` holds exactly when the search text occurs at some position of the card text. |
| Calendar.FirstOfMonthOrder | script.js:692 | The first instants of months are ordered exactly as the months are, and two months have the same index only when they are the same month. |
| Calendar.MonthOfInstant | script.js:675-676 | A consistent clock reports the one month whose span, from its first instant up to the next month's first instant, holds the clock's instant. |
| Calendar.YearApart | script.js:692 | The first of January of a year lies at least 365 days before every month of a later year. |
| Vacation.MonthNumber | script.js:670 | A month token found in the table after upper-casing gives a month 1..12 whose name is the upper-cased token; any other token gives no month. |
| Vacation.Parse | script.js:667-673 | A value parses exactly when it is neither empty nor the "Não informado" sentinel, splits on '/' into at least two pieces, its first piece names a month after upper-casing, and `parseInt` reads its second piece as a number other than NaN and 0. The parsed month is the first piece's month number (1..12), and the parsed year is what `parseInt` read; pieces after the second are ignored. |
| Vacation.ParseFormatted | script.js:669-673 | A value written as a month name, '/', and a positive decimal year parses back to that month and year. |
| Vacation.StatusOf | script.js:719-735 | The status is Current exactly when the value is of the current month. It is Upcoming exactly when upcoming and not current, and Overdue exactly when overdue and not current. Otherwise it is none, and an unparsable value always gets none. |
| Vacation.BadgeOf | Script.js:716-732 | The badge text is empty exactly when there is no status, and then both style names are empty too. |
| Vacation.StatusBadge | script.js:719-735 | An unparsable value gets the empty badge, and an "Atrasada" badge is only given to an overdue value that is not of the current month. |
| Vacation.CurrentMeansInstantInMonth | script.js:675-676 | For a year that `Date` takes as written, a value is of the current month exactly when the clock's instant lies inside that month. |
| Vacation.StatusByInstant | script.js:682-735 | The status is read off the instants alone: current inside the month, upcoming when the month starts more than 0 and at most 60 days ahead, overdue once the month has ended, and none otherwise. |
| Vacation.CurrentIsNotUpcoming | script.js:691-696 | A current-month value is never upcoming, including when its year is read as 1900 + year. |
| Vacation.LegacyYearIsFar | script.js:692 | When the clock's year is 0..99, every month of 1900 + that year begins more than 60 days after now. |
| Vacation.CurrentIsOverdueAfterFirstInstant | script.js:711-713 | A current-month value is overdue exactly when now is past the first instant of the month. |
| Statistics.Calculate | script.js:628-642 | `total` is the number of records, and no records give all counters zero. |
| Statistics.ShiftCountsBound | script.js:636-640 | The three shift counters together never exceed the total, and they equal it exactly when every record names one of the three shifts. |
| Statistics.VacationCountsBound | script.js:633-635 | No record is both upcoming and overdue, nor both current and upcoming. The upcoming and overdue counters therefore add up to exactly the number of records that are either, and so do the current-month and upcoming counters; neither sum exceeds the total. |
| Statistics.OverdueCountSplit | script.js:635 | The overdue counter is the number of records badged overdue plus the number of current-month records that are also overdue. |
| Statistics.CurrentCountedAsOverdue | Script.js:655-657 | Once now is past the first instant of the month, every current-month record is counted as overdue too. At the first instant itself, overdue counts exactly the records badged overdue. |
| Statistics.StatusCounts | Script.js:650-664 | The numbers of records badged current and upcoming equal the current-month and upcoming counters, and the four statuses partition the records. |
| Sections.UpcomingEntries | Script.js:465-466 | An entry is in the upcoming list exactly when it is in the snapshot and its vacation is upcoming. |
| Sections.UpcomingSection | Script.js:463-467 | The section holds at most `limit` entries, all from the snapshot and all upcoming. |
| Sections.UpcomingSectionSize | script.js:438-447 | The section holds the upcoming counter's number of cards, capped at the limit. It is a prefix of the full upcoming list, and below the limit it holds every upcoming entry. |
| Sections.CurrentSection | Script.js:477-480 | An entry is in the current-month section exactly when it is in the snapshot and of the current month. |
| Sections.ShiftSection | Script.js:493-494 | An entry is in a shift's section exactly when it is in the snapshot and names that shift. |
| Sections.ShiftOnVacationCount | Script.js:496-498 | A shift's vacation counter counts the entries that are on that shift and of the current month. |
| Sections.SectionsAgreeWithStatistics | script.js:452-490 | The current-month section and each shift section have exactly the sizes of the corresponding counters of `calcularEstatisticas`. |
| Sections.ShiftVacationTotal | Script.js:490-509 | The three shifts' vacation counters add up to at most the current-month counter. |
| Sections.ShiftCounters | Script.js:490-509 | The loop over the shifts yields, per shift, the section size and its vacation count. These equal the statistics' shift counters, and the vacation counts sum to at most the current-month counter. |
| Filters.VacationFilterMatches | Script.js:604-614 | Per filter value: "todos" and unknown values accept every card; "feriados" and "este-mes" both mean current month; "proximos" means upcoming; "atrasadas" means overdue; "nao-informado" accepts only the exact sentinel, which has no status. |
| Filters.ReadFilters | Script.js:574-580 | The stored search is the lower-cased input, of the input's length, and lower-casing it again changes nothing. The selects are stored as read. |
| Filters.VisibleCardMatches | Script.js:589-595 | A shown card contains the search text and equals every non-"todos" select. Widening any one filter keeps it shown, and the default filters show every card. |
| Filters.SearchIgnoresCase | script.js:547-577 | Typing the search in any mix of cases shows the same cards as typing it lower-cased. |
| Filters.Visibility | Script.js:582-596 | The loop over the cards decides, for each card, exactly the card test. |
| Form.OrDefault | script.js:363-366 | A non-empty value is kept, and a blank value is replaced by a non-empty fallback. |
| Form.Validate | script.js:329-370 | An accepted form gives the record built from it. Name, DRT and phone are trimmed; role, shift and team are as typed; a blank vacation or hiring date becomes "Não informado", and the others are kept as typed; the photo is the trimmed input, or the edition's placeholder when that is blank. The record is well formed: its trimmed fields have no outer whitespace and no field is empty. A new record never reuses a stored DRT, and a duplicate-DRT refusal happens only when creating a record whose trimmed DRT is stored. |
| Form.ValidationOrder | script.js:341-355 | The form is refused for the first missing field in the order name, DRT, role, shift, team, phone, whatever the stored records. Otherwise it is refused for a duplicate DRT exactly when creating with a stored DRT, and accepted exactly in the other cases. |
| Form.EditRoundTrip | script.js:252-283 | Opening a record the form produced and saving it unchanged gives back the same record. |
| Form.CreateKeepsDrtsUnique | Script.js:370-376 | Creating a record keeps the stored DRTs pairwise distinct. |
| Form.EditMayDuplicateDrt | script.js:349 | Editing skips the duplicate check, so an edit can give a record another record's DRT. |
| Export.CsvRows | Script.js:834-843 | One line per record, in record order. |
| Export.Unquote | Script.js:835 | Whatever unquotes was the quote of its result. |
| Export.UnquoteQuote | Script.js:835 | Unquoting undoes quoting for every field. |
| Export.RowRoundTrip | script.js:896-908 | A record's line has no line break, and it reads back as the record's eight exported fields when none of them holds a comma, a double quote or a line break. |
| Export.CsvRoundTrip | Script.js:829-844 | The export is the header line followed by one line per record, joined by '\n' with no final newline. When no field holds a comma, a double quote or a line break, it reads back as exactly the records' exported fields, in order. |
| Export.WhatsAppNumber | Script.js:776-778 | The link is "https://wa.me/55" followed by only digits, and those digits are the phone's decimal digits in order. An all-digit phone is copied as is, and building the link from the digits alone gives the same link. |
| Export.WhatsAppConcat | Script.js:777 | Non-digits anywhere are dropped: the link of a phone written in two parts is the first part's link followed by the second part's digits. |
| Session.Lookup | script.js:260-264 | A found record is stored under the id; when nothing is found, no entry has that id. |
| Session.SaveWrite | Script.js:331-336 | The write is an update of the edited id exactly when a record is being edited, and otherwise a creation. |
| Session.SaveNoticeMatchesWrite | Script.js:331-336 | The professional message says "updated" exactly for an update and "added" exactly for a creation. |
| Session.ClassicUpdateReportsAdded | script.js:315-318 | For every edit, the classic copy requests the update of the edited record and leaves the dialog cleared, yet reports "adicionado", which is not the message that matches the write. |
| Session.Dashboard.constructor | script.js:19-30 | Not logged in, nothing being edited, default filters, zero counters, no writes, no messages. |
| Session.Dashboard.ReceiveSnapshot | script.js:112-133 | The snapshot is replaced, and the classic copy recomputes its counters. The redraw re-reads the filter controls, which hold the stored filter values, so the stored filters, the session and the messages are unchanged. |
| Session.Dashboard.RecomputeStatistics | script.js:628-642 | The stored counters become the counters of the current snapshot. |
| Session.Dashboard.CheckPassword | Script.js:189-208 | An empty input only asks for the password. The exact password logs in, and anything else is refused without changing `isAdmin`. |
| Session.Dashboard.LeaveAdmin | Script.js:237-247 | Logs out, and nothing else changes. |
| Session.Dashboard.OpenNew | Script.js:256-262 | For the administrator it clears the edited id. Otherwise it only reports the refusal. |
| Session.Dashboard.Edit | Script.js:279-308 | A refusal or an unknown id leaves the edited id unchanged. A stored id becomes the edited id, and the form is filled with its record's fields. |
| Session.Dashboard.CloseEditor | Script.js:313-316 | Clears the edited id. |
| Session.Dashboard.Save | script.js:296-324 | The form is refused when not admin or when it is invalid, with no write requested. A valid form requests exactly one write, chosen by the edit state. The classic copy closes and reports from the cleared state; the professional copy reports per branch and keeps the dialog open on a failed write. |
| Session.Dashboard.Commit | Script.js:330-344 | The write is appended, then the dialog is closed and the message shown as the edition does. |
| Session.Dashboard.Delete | Script.js:394-412 | Refused unless admin with a record in the dialog. Without confirmation nothing changes. After confirmation exactly one removal is requested; on success the dialog closes, and on failure it stays open. |
| Session.Dashboard.ExportCsv | script.js:884-924 | For the administrator, the CSV text of the snapshot's records, followed by the success message. Otherwise nothing but a refusal. |
| Session.Dashboard.ApplyFilters | Script.js:573-599 | The stored filters are the values read, and each card is shown exactly when it passes them. |
| Session.Dashboard.ResetFilters | Script.js:619-628 | The controls go back to their defaults and are applied: the stored filters are the defaults, every card is shown, and the reset message is shown. |

The two copies differ in these places:

- the badge style names (`BadgeOf`);
- the photo placeholder (`PhotoPlaceholder`);
- the upcoming-list limit (`UpcomingLimit`: 10 and 6);
- whether the counters are stored in the session (`ReceiveSnapshot`);
- the save message and whether the write is awaited (`Commit`).

`calcularEstatisticas` in `Script.js` returns a fresh record without touching
`STATE`. It is `Statistics.Calculate`, a function, so two calls on the same
snapshot and clock give equal results by construction.

## Left out

- Firebase subscription, push, update and remove are left out. Writes are recorded as `StoreWrite` events, and the outcome of an awaited write is the `writeSucceeds` parameter. The timestamps `dataCriacao` and `dataAtualizacao` added to stored records are not modelled.
- The wall clock is the `Clock` parameter. Local time zone and daylight saving time are not modelled: `new Date(y, m - 1, 1)` is taken in UTC.
- The floating-point day count of `isProximaFerias` is left out. It is replaced by the exact comparison `0 < start - now <= 60 days` in milliseconds, which decides the same for every instant `Date` can hold.
- The bar-chart percentages are left out because they are floating point.
- DOM work is left out: templates, modals, zoom, carousel, fullscreen, theme and `localStorage`, `alert`/`confirm` dialogs, `window.open`, and the Blob download.
- The card text the search looks at is a given string rather than rendered `textContent`.
- `atualizarContadoresTurnos` is left out. It counts visible cards in the DOM, including the `cards-manha`/`cards-manhã` id mismatch of the professional copy.
- Form refusals are the `FormError` values; the message strings are not modelled.
- Text.ToUpper: maps only ASCII, Latin-1 and the few other characters whose upper case can spell a month name. The full Unicode case tables are not modelled, so a token of other characters is simply not a month name.
- Text.ToLower: maps only ASCII, Latin-1 and capital Y with diaeresis. Other capitals in a card's text are left as they are, so a search for their lower case does not find them.
- Text.ParseInt: returns an unbounded integer. It does not model the double-precision rounding of numerals longer than 15 digits.
- Vacation.Parse: assumes the vacation value is a string. A stored field that is missing or of another type (JavaScript `undefined`) is not modelled. The month lookup is exact: an upper-cased token can never name an inherited key of the month object, since those all contain lower-case letters.
- Export.CsvRoundTrip: the round trip is proved only for fields without a comma, a double quote or a line break, because the export does not escape them. A field holding one of them produces a line that does not read back.
- Session.Dashboard.Save: the classic copy does not await its write, so a failed write is not caught there, and the model ignores `writeSucceeds` for that copy.
- The snapshot is a sequence of `Entry` values in key order. Key order within the store is given, not derived.
- Session.Dashboard.ReceiveSnapshot: does not return the card visibility of the redraw. That visibility is what `ApplyFilters` decides for the stored filters, provided the controls still hold the stored values; the model changes them only through `ApplyFilters` and `ResetFilters`.
- Where the description of the program and the code differ, the model follows the code:
  - the vacation counters are computed independently per predicate, not from the status, so a current-month record past the first of the month is counted as both current and overdue;
  - `split('/')` keeps only the first two pieces, so a value with more pieces still parses.

## Findings

| source | as written | input that shows it | evidently intended | confidence | as-written member | corrected member |
|---|---|---|---|---|---|---|
| script.js:315-318 | The success message is chosen after `fecharModalFuncionario` has cleared `funcionarioEditando`, so it always says "adicionado". | Save while editing record "id": an update is requested and "Funcionário adicionado" is shown. | "atualizado" after an update, as `Script.js:331-336` does. | not executed | Session.ClassicUpdateReportsAdded | Session.SaveNoticeMatchesWrite |
