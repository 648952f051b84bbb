/**
 * The text the dashboard hands to other programs: the CSV export of all
 * records (`exportarDados`) and the WhatsApp link of a phone number
 * (`abrirWhatsApp`).
 */
module Export {
  import opened Wrappers
  import opened Text
  import opened Config

  // ---------------------------------------------------------------------
  // CSV
  // ---------------------------------------------------------------------

  /** The column titles of the export, in order. */
  const CsvColumns: seq<string> :=
    ["Nome", "DRT", "Fun\U{E7}\U{E3}o", "Turno", "Turma", "F\U{E9}rias", "Telefone", "Admiss\U{E3}o"]

  /** A field between double quotes; nothing inside is escaped. */
  function Quote(s: string): string {
    ['"'] + s + ['"']
  }

  /** The eight exported cells of a record: the DRT bare, every other field
      quoted; the photo is not exported. */
  function CsvCells(e: Employee): seq<string> {
    [Quote(e.name), e.drt, Quote(e.role), Quote(e.shift), Quote(e.team),
     Quote(e.vacation), Quote(e.phone), Quote(e.hired)]
  }

  /** One line of the export. */
  function CsvRow(e: Employee): string {
    Join(CsvCells(e), ',')
  }

  /** One line per record, in record order. */
  function CsvRows(es: seq<Employee>): (r: seq<string>)
    ensures |r| == |es|
    ensures forall i :: 0 <= i < |es| ==> r[i] == CsvRow(es[i])
  {
    seq(|es|, i requires 0 <= i < |es| => CsvRow(es[i]))
  }

  /** The header line followed by the records' lines. */
  function CsvLines(es: seq<Employee>): seq<string> {
    [Join(CsvColumns, ',')] + CsvRows(es)
  }

  /** The exported text: the lines joined by '\n', with no final newline. */
  function CsvContent(es: seq<Employee>): string {
    Join(CsvLines(es), '\n')
  }

  // Reading the export back

  /** The part of a record the export carries. */
  datatype CsvRecord = CsvRecord(
    name: string, drt: string, role: string, shift: string,
    team: string, vacation: string, phone: string, hired: string)

  function Exported(e: Employee): CsvRecord {
    CsvRecord(e.name, e.drt, e.role, e.shift, e.team, e.vacation, e.phone, e.hired)
  }

  function ExportedAll(es: seq<Employee>): (r: seq<CsvRecord>)
    ensures |r| == |es|
    ensures forall i :: 0 <= i < |es| ==> r[i] == Exported(es[i])
  {
    seq(|es|, i requires 0 <= i < |es| => Exported(es[i]))
  }

  /** The inside of a quoted field. */
  function Unquote(s: string): (r: Option<string>)
    ensures r.Some? ==> Quote(r.value) == s
  {
    if |s| >= 2 && s[0] == '"' && s[|s| - 1] == '"' then Some(s[1..|s| - 1]) else None
  }

  /** One exported line read back: eight comma-separated cells, all but the
      DRT quoted. */
  function ParseRow(line: string): Option<CsvRecord> {
    var c := Split(line, ',');
    if |c| != 8 then None
    else
      var name, role, shift, team := Unquote(c[0]), Unquote(c[2]), Unquote(c[3]), Unquote(c[4]);
      var vacation, phone, hired := Unquote(c[5]), Unquote(c[6]), Unquote(c[7]);
      if name.None? || role.None? || shift.None? || team.None? ||
         vacation.None? || phone.None? || hired.None? then None
      else Some(CsvRecord(name.value, c[1], role.value, shift.value, team.value,
                          vacation.value, phone.value, hired.value))
  }

  function ParseRows(lines: seq<string>): (r: Option<seq<CsvRecord>>)
    ensures r.Some? ==> |r.value| == |lines|
  {
    if lines == [] then Some([])
    else
      var head, tail := ParseRow(lines[0]), ParseRows(lines[1..]);
      if head.None? || tail.None? then None else Some([head.value] + tail.value)
  }

  /** An exported text read back: the header line, then one record per line. */
  function ParseCsv(content: string): Option<seq<CsvRecord>> {
    var lines := Split(content, '\n');
    if lines[0] != Join(CsvColumns, ',') then None else ParseRows(lines[1..])
  }

  /** A field the unescaped export carries intact: no comma, no double quote,
      no line break. */
  predicate PlainField(s: string) {
    ',' !in s && '"' !in s && '\n' !in s
  }

  predicate Exportable(e: Employee) {
    PlainField(e.name) && PlainField(e.drt) && PlainField(e.role) && PlainField(e.shift) &&
    PlainField(e.team) && PlainField(e.vacation) && PlainField(e.phone) && PlainField(e.hired)
  }

  /** Unquoting undoes quoting, whatever the field holds. */
  lemma UnquoteQuote(s: string)
    ensures Unquote(Quote(s)) == Some(s)
  {
    var q := Quote(s);
    assert q[1..|q| - 1] == s;
  }

  /** A quoted plain field holds no comma and no line break. */
  lemma QuotePlain(s: string)
    requires PlainField(s)
    ensures ',' !in Quote(s) && '\n' !in Quote(s)
  {
  }

  /** No cell of an exportable record holds a comma or a line break. */
  lemma CellsPlain(e: Employee)
    requires Exportable(e)
    ensures forall i :: 0 <= i < |CsvCells(e)| ==> ',' !in CsvCells(e)[i] && '\n' !in CsvCells(e)[i]
  {
    QuotePlain(e.name);
    QuotePlain(e.role);
    QuotePlain(e.shift);
    QuotePlain(e.team);
    QuotePlain(e.vacation);
    QuotePlain(e.phone);
    QuotePlain(e.hired);
  }

  /** The quoted cells of a record unquote to its fields. */
  lemma CellsUnquote(e: Employee)
    ensures var c := CsvCells(e);
            |c| == 8 && c[1] == e.drt &&
            Unquote(c[0]) == Some(e.name) && Unquote(c[2]) == Some(e.role) &&
            Unquote(c[3]) == Some(e.shift) && Unquote(c[4]) == Some(e.team) &&
            Unquote(c[5]) == Some(e.vacation) && Unquote(c[6]) == Some(e.phone) &&
            Unquote(c[7]) == Some(e.hired)
  {
    UnquoteQuote(e.name);
    UnquoteQuote(e.role);
    UnquoteQuote(e.shift);
    UnquoteQuote(e.team);
    UnquoteQuote(e.vacation);
    UnquoteQuote(e.phone);
    UnquoteQuote(e.hired);
  }

  /** An exportable record's line holds no line break and reads back as the
      record's exported fields. */
  lemma RowRoundTrip(e: Employee)
    requires Exportable(e)
    ensures '\n' !in CsvRow(e)
    ensures ParseRow(CsvRow(e)) == Some(Exported(e))
  {
    var cells := CsvCells(e);
    CellsPlain(e);
    JoinAvoids(cells, ',', '\n');
    SplitJoin(cells, ',');
    assert Split(CsvRow(e), ',') == cells;
    CellsUnquote(e);
  }

  /** Lines that each read back as a record read back as those records. */
  lemma {:induction false} ParseRowsAll(lines: seq<string>, records: seq<CsvRecord>)
    requires |lines| == |records|
    requires forall i :: 0 <= i < |lines| ==> ParseRow(lines[i]) == Some(records[i])
    ensures ParseRows(lines) == Some(records)
    decreases |lines|
  {
    if lines != [] {
      ParseRowsAll(lines[1..], records[1..]);
      assert records == [records[0]] + records[1..];
    }
  }

  lemma RowsRoundTrip(es: seq<Employee>)
    requires forall e :: e in es ==> Exportable(e)
    ensures ParseRows(CsvRows(es)) == Some(ExportedAll(es))
  {
    forall i | 0 <= i < |es|
      ensures ParseRow(CsvRows(es)[i]) == Some(ExportedAll(es)[i])
    {
      RowRoundTrip(es[i]);
    }
    ParseRowsAll(CsvRows(es), ExportedAll(es));
  }

  lemma HeaderPlain()
    ensures '\n' !in Join(CsvColumns, ',')
  {
    JoinAvoids(CsvColumns, ',', '\n');
  }

  /** The export is the header followed by one line per record, and, when
      no exported field holds a comma, a double quote or a line break, it
      reads back as exactly the records' exported fields, in order. */
  lemma CsvRoundTrip(es: seq<Employee>)
    requires forall e :: e in es ==> Exportable(e)
    ensures Split(CsvContent(es), '\n') == CsvLines(es)
    ensures ParseCsv(CsvContent(es)) == Some(ExportedAll(es))
  {
    var lines := CsvLines(es);
    HeaderPlain();
    forall i | 0 <= i < |lines|
      ensures '\n' !in lines[i]
    {
      if i > 0 {
        RowRoundTrip(es[i - 1]);
      }
    }
    SplitJoin(lines, '\n');
    RowsRoundTrip(es);
    assert lines[1..] == CsvRows(es);
  }

  // ---------------------------------------------------------------------
  // WhatsApp
  // ---------------------------------------------------------------------

  /** The WhatsApp link with Brazil's country code. */
  const WhatsAppPrefix: string := "https://wa.me/55"

  /** The link `abrirWhatsApp` opens: every non-digit of the phone dropped. */
  function WhatsAppUrl(phone: string): string {
    WhatsAppPrefix + Digits(phone)
  }

  /** The link is the prefix followed by exactly the phone's decimal digits:
      only digits follow the prefix, reading the number back off the link
      gives the digits, a phone written with digits only is copied as is, and
      a link built from the digits alone is the same link. */
  lemma WhatsAppNumber(phone: string)
    ensures var url := WhatsAppUrl(phone);
            |url| >= |WhatsAppPrefix| && url[..|WhatsAppPrefix|] == WhatsAppPrefix &&
            forall i :: |WhatsAppPrefix| <= i < |url| ==> IsDecimalDigit(url[i])
    ensures WhatsAppUrl(phone)[|WhatsAppPrefix|..] == Digits(phone)
    ensures (forall i :: 0 <= i < |phone| ==> IsDecimalDigit(phone[i])) ==>
              WhatsAppUrl(phone) == WhatsAppPrefix + phone
    ensures WhatsAppUrl(Digits(phone)) == WhatsAppUrl(phone)
  {
    var digits := Digits(phone);
    DigitsProperties(phone, []);
    DigitsProperties(digits, []);
    var url := WhatsAppUrl(phone);
    assert url[|WhatsAppPrefix|..] == digits;
    forall i | |WhatsAppPrefix| <= i < |url|
      ensures IsDecimalDigit(url[i])
    {
      assert url[i] == digits[i - |WhatsAppPrefix|];
    }
  }

  /** Punctuation anywhere does not matter: the link of a phone written in two
      parts is the link of the first part followed by the digits of the second. */
  lemma WhatsAppConcat(a: string, b: string)
    ensures WhatsAppUrl(a + b) == WhatsAppUrl(a) + Digits(b)
  {
    DigitsProperties(a, b);
  }
}
