/**
 * The dashboard's session: the snapshot of the store it displays, whether
 * the administrator is logged in, which record the edit dialog holds, the
 * filters, and (in the classic copy) the stored counters. The store itself is
 * outside the model: the session only asks it for writes, recorded in
 * `writes`, and learns the outcome of an awaited write as a parameter.
 */
module Session {
  import opened Wrappers
  import opened Calendar
  import opened Config
  import opened Statistics
  import opened Filters
  import opened Form
  import opened Export

  /** A write the session asks the store to perform. */
  datatype StoreWrite =
    | Create(record: Employee)
    | Update(id: string, record: Employee)
    | Remove(id: string)

  /** What the session tells the user. */
  datatype Notice =
    | PasswordMissing
    | WrongPassword
    | AccessGranted
    | LeftAdmin
    | AccessDenied
    | NotFound
    | Invalid(error: FormError)
    | Added
    | Updated
    | SaveFailed
    | Deleted
    | DeleteFailed
    | Exported
    | FiltersReset

  /** The record stored under `id` in a snapshot. */
  function Lookup(entries: seq<Entry>, id: string): (r: Option<Employee>)
    ensures r.Some? ==> Entry(id, r.value) in entries
    ensures r.None? ==> forall x :: x in entries ==> x.id != id
  {
    if entries == [] then None
    else if entries[0].id == id then Some(entries[0].employee)
    else Lookup(entries[1..], id)
  }

  /** The write a validated form turns into: an update of the record being
      edited, or a new record. */
  function SaveWrite(editing: Option<string>, record: Employee): (w: StoreWrite)
    ensures w.Update? <==> IsEditing(editing)
    ensures w.Update? ==> w == Update(editing.value, record)
    ensures w.Create? ==> w == Create(record)
  {
    if IsEditing(editing) then Update(editing.value, record) else Create(record)
  }

  /** The success message that matches the write: "updated" for an update,
      "added" for a new record. */
  function SaveNotice(editing: Option<string>): (n: Notice)
    ensures n == Updated || n == Added
  {
    if IsEditing(editing) then Updated else Added
  }

  /** The message matches the write for every edit state. */
  lemma SaveNoticeMatchesWrite(editing: Option<string>, record: Employee)
    ensures SaveNotice(editing) == Updated <==> SaveWrite(editing, record).Update?
    ensures SaveNotice(editing) == Added <==> SaveWrite(editing, record).Create?
  {
  }

  /** The classic copy's save: the write is chosen from the edit state, the
      dialog is closed, which clears the edit state, and only then is the
      message chosen, from the cleared state. */
  function ClassicSaveOutcome(editing: Option<string>, record: Employee): (StoreWrite, Option<string>, Notice) {
    var write := SaveWrite(editing, record);
    var afterClose: Option<string> := None;
    (write, afterClose, SaveNotice(afterClose))
  }

  /** The classic copy reports a new record after every update: the write
      is the update of the edited record, the dialog ends up cleared, and the
      message is the one for a new record. */
  lemma ClassicUpdateReportsAdded(editing: Option<string>, record: Employee)
    requires IsEditing(editing)
    ensures var outcome := ClassicSaveOutcome(editing, record);
            outcome.0 == Update(editing.value, record) && outcome.1 == None && outcome.2 == Added
    ensures ClassicSaveOutcome(editing, record).2 != SaveNotice(editing)
  {
  }

  /** The dashboard of one edition. */
  class Dashboard {
    const edition: Edition
    /** The snapshot last received from the store, in key order. */
    var records: seq<Entry>
    var isAdmin: bool
    /** The id of the record in the edit dialog; `None` for a new record. */
    var editing: Option<string>
    var filters: FilterValues
    /** The counters stored by the classic copy. */
    var stats: Stats
    /** The writes asked of the store, oldest first. */
    var writes: seq<StoreWrite>
    /** The messages shown, oldest first. */
    var notices: seq<Notice>

    constructor(edition: Edition)
      ensures this.edition == edition
      ensures records == [] && !isAdmin && editing == None && filters == DefaultFilters
      ensures stats == Stats(0, 0, 0, 0, 0, 0, 0) && writes == [] && notices == []
    {
      this.edition := edition;
      records := [];
      isAdmin := false;
      editing := None;
      filters := DefaultFilters;
      stats := Stats(0, 0, 0, 0, 0, 0, 0);
      writes := [];
      notices := [];
    }

    /** A new snapshot from the store. The classic copy recomputes and
        stores its counters; the other computes them when it draws them. */
    method ReceiveSnapshot(entries: seq<Entry>, now: Clock)
      modifies this
      ensures records == entries
      ensures stats == (if edition == Classic then Calculate(Employees(entries), now) else old(stats))
      ensures isAdmin == old(isAdmin) && editing == old(editing) && filters == old(filters)
      ensures writes == old(writes) && notices == old(notices)
    {
      records := entries;
      if edition == Classic {
        RecomputeStatistics(now);
      }
    }

    /** `calcularEstatisticas` of the classic copy: the counters of the
        current snapshot, stored in the session. */
    method RecomputeStatistics(now: Clock)
      modifies this`stats
      ensures stats == Calculate(Employees(records), now)
      ensures stats.total == |records|
    {
      stats := Calculate(Employees(records), now);
    }

    /** `verificarSenhaAdmin`: an empty input only asks for the password; the
        exact password logs in; anything else is refused. */
    method CheckPassword(input: string)
      modifies this
      ensures isAdmin == (old(isAdmin) || input == AdminPassword)
      ensures input == "" ==> notices == old(notices) + [PasswordMissing]
      ensures input == AdminPassword ==> notices == old(notices) + [AccessGranted]
      ensures input != "" && input != AdminPassword ==> notices == old(notices) + [WrongPassword]
      ensures records == old(records) && editing == old(editing) && filters == old(filters)
      ensures stats == old(stats) && writes == old(writes)
    {
      if input == "" {
        notices := notices + [PasswordMissing];
      } else if input == AdminPassword {
        isAdmin := true;
        notices := notices + [AccessGranted];
      } else {
        notices := notices + [WrongPassword];
      }
    }

    /** `sairModoAdmin`. */
    method LeaveAdmin()
      modifies this
      ensures !isAdmin && notices == old(notices) + [LeftAdmin]
      ensures records == old(records) && editing == old(editing) && filters == old(filters)
      ensures stats == old(stats) && writes == old(writes)
    {
      isAdmin := false;
      notices := notices + [LeftAdmin];
    }

    /** `abrirModalNovoFuncionario`: for the administrator, an empty dialog
        for a new record. */
    method OpenNew()
      modifies this
      ensures isAdmin == old(isAdmin) && records == old(records) && writes == old(writes)
      ensures filters == old(filters) && stats == old(stats)
      ensures old(isAdmin) ==> editing == None && notices == old(notices)
      ensures !old(isAdmin) ==> editing == old(editing) && notices == old(notices) + [AccessDenied]
    {
      if !isAdmin {
        notices := notices + [AccessDenied];
        return;
      }
      editing := None;
    }

    /** `editarFuncionario`: for the administrator and a stored id, the dialog
        holds that record, filled in with its fields. */
    method Edit(id: string) returns (form: Option<FormInput>)
      modifies this
      ensures isAdmin == old(isAdmin) && records == old(records) && writes == old(writes)
      ensures filters == old(filters) && stats == old(stats)
      ensures !old(isAdmin) ==> form.None? && editing == old(editing) && notices == old(notices) + [AccessDenied]
      ensures old(isAdmin) && Lookup(records, id).None? ==>
                form.None? && editing == old(editing) && notices == old(notices) + [NotFound]
      ensures old(isAdmin) && Lookup(records, id).Some? ==>
                form == Some(FormOf(Lookup(records, id).value)) && editing == Some(id) &&
                notices == old(notices)
    {
      if !isAdmin {
        notices := notices + [AccessDenied];
        return None;
      }
      var found := Lookup(records, id);
      if found.None? {
        notices := notices + [NotFound];
        return None;
      }
      editing := Some(id);
      form := Some(FormOf(found.value));
    }

    /** `fecharModalFuncionario`. */
    method CloseEditor()
      modifies this`editing
      ensures editing == None
    {
      editing := None;
    }

    /** `salvarFuncionario`: for the administrator, the form is validated
        against the snapshot; a valid form becomes a write. The classic copy
        does not wait for the write: it closes the dialog and reports at once.
        The other waits: on success it reports the write and closes the
        dialog, on failure it reports the failure and keeps the dialog. */
    method Save(form: FormInput, writeSucceeds: bool)
      modifies this
      ensures isAdmin == old(isAdmin) && records == old(records)
      ensures filters == old(filters) && stats == old(stats)
      ensures !old(isAdmin) ==>
                writes == old(writes) && editing == old(editing) && notices == old(notices) + [AccessDenied]
      ensures var r := Validate(form, Employees(old(records)), old(editing), edition);
              old(isAdmin) && r.Failure? ==>
                writes == old(writes) && editing == old(editing) && notices == old(notices) + [Invalid(r.error)]
      ensures var r := Validate(form, Employees(old(records)), old(editing), edition);
              old(isAdmin) && r.Success? ==>
                writes == old(writes) + [SaveWrite(old(editing), r.value)]
      ensures var r := Validate(form, Employees(old(records)), old(editing), edition);
              old(isAdmin) && r.Success? && edition == Classic ==>
                editing == None && notices == old(notices) + [ClassicSaveOutcome(old(editing), r.value).2]
      ensures var r := Validate(form, Employees(old(records)), old(editing), edition);
              old(isAdmin) && r.Success? && edition == Professional ==>
                (writeSucceeds ==> editing == None && notices == old(notices) + [SaveNotice(old(editing))]) &&
                (!writeSucceeds ==> editing == old(editing) && notices == old(notices) + [SaveFailed])
    {
      if !isAdmin {
        notices := notices + [AccessDenied];
        return;
      }
      var r := Validate(form, Employees(records), editing, edition);
      if r.Failure? {
        notices := notices + [Invalid(r.error)];
        return;
      }
      Commit(r.value, writeSucceeds);
    }

    /** The second half of a save, once the form is valid: ask for the write,
        then report and close as the edition does. */
    method Commit(record: Employee, writeSucceeds: bool)
      modifies this
      ensures isAdmin == old(isAdmin) && records == old(records)
      ensures filters == old(filters) && stats == old(stats)
      ensures writes == old(writes) + [SaveWrite(old(editing), record)]
      ensures edition == Classic ==>
                editing == None && notices == old(notices) + [ClassicSaveOutcome(old(editing), record).2]
      ensures edition == Professional ==>
                (writeSucceeds ==> editing == None && notices == old(notices) + [SaveNotice(old(editing))]) &&
                (!writeSucceeds ==> editing == old(editing) && notices == old(notices) + [SaveFailed])
    {
      writes := writes + [SaveWrite(editing, record)];
      match edition {
        case Classic =>
          CloseEditor();
          notices := notices + [SaveNotice(editing)];
        case Professional =>
          if writeSucceeds {
            notices := notices + [SaveNotice(editing)];
            CloseEditor();
          } else {
            notices := notices + [SaveFailed];
          }
      }
    }

    /** `excluirFuncionario`: only the administrator, and only with a record
        in the dialog; after confirmation the removal is awaited in both
        copies. */
    method Delete(confirmed: bool, writeSucceeds: bool)
      modifies this
      ensures isAdmin == old(isAdmin) && records == old(records)
      ensures filters == old(filters) && stats == old(stats)
      ensures !old(isAdmin) || !IsEditing(old(editing)) ==>
                writes == old(writes) && editing == old(editing) && notices == old(notices) + [AccessDenied]
      ensures old(isAdmin) && IsEditing(old(editing)) && !confirmed ==>
                writes == old(writes) && editing == old(editing) && notices == old(notices)
      ensures old(isAdmin) && IsEditing(old(editing)) && confirmed ==>
                writes == old(writes) + [Remove(old(editing).value)] &&
                (writeSucceeds ==> editing == None && notices == old(notices) + [Deleted]) &&
                (!writeSucceeds ==> editing == old(editing) && notices == old(notices) + [DeleteFailed])
    {
      if !isAdmin || !IsEditing(editing) {
        notices := notices + [AccessDenied];
        return;
      }
      if !confirmed {
        return;
      }
      writes := writes + [Remove(editing.value)];
      if writeSucceeds {
        CloseEditor();
        notices := notices + [Deleted];
      } else {
        notices := notices + [DeleteFailed];
      }
    }

    /** `exportarDados`: for the administrator, the CSV text of the
        snapshot's records, handed to the download, then a success message. */
    method ExportCsv() returns (csv: Option<string>)
      modifies this`notices
      ensures old(isAdmin) ==> csv == Some(CsvContent(Employees(records))) && notices == old(notices) + [Exported]
      ensures !old(isAdmin) ==> csv.None? && notices == old(notices) + [AccessDenied]
    {
      if !isAdmin {
        notices := notices + [AccessDenied];
        return None;
      }
      csv := Some(CsvContent(Employees(records)));
      notices := notices + [Exported];
    }

    /** `aplicarFiltros`: store the controls' values and decide, card by
        card, which cards are shown. */
    method ApplyFilters(searchInput: string, shift: string, role: string, team: string, vacation: string,
                        cards: seq<Card>, now: Clock) returns (shown: seq<bool>)
      modifies this`filters
      ensures filters == ReadFilters(searchInput, shift, role, team, vacation)
      ensures |shown| == |cards|
      ensures forall i :: 0 <= i < |cards| ==> shown[i] == CardVisible(filters, cards[i], now)
    {
      filters := ReadFilters(searchInput, shift, role, team, vacation);
      shown := Visibility(cards, filters, now);
    }

    /** `resetarFiltros`: the controls are set back to their defaults and
        applied, which shows every card, then the reset is reported. */
    method ResetFilters(cards: seq<Card>, now: Clock) returns (shown: seq<bool>)
      modifies this`filters, this`notices
      ensures filters == DefaultFilters
      ensures shown == seq(|cards|, i => true)
      ensures notices == old(notices) + [FiltersReset]
    {
      shown := ApplyFilters("", All, All, All, All, cards, now);
      notices := notices + [FiltersReset];
      forall i | 0 <= i < |cards|
        ensures shown[i]
      {
        VisibleCardMatches(filters, cards[i], now);
      }
    }
  }
}
