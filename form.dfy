/**
 * `obterDadosFormulario`: reading the employee form into a record. Six
 * fields are required and checked in a fixed order, a new record may not
 * reuse a DRT, and blank optional fields get defaults.
 */
module Form {
  import opened Wrappers
  import opened Text
  import opened Config

  /** The nine form inputs as typed. */
  datatype FormInput = FormInput(
    name: string,
    drt: string,
    role: string,
    shift: string,
    team: string,
    vacation: string,
    phone: string,
    hired: string,
    photo: string)

  /** Why the form was refused. */
  datatype FormError =
    | NameRequired
    | DrtRequired
    | RoleRequired
    | ShiftRequired
    | TeamRequired
    | PhoneRequired
    | DuplicateDrt

  /** Whether a record is being edited: the id held is truthy, i.e. present
      and not the empty string. */
  predicate IsEditing(editing: Option<string>) {
    editing.Some? && editing.value != ""
  }

  /** Whether some stored record already has this DRT. */
  predicate DrtTaken(records: seq<Employee>, drt: string) {
    exists e :: e in records && e.drt == drt
  }

  /** `value || fallback` on strings. */
  function OrDefault(value: string, fallback: string): (r: string)
    ensures r != "" || fallback == ""
    ensures value != "" ==> r == value
  {
    if value == "" then fallback else value
  }

  /** The form read and checked: name, DRT, phone and photo are trimmed;
      the first empty required field refuses the form; when no record is
      being edited a DRT already stored refuses it; blank vacation and
      hiring dates become the "not informed" sentinel and a blank photo the
      edition's placeholder. */
  function Validate(form: FormInput, records: seq<Employee>, editing: Option<string>, edition: Edition): (r: Result<Employee, FormError>)
    ensures r.Success? ==> WellFormed(r.value)
    ensures r.Success? && !IsEditing(editing) ==> !DrtTaken(records, r.value.drt)
    ensures r == Failure(DuplicateDrt) ==> !IsEditing(editing) && DrtTaken(records, Trim(form.drt))
    ensures r.Success? ==>
              && r.value.name == Trim(form.name) && r.value.drt == Trim(form.drt)
              && r.value.role == form.role && r.value.shift == form.shift && r.value.team == form.team
              && r.value.phone == Trim(form.phone)
              && r.value.vacation == (if form.vacation == "" then NotInformed else form.vacation)
              && r.value.hired == (if form.hired == "" then NotInformed else form.hired)
              && r.value.photo == (if Trim(form.photo) == "" then PhotoPlaceholder(edition) else Trim(form.photo))
  {
    if Trim(form.name) == "" then Failure(NameRequired)
    else if Trim(form.drt) == "" then Failure(DrtRequired)
    else if form.role == "" then Failure(RoleRequired)
    else if form.shift == "" then Failure(ShiftRequired)
    else if form.team == "" then Failure(TeamRequired)
    else if Trim(form.phone) == "" then Failure(PhoneRequired)
    else if !IsEditing(editing) && DrtTaken(records, Trim(form.drt)) then Failure(DuplicateDrt)
    else
      NormalizedWellFormed(form, edition);
      Success(Normalized(form, edition))
  }

  /** The record a form becomes once it passes the checks. */
  function Normalized(form: FormInput, edition: Edition): Employee {
    Employee(
      Trim(form.name), Trim(form.drt), form.role, form.shift, form.team,
      OrDefault(form.vacation, NotInformed),
      Trim(form.phone),
      OrDefault(form.hired, NotInformed),
      OrDefault(Trim(form.photo), PhotoPlaceholder(edition)))
  }

  lemma NormalizedWellFormed(form: FormInput, edition: Edition)
    requires Trim(form.name) != "" && Trim(form.drt) != "" && Trim(form.phone) != ""
    requires form.role != "" && form.shift != "" && form.team != ""
    ensures WellFormed(Normalized(form, edition))
  {
    var e := Normalized(form, edition);
    TrimmedField(form.name);
    TrimmedField(form.drt);
    TrimmedField(form.phone);
    TrimmedField(form.photo);
    PhotoTrimmed(Trim(form.photo), edition);
    assert e.vacation != "" && e.hired != "";
  }

  /** No whitespace at either end. */
  predicate IsTrimmed(s: string) {
    s == [] || (!IsJsSpace(s[0]) && !IsJsSpace(s[|s| - 1]))
  }

  /** A trimmed input has no whitespace at either end. */
  lemma TrimmedField(s: string)
    ensures IsTrimmed(Trim(s))
  {
    TrimIdempotent(s);
  }

  /** The shape of a record the form produces: the trimmed fields have no
      outer whitespace and no field is empty. */
  predicate WellFormed(e: Employee) {
    && e.name != "" && IsTrimmed(e.name)
    && e.drt != "" && IsTrimmed(e.drt)
    && e.role != "" && e.shift != "" && e.team != ""
    && e.vacation != ""
    && e.phone != "" && IsTrimmed(e.phone)
    && e.hired != ""
    && e.photo != "" && IsTrimmed(e.photo)
  }

  /** The stored photo, the trimmed input or the placeholder, is never empty
      and has no outer whitespace. */
  lemma PhotoTrimmed(photo: string, edition: Edition)
    requires IsTrimmed(photo)
    ensures var stored := OrDefault(photo, PhotoPlaceholder(edition));
            stored != "" && IsTrimmed(stored)
  {
    var p := PhotoPlaceholder(edition);
    assert p[0] == 'h' && p[|p| - 1] == 'o';
  }

  /** The required-field errors of a form, in the order they are checked;
      the form is refused with the first of them. */
  function Missing(form: FormInput): seq<FormError> {
    (if Trim(form.name) == "" then [NameRequired] else []) +
    ((if Trim(form.drt) == "" then [DrtRequired] else []) +
     ((if form.role == "" then [RoleRequired] else []) +
      ((if form.shift == "" then [ShiftRequired] else []) +
       ((if form.team == "" then [TeamRequired] else []) +
        (if Trim(form.phone) == "" then [PhoneRequired] else [])))))
  }

  /** The order of the checks: a form with a missing required field is
      refused for the first one, whatever the stored records; otherwise it is
      refused for a duplicate DRT exactly when creating a record whose
      trimmed DRT is already stored, and accepted in every other case. */
  lemma ValidationOrder(form: FormInput, records: seq<Employee>, editing: Option<string>, edition: Edition)
    ensures Missing(form) != [] ==> Validate(form, records, editing, edition) == Failure(Missing(form)[0])
    ensures Missing(form) == [] ==>
              (Validate(form, records, editing, edition) == Failure(DuplicateDrt) <==>
                 !IsEditing(editing) && DrtTaken(records, Trim(form.drt)))
    ensures Missing(form) == [] ==>
              (Validate(form, records, editing, edition).Success? <==>
                 IsEditing(editing) || !DrtTaken(records, Trim(form.drt)))
  {
    var m := Missing(form);
    if Trim(form.name) == "" {
      assert m[0] == NameRequired;
    } else if Trim(form.drt) == "" {
      assert m[0] == DrtRequired;
    } else if form.role == "" {
      assert m[0] == RoleRequired;
    } else if form.shift == "" {
      assert m[0] == ShiftRequired;
    } else if form.team == "" {
      assert m[0] == TeamRequired;
    } else if Trim(form.phone) == "" {
      assert m == [PhoneRequired];
    } else {
      assert m == [];
    }
  }

  /** The fields of the record, as the edit dialog fills the form with them. */
  function FormOf(e: Employee): FormInput {
    FormInput(e.name, e.drt, e.role, e.shift, e.team, e.vacation, e.phone, e.hired, e.photo)
  }

  /** Opening a record the form produced and saving it unchanged gives the
      same record back: the form's normalisation is a fixed point on its own
      output. */
  lemma EditRoundTrip(e: Employee, records: seq<Employee>, id: string, edition: Edition)
    requires WellFormed(e) && id != ""
    ensures Validate(FormOf(e), records, Some(id), edition) == Success(e)
  {
    TrimOfTrimmed(e.name);
    TrimOfTrimmed(e.drt);
    TrimOfTrimmed(e.phone);
    TrimOfTrimmed(e.photo);
  }

  /** No two records share a DRT. */
  predicate UniqueDrts(records: seq<Employee>) {
    forall i, j :: 0 <= i < j < |records| ==> records[i].drt != records[j].drt
  }

  /** Creating a record keeps the DRTs unique. Editing skips the duplicate
      check, so an edit may change a record's DRT to another record's. */
  lemma CreateKeepsDrtsUnique(form: FormInput, records: seq<Employee>, editing: Option<string>, edition: Edition)
    requires UniqueDrts(records) && !IsEditing(editing)
    requires Validate(form, records, editing, edition).Success?
    ensures UniqueDrts(records + [Validate(form, records, editing, edition).value])
  {
    var e := Validate(form, records, editing, edition).value;
    var all := records + [e];
    forall i, j | 0 <= i < j < |all|
      ensures all[i].drt != all[j].drt
    {
      if j == |records| {
        assert all[i] in records;
      } else {
        assert all[i] == records[i] && all[j] == records[j];
      }
    }
  }

  /** An edit may reuse a DRT held by another record. */
  lemma EditMayDuplicateDrt(other: Employee, e: Employee, id: string, edition: Edition)
    requires WellFormed(e) && id != "" && other.drt == e.drt
    ensures Validate(FormOf(e), [other], Some(id), edition) == Success(e)
    ensures !UniqueDrts([other, e])
  {
    EditRoundTrip(e, [other], id, edition);
    assert [other, e][0].drt == [other, e][1].drt;
  }
}
