/**
 * The fixed vocabulary of the dashboard and the shape of an employee record.
 * The two copies of the dashboard differ in a few constants; `Edition`
 * selects between them.
 */
module Config {

  /** `Classic` is the copy in script.js, `Professional` the one in Script.js. */
  datatype Edition = Classic | Professional

  /** The administrator password of both copies. */
  const AdminPassword: string := "admin123"

  /** The sentinel a record holds when a date was left blank. */
  const NotInformed: string := "N\U{E3}o informado"

  /** The month-name table: upper-case Portuguese name to month number. */
  const Months: map<string, int> := map[
    "JANEIRO" := 1, "FEVEREIRO" := 2, "MAR\U{C7}O" := 3, "ABRIL" := 4,
    "MAIO" := 5, "JUNHO" := 6, "JULHO" := 7, "AGOSTO" := 8,
    "SETEMBRO" := 9, "OUTUBRO" := 10, "NOVEMBRO" := 11, "DEZEMBRO" := 12]

  /** The same table read the other way: the name of month m is MonthNames[m - 1]. */
  const MonthNames: seq<string> := [
    "JANEIRO", "FEVEREIRO", "MAR\U{C7}O", "ABRIL", "MAIO", "JUNHO",
    "JULHO", "AGOSTO", "SETEMBRO", "OUTUBRO", "NOVEMBRO", "DEZEMBRO"]

  /** The three shifts, in display order. */
  const Morning: string := "Manh\U{E3}"
  const Afternoon: string := "Tarde"
  const Night: string := "Noite"
  const Shifts: seq<string> := [Morning, Afternoon, Night]

  /** The photo a record gets when the form leaves it blank. */
  function PhotoPlaceholder(edition: Edition): string {
    "https://" + "via.placeholder.com/" +
    (match edition
     case Classic => "300x120/2d3748/4a5568"
     case Professional => "400x200/6b7280/9ca3af") +
    "?text=Sem+Foto"
  }

  /** How many records the "upcoming vacations" section shows at most. */
  function UpcomingLimit(edition: Edition): nat {
    match edition
    case Classic => 10
    case Professional => 6
  }

  /** An employee record as the store holds it (timestamps left out). */
  datatype Employee = Employee(
    name: string,
    drt: string,
    role: string,
    shift: string,
    team: string,
    vacation: string,
    phone: string,
    hired: string,
    photo: string)

  /** One key/value pair of the store's snapshot, in the snapshot's key order. */
  datatype Entry = Entry(id: string, employee: Employee)

  /** The records of a snapshot, in key order (`Object.values`). */
  function Employees(entries: seq<Entry>): (r: seq<Employee>)
    ensures |r| == |entries|
    ensures forall i :: 0 <= i < |entries| ==> r[i] == entries[i].employee
  {
    seq(|entries|, i requires 0 <= i < |entries| => entries[i].employee)
  }

  /** The names table and the number table describe the same twelve months. */
  lemma MonthTablesAgree()
    ensures |MonthNames| == 12
    ensures forall i :: 0 <= i < 12 ==> MonthNames[i] in Months && Months[MonthNames[i]] == i + 1
    ensures forall k :: k in Months ==> 1 <= Months[k] <= 12 && MonthNames[Months[k] - 1] == k
  {
  }
}
