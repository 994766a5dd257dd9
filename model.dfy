/** The records of `src/app/models/employee.model.ts` and the by-id lookups
    (`Array.prototype.find` / `findIndex`) the store, the service and the
    selectors share. */
module Model {
  import opened Wrappers

  /** An employee record. `joinDate` is kept as its ISO date text (`YYYY-MM-DD`). */
  datatype Employee = Employee(
    id: string,
    name: string,
    email: string,
    department: string,
    mobile: string,
    isActive: bool,
    joinDate: string,
    position: string)

  /** `'admin' | 'user'`. */
  datatype Role = AdminRole | UserRole

  /** A login account of the credential store. */
  datatype User = User(id: string, email: string, username: string, role: Role, password: string)

  /** `list.findIndex(emp => emp.id === id)`: the first index holding `id`, or -1. */
  function FindIndexById(list: seq<Employee>, id: string): (r: int)
    ensures -1 <= r < |list|
    ensures r >= 0 ==> list[r].id == id && forall j :: 0 <= j < r ==> list[j].id != id
    ensures r == -1 <==> forall j :: 0 <= j < |list| ==> list[j].id != id
  {
    if list == [] then -1
    else if list[0].id == id then 0
    else
      var k := FindIndexById(list[1..], id);
      if k == -1 then -1 else k + 1
  }

  /** `list.find(emp => emp.id === id)`: the first record holding `id`, if any. */
  function FindById(list: seq<Employee>, id: string): (r: Option<Employee>)
    ensures r.None? <==> forall j :: 0 <= j < |list| ==> list[j].id != id
    ensures r.Some? ==> exists i :: 0 <= i < |list| && list[i] == r.value && r.value.id == id
                          && forall j :: 0 <= j < i ==> list[j].id != id
  {
    var i := FindIndexById(list, id);
    if i == -1 then None else Some(list[i])
  }

  /** No two records share an id. */
  predicate UniqueIds(list: seq<Employee>)
  {
    forall i, j :: 0 <= i < j < |list| ==> list[i].id != list[j].id
  }

  /** Some record holds `id`. */
  predicate HasId(list: seq<Employee>, id: string)
  {
    exists i :: 0 <= i < |list| && list[i].id == id
  }

  /** The filter callback `emp => emp.id !== id`. */
  function KeepOthers(id: string): Employee -> bool
  {
    (e: Employee) => e.id != id
  }

  /** Under unique ids, the only record holding the id of the record at `i` is that one. */
  lemma UniqueAt(list: seq<Employee>, i: nat)
    requires UniqueIds(list) && i < |list|
    ensures FindIndexById(list, list[i].id) == i
    ensures forall j :: 0 <= j < |list| && j != i ==> list[j].id != list[i].id
  {
  }
}
