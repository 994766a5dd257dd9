/** `src/app/services/employee.service.ts`: the in-memory entity store. The
    pure functions state what each operation does to the backing array; the
    `EmployeeService` class holds the array and changes it in place. */
module EmployeeStore {
  import opened Wrappers
  import opened Model

  const NotFound := "Employee not found"

  /** The seven records the service starts with. */
  const Seed: seq<Employee> := [
    Employee("1", "John Doe", "john.doe@company.com", "Engineering", "9876543210", true, "2022-01-15", "Senior Developer"),
    Employee("2", "Jane Smith", "jane.smith@company.com", "Marketing", "9876543211", true, "2021-06-10", "Marketing Manager"),
    Employee("3", "Mike Johnson", "mike.johnson@company.com", "HR", "9876543212", false, "2020-03-20", "HR Specialist"),
    Employee("4", "Sarah Wilson", "sarah.wilson@company.com", "Engineering", "9876543213", true, "2023-02-01", "Frontend Developer"),
    Employee("5", "David Brown", "david.brown@company.com", "Sales", "9876543214", true, "2022-08-15", "Sales Executive"),
    Employee("admin-emp", "Admin User", "admin@company.com", "Management", "9876543215", true, "2020-01-01", "System Administrator"),
    Employee("user-emp", "Demo User", "user@company.com", "Operations", "9876543216", true, "2023-01-01", "Operations Specialist")
  ]

  /** The seed holds seven records with distinct ids. */
  lemma SeedIdsDistinct()
    ensures |Seed| == 7 && UniqueIds(Seed)
    ensures forall e :: e in Seed ==> e.id in ["1", "2", "3", "4", "5", "admin-emp", "user-emp"]
  {
  }

  /** The record `addEmployee` stores: the caller's record under the generated id. */
  function Stored(e: Employee, newId: string): (r: Employee)
    ensures r.id == newId
    ensures r.(id := e.id) == e
  {
    e.(id := newId)
  }

  /** The array after `addEmployee`: the stored record pushed at the end. */
  function AddRecord(list: seq<Employee>, e: Employee, newId: string): (r: seq<Employee>)
    ensures |r| == |list| + 1 && r[..|list|] == list && r[|list|] == Stored(e, newId)
  {
    list + [Stored(e, newId)]
  }

  /** The array after `updateEmployee`: the first record with the same id replaced, or
      "Employee not found" when no record has that id. */
  function UpdateRecord(list: seq<Employee>, e: Employee): (r: Result<seq<Employee>>)
    ensures r.Err? <==> !HasId(list, e.id)
    ensures r.Err? ==> r.message == NotFound
    ensures r.Ok? ==> |r.value| == |list|
  {
    var i := FindIndexById(list, e.id);
    if i == -1 then Err(NotFound) else Ok(list[i := e])
  }

  /** A successful update replaces exactly the first record with that id. */
  lemma UpdateReplacesFirst(list: seq<Employee>, e: Employee)
    requires UpdateRecord(list, e).Ok?
    ensures var r := UpdateRecord(list, e).value;
      exists i :: 0 <= i < |list| && list[i].id == e.id && r[i] == e
        && (forall j :: 0 <= j < i ==> list[j].id != e.id)
        && (forall j :: 0 <= j < |list| && j != i ==> r[j] == list[j])
  {
    var i := FindIndexById(list, e.id);
    assert UpdateRecord(list, e).value == list[i := e];
  }

  /** The array after `deleteEmployee`: the first record with that id spliced out, or
      "Employee not found" when no record has that id. */
  function RemoveRecord(list: seq<Employee>, id: string): (r: Result<seq<Employee>>)
    ensures r.Err? <==> !HasId(list, id)
    ensures r.Err? ==> r.message == NotFound
    ensures r.Ok? ==> |r.value| == |list| - 1
  {
    var i := FindIndexById(list, id);
    if i == -1 then Err(NotFound) else Ok(list[..i] + list[i + 1..])
  }

  /** A successful delete splices out exactly the first record with that id: the records
      before it stay in place and the ones after it move down by one. */
  lemma RemoveSplicesFirst(list: seq<Employee>, id: string)
    requires RemoveRecord(list, id).Ok?
    ensures var r := RemoveRecord(list, id).value;
      exists i :: 0 <= i < |list| && list[i].id == id
        && (forall j :: 0 <= j < i ==> list[j].id != id && r[j] == list[j])
        && (forall j :: i <= j < |r| ==> r[j] == list[j + 1])
  {
    var i := FindIndexById(list, id);
    var r := RemoveRecord(list, id).value;
    assert r == list[..i] + list[i + 1..];
    assert forall j :: 0 <= j < i ==> r[j] == list[j];
    assert forall j :: i <= j < |r| ==> r[j] == list[j + 1];
  }

  /** Each mutation keeps ids unique, an add provided the generated id is new. */
  lemma MutationsKeepIdsUnique(list: seq<Employee>, e: Employee, newId: string, id: string)
    requires UniqueIds(list)
    ensures !HasId(list, newId) ==> UniqueIds(AddRecord(list, e, newId))
    ensures UpdateRecord(list, e).Ok? ==> UniqueIds(UpdateRecord(list, e).value)
    ensures RemoveRecord(list, id).Ok? ==> UniqueIds(RemoveRecord(list, id).value)
  {
    var r := RemoveRecord(list, id);
    if r.Ok? {
      var i := FindIndexById(list, id);
      assert forall a :: 0 <= a < |r.value| ==> r.value[a] == list[if a < i then a else a + 1];
    }
  }

  /** After an add, looking the generated id up finds the caller's record under that id,
      provided the id was not in use. */
  lemma AddThenFind(list: seq<Employee>, e: Employee, newId: string)
    requires !HasId(list, newId)
    ensures FindById(AddRecord(list, e, newId), newId) == Some(Stored(e, newId))
  {
    var r := AddRecord(list, e, newId);
    assert FindIndexById(r, newId) == |list|;
  }

  class EmployeeService {
    /** The backing array (`private employees: Employee[]`). */
    var employees: seq<Employee>

    constructor ()
      ensures employees == Seed
    {
      employees := Seed;
    }

    /** `getEmployees`: a copy of the backing array. */
    method GetEmployees() returns (r: seq<Employee>)
      ensures r == employees
    {
      r := employees;
    }

    /** `getEmployeeById`: the first record with that id, or nothing. */
    method GetEmployeeById(id: string) returns (r: Option<Employee>)
      ensures r == FindById(employees, id)
    {
      var i := FindIndexById(employees, id);
      if i != -1 {
        r := Some(employees[i]);
      } else {
        r := None;
      }
    }

    /** `addEmployee`: push the record under a generated id (given here as `newId`)
        and return the stored record. */
    method AddEmployee(e: Employee, newId: string) returns (stored: Employee)
      modifies this
      ensures stored == Stored(e, newId)
      ensures employees == AddRecord(old(employees), e, newId)
    {
      stored := e.(id := newId);
      employees := employees + [stored];
    }

    /** `updateEmployee`: overwrite the first index with the same id and return the
        argument, or fail leaving the array alone. */
    method UpdateEmployee(e: Employee) returns (r: Result<Employee>)
      modifies this
      ensures UpdateRecord(old(employees), e).Ok? ==>
                r == Ok(e) && employees == UpdateRecord(old(employees), e).value
      ensures UpdateRecord(old(employees), e).Err? ==>
                r == Err(NotFound) && employees == old(employees)
    {
      var index := FindIndexById(employees, e.id);
      if index != -1 {
        employees := employees[index := e];
        r := Ok(e);
      } else {
        r := Err(NotFound);
      }
    }

    /** `deleteEmployee`: splice out the first index with that id, or fail leaving the
        array alone. */
    method DeleteEmployee(id: string) returns (r: Result<()>)
      modifies this
      ensures RemoveRecord(old(employees), id).Ok? ==>
                r == Ok(()) && employees == RemoveRecord(old(employees), id).value
      ensures RemoveRecord(old(employees), id).Err? ==>
                r == Err(NotFound) && employees == old(employees)
    {
      var index := FindIndexById(employees, id);
      if index != -1 {
        employees := employees[..index] + employees[index + 1..];
        r := Ok(());
      } else {
        r := Err(NotFound);
      }
    }
  }
}
