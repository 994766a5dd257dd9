/** `src/app/store/employee.reducer.ts`: the pure state transition function
    over the employee feature state. */
module EmployeeReducer {
  import opened Wrappers
  import opened Seqs
  import opened Model
  import opened EmployeeActions

  datatype EmployeeState = EmployeeState(
    employees: seq<Employee>,
    selectedEmployee: Option<Employee>,
    loading: bool,
    error: Option<string>,
    filter: string)

  const InitialState := EmployeeState([], None, false, None, "")

  /** `employees.map(emp => emp.id === e.id ? e : emp)`. */
  function ReplaceById(list: seq<Employee>, e: Employee): (r: seq<Employee>)
    ensures |r| == |list|
    ensures forall i :: 0 <= i < |list| ==> r[i] == if list[i].id == e.id then e else list[i]
  {
    if list == [] then []
    else [if list[0].id == e.id then e else list[0]] + ReplaceById(list[1..], e)
  }

  /** `employeeReducer`: one `on(...)` arm per action. */
  function Reduce(state: EmployeeState, action: Action): EmployeeState
  {
    match action
    case LoadEmployees => state.(loading := true, error := None)
    case LoadEmployeesSuccess(list) => state.(employees := list, loading := false, error := None)
    case LoadEmployeesFailure(msg) => state.(loading := false, error := Some(msg))
    case AddEmployee(_) => state.(loading := true, error := None)
    case AddEmployeeSuccess(e) =>
      state.(employees := state.employees + [e], loading := false, error := None)
    case AddEmployeeFailure(msg) => state.(loading := false, error := Some(msg))
    case UpdateEmployee(_) => state.(loading := true, error := None)
    case UpdateEmployeeSuccess(e) =>
      state.(employees := ReplaceById(state.employees, e),
             selectedEmployee :=
               if state.selectedEmployee.Some? && state.selectedEmployee.value.id == e.id
               then Some(e) else state.selectedEmployee,
             loading := false, error := None)
    case UpdateEmployeeFailure(msg) => state.(loading := false, error := Some(msg))
    case DeleteEmployee(_) => state.(loading := true, error := None)
    case DeleteEmployeeSuccess(id) =>
      state.(employees := Filter(state.employees, KeepOthers(id)),
             selectedEmployee :=
               if state.selectedEmployee.Some? && state.selectedEmployee.value.id == id
               then None else state.selectedEmployee,
             loading := false, error := None)
    case DeleteEmployeeFailure(msg) => state.(loading := false, error := Some(msg))
    case SelectEmployee(e) => state.(selectedEmployee := e)
    case FilterEmployees(f) => state.(filter := f)
  }

  /** The store starts empty, idle, error-free, unselected and unfiltered. */
  lemma InitialStateIsEmpty()
    ensures InitialState.employees == [] && InitialState.selectedEmployee == None
    ensures !InitialState.loading && InitialState.error == None && InitialState.filter == []
  {
  }

  /** Every request raises `loading`, clears `error`, and touches nothing else. */
  lemma RequestStartsLoading(s: EmployeeState, a: Action)
    requires a.IsRequest()
    ensures var t := Reduce(s, a);
      t.loading && t.error == None
      && t.employees == s.employees && t.selectedEmployee == s.selectedEmployee && t.filter == s.filter
  {
  }

  /** A successful load replaces the list wholesale and ends the request. */
  lemma LoadSuccessReplacesList(s: EmployeeState, list: seq<Employee>)
    ensures var t := Reduce(s, LoadEmployeesSuccess(list));
      t.employees == list && !t.loading && t.error == None
      && t.selectedEmployee == s.selectedEmployee && t.filter == s.filter
  {
  }

  /** A successful add appends exactly the payload: the old list is a prefix. */
  lemma AddSuccessAppends(s: EmployeeState, e: Employee)
    ensures var t := Reduce(s, AddEmployeeSuccess(e));
      |t.employees| == |s.employees| + 1 && t.employees[..|s.employees|] == s.employees
      && t.employees[|s.employees|] == e && !t.loading && t.error == None
      && t.selectedEmployee == s.selectedEmployee && t.filter == s.filter
  {
  }

  /** A successful update keeps length and order, replaces exactly the records with the
      payload's id, and replaces the selection only when its id matches. */
  lemma UpdateSuccessReplacesMatches(s: EmployeeState, e: Employee)
    ensures var t := Reduce(s, UpdateEmployeeSuccess(e));
      |t.employees| == |s.employees|
      && (forall i :: 0 <= i < |s.employees| && s.employees[i].id == e.id ==> t.employees[i] == e)
      && (forall i :: 0 <= i < |s.employees| && s.employees[i].id != e.id ==> t.employees[i] == s.employees[i])
      && (s.selectedEmployee.Some? && s.selectedEmployee.value.id == e.id ==> t.selectedEmployee == Some(e))
      && (s.selectedEmployee.None? || s.selectedEmployee.value.id != e.id ==> t.selectedEmployee == s.selectedEmployee)
      && !t.loading && t.error == None && t.filter == s.filter
  {
  }

  /** Filtering out an id removes every record with it and keeps all others (with their
      multiplicities) in their original order. */
  lemma {:induction false} RemoveAllWithId(list: seq<Employee>, id: string)
    ensures var r := Filter(list, KeepOthers(id));
      (forall e :: e in r <==> e in list && e.id != id)
      && (forall e :: multiset(r)[e] == if e.id == id then 0 else multiset(list)[e])
      && IsSubsequence(r, list)
  {
    var r := Filter(list, KeepOthers(id));
    FilterIsSubsequence(list, KeepOthers(id));
    forall e: Employee ensures multiset(r)[e] == if e.id == id then 0 else multiset(list)[e] {
      FilterCounts(list, KeepOthers(id), e);
    }
    FilterMembers(list, KeepOthers(id));
  }

  /** A successful delete removes every record with that id, keeps all others (with
      their multiplicities) in their original order, and clears a matching selection. */
  lemma DeleteSuccessRemovesMatches(s: EmployeeState, id: string)
    ensures var t := Reduce(s, DeleteEmployeeSuccess(id));
      (forall e :: e in t.employees <==> e in s.employees && e.id != id)
      && (forall e :: multiset(t.employees)[e] == if e.id == id then 0 else multiset(s.employees)[e])
      && IsSubsequence(t.employees, s.employees)
      && (s.selectedEmployee.Some? && s.selectedEmployee.value.id == id ==> t.selectedEmployee == None)
      && (s.selectedEmployee.None? || s.selectedEmployee.value.id != id ==> t.selectedEmployee == s.selectedEmployee)
      && !t.loading && t.error == None && t.filter == s.filter
  {
    var t := Reduce(s, DeleteEmployeeSuccess(id));
    var r := Filter(s.employees, KeepOthers(id));
    assert t.employees == r;
    RemoveAllWithId(s.employees, id);
    assert forall e :: e in r <==> e in s.employees && e.id != id;
    assert forall e :: multiset(r)[e] == if e.id == id then 0 else multiset(s.employees)[e];
  }

  /** The list a successful update or delete leaves. */
  lemma UpdateSuccessList(s: EmployeeState, e: Employee)
    ensures Reduce(s, UpdateEmployeeSuccess(e)).employees == ReplaceById(s.employees, e)
  {
  }

  lemma DeleteSuccessList(s: EmployeeState, id: string)
    ensures Reduce(s, DeleteEmployeeSuccess(id)).employees == Filter(s.employees, KeepOthers(id))
  {
  }

  /** Every result ends the request; `error` is set exactly by a failure. */
  lemma ResultEndsRequest(s: EmployeeState, a: Action)
    requires a.IsSuccessResult() || a.IsFailureResult()
    ensures !Reduce(s, a).loading
    ensures Reduce(s, a).error.Some? <==> a.IsFailureResult()
  {
  }

  /** Every failure ends the request, records the message, and leaves the data alone. */
  lemma FailureKeepsData(s: EmployeeState, a: Action)
    requires a.IsFailureResult()
    ensures var t := Reduce(s, a);
      !t.loading && t.error == Some(a.error)
      && t.employees == s.employees && t.selectedEmployee == s.selectedEmployee && t.filter == s.filter
  {
  }

  /** `selectEmployee` and `filterEmployees` change only their own field. */
  lemma StateOnlyActionsTouchOneField(s: EmployeeState, sel: Option<Employee>, f: string)
    ensures Reduce(s, SelectEmployee(sel)) == s.(selectedEmployee := sel)
    ensures Reduce(s, FilterEmployees(f)) == s.(filter := f)
  {
  }

  /** The selection need not be a member of the list: selecting an employee that the
      list does not hold is accepted as is. */
  lemma SelectionNeedNotBeListed(e: Employee)
    ensures var t := Reduce(InitialState, SelectEmployee(Some(e)));
      t.selectedEmployee == Some(e) && FindById(t.employees, e.id) == None
  {
  }

  /** With unique ids, the `map` replacement of a successful update touches exactly the
      first (and only) index holding the id, and ids stay unique. */
  lemma ReplaceByIdUnique(list: seq<Employee>, e: Employee)
    requires UniqueIds(list)
    ensures var i := FindIndexById(list, e.id);
      ReplaceById(list, e) == if i == -1 then list else list[i := e]
    ensures UniqueIds(ReplaceById(list, e))
  {
    var i := FindIndexById(list, e.id);
    if i != -1 {
      UniqueAt(list, i);
      assert ReplaceById(list, e) == list[i := e];
    } else {
      assert ReplaceById(list, e) == list;
    }
  }

  /** Removing one index from a list with unique ids leaves the ids unique. */
  lemma UniqueAfterRemoveAt(list: seq<Employee>, i: nat)
    requires UniqueIds(list) && i < |list|
    ensures UniqueIds(list[..i] + list[i + 1..])
  {
    var r := list[..i] + list[i + 1..];
    assert forall a :: 0 <= a < |r| ==> r[a] == list[if a < i then a else a + 1];
  }

  /** With unique ids, the `filter` of a successful delete removes exactly the first
      (and only) index holding the id, and ids stay unique. */
  lemma RemoveByIdUnique(list: seq<Employee>, id: string)
    requires UniqueIds(list)
    ensures var i := FindIndexById(list, id);
      Filter(list, KeepOthers(id)) == if i == -1 then list else list[..i] + list[i + 1..]
    ensures UniqueIds(Filter(list, KeepOthers(id)))
  {
    var i := FindIndexById(list, id);
    if i != -1 {
      UniqueAt(list, i);
      FilterDropsOnlyAt(list, KeepOthers(id), i);
      UniqueAfterRemoveAt(list, i);
    } else {
      FilterAllKept(list, KeepOthers(id));
    }
  }
}
