/** `src/app/store/employee.selectors.ts`: read-side projections of the
    employee feature state. */
module EmployeeSelectors {
  import opened Wrappers
  import opened Seqs
  import opened Text
  import opened Model
  import opened EmployeeReducer

  function SelectAllEmployees(s: EmployeeState): seq<Employee> { s.employees }
  function SelectSelectedEmployee(s: EmployeeState): Option<Employee> { s.selectedEmployee }
  function SelectEmployeeLoading(s: EmployeeState): bool { s.loading }
  function SelectEmployeeError(s: EmployeeState): Option<string> { s.error }
  function SelectEmployeeFilter(s: EmployeeState): string { s.filter }

  /** The five field projections read the state without loss: together they rebuild it,
      and each one reads back what the reducer's state-only actions wrote. */
  lemma ProjectionsReadState(s: EmployeeState, sel: Option<Employee>, f: string)
    ensures EmployeeState(SelectAllEmployees(s), SelectSelectedEmployee(s), SelectEmployeeLoading(s),
                          SelectEmployeeError(s), SelectEmployeeFilter(s)) == s
    ensures SelectSelectedEmployee(Reduce(s, EmployeeActions.SelectEmployee(sel))) == sel
    ensures SelectEmployeeFilter(Reduce(s, EmployeeActions.FilterEmployees(f))) == f
  {
  }

  /** The filter callback, for a term that is already lower-cased: the term occurs in the
      lower-cased name, department or email. */
  function MatchesTerm(term: string): Employee -> bool
  {
    (e: Employee) => Contains(Lower(e.name), term) || Contains(Lower(e.department), term)
                     || Contains(Lower(e.email), term)
  }

  /** The projector of `selectFilteredEmployees`. */
  function FilterByText(employees: seq<Employee>, filter: string): seq<Employee>
  {
    if filter == [] then employees else Filter(employees, MatchesTerm(Lower(filter)))
  }

  function SelectFilteredEmployees(s: EmployeeState): seq<Employee>
  {
    FilterByText(SelectAllEmployees(s), SelectEmployeeFilter(s))
  }

  /** `selectEmployeeById(id)`. */
  function SelectEmployeeById(s: EmployeeState, id: string): Option<Employee>
  {
    FindById(SelectAllEmployees(s), id)
  }

  /** An employee matches a filter when the filter is empty or, ignoring ASCII case, occurs
      in its name, department or email. */
  predicate Matches(e: Employee, filter: string)
  {
    filter == [] || Contains(Lower(e.name), Lower(filter)) || Contains(Lower(e.department), Lower(filter))
    || Contains(Lower(e.email), Lower(filter))
  }

  /** With no filter the whole list is returned unchanged. */
  lemma EmptyFilterKeepsAll(s: EmployeeState)
    requires s.filter == []
    ensures SelectFilteredEmployees(s) == s.employees
  {
  }

  /** The filtered list is an order-preserving subsequence of the list that keeps an
      employee (with all its occurrences) exactly when it matches. */
  lemma {:induction false} FilteredIsMatchingSubsequence(s: EmployeeState)
    ensures var r := SelectFilteredEmployees(s);
      IsSubsequence(r, s.employees)
      && (forall e :: e in r <==> e in s.employees && Matches(e, s.filter))
      && (forall e :: multiset(r)[e] == if Matches(e, s.filter) then multiset(s.employees)[e] else 0)
  {
    var r := SelectFilteredEmployees(s);
    if s.filter == [] {
      FilterAllKept(s.employees, (e: Employee) => true);
      FilterIsSubsequence(s.employees, (e: Employee) => true);
    } else {
      var keep := MatchesTerm(Lower(s.filter));
      FilterIsSubsequence(s.employees, keep);
      forall e ensures multiset(r)[e] == if Matches(e, s.filter) then multiset(s.employees)[e] else 0 {
        FilterCounts(s.employees, keep, e);
      }
      FilterMembers(s.employees, keep);
    }
  }

  /** Filtering ignores the case of the filter text. */
  lemma FilterIgnoresCase(employees: seq<Employee>, f1: string, f2: string)
    requires Lower(f1) == Lower(f2)
    ensures FilterByText(employees, f1) == FilterByText(employees, f2)
  {
  }

  /** Filtering the filtered list again changes nothing. */
  lemma {:induction false} FilterByTextIdempotent(employees: seq<Employee>, filter: string)
    ensures FilterByText(FilterByText(employees, filter), filter) == FilterByText(employees, filter)
  {
    if filter != [] {
      FilterIdempotent(employees, MatchesTerm(Lower(filter)));
    }
  }

  /** The by-id selector reads the first listed employee with that id, or nothing. */
  lemma SelectByIdFindsFirst(s: EmployeeState, id: string)
    ensures var r := SelectEmployeeById(s, id);
      (r.None? <==> !HasId(s.employees, id))
      && (r.Some? ==> r.value.id == id && r.value == s.employees[FindIndexById(s.employees, id)])
  {
  }
}
