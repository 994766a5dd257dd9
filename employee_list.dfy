/** The decision logic of the employee list page: its local search, the per-row
    permission checks and the gate on the "add" button. */
module EmployeeList {
  import opened Wrappers
  import opened Seqs
  import opened Text
  import opened Model
  import opened Ui
  import opened EmployeeReducer
  import opened EmployeeSelectors

  /** The `filteredEmployees` computation: the term is lower-cased once; an empty term
      keeps the whole list, otherwise the employees whose lower-cased name, department
      or email contains it. */
  function FilteredEmployees(all: seq<Employee>, searchTerm: string): seq<Employee>
  {
    var term := Lower(searchTerm);
    if term == [] then all else Filter(all, MatchesTerm(term))
  }

  /** The page's search keeps, in order, exactly the employees that match the term, and
      agrees with the store's `selectFilteredEmployees` for the same text. */
  lemma SearchKeepsExactlyMatching(all: seq<Employee>, searchTerm: string)
    ensures FilteredEmployees(all, searchTerm) == FilterByText(all, searchTerm)
    ensures searchTerm == [] ==> FilteredEmployees(all, searchTerm) == all
    ensures var r := FilteredEmployees(all, searchTerm);
      IsSubsequence(r, all) && forall e :: e in r <==> e in all && Matches(e, searchTerm)
  {
    FilteredIsMatchingSubsequence(EmployeeState(all, None, false, None, searchTerm));
  }

  /** `currentUser?.role === 'admin'`. */
  predicate IsAdmin(currentUser: Option<User>)
  {
    currentUser.Some? && currentUser.value.role == AdminRole
  }

  /** `canEditEmployee`: an administrator, or the user whose email is the employee's. */
  function CanEditEmployee(currentUser: Option<User>, employee: Employee): (b: bool)
    ensures b <==> IsAdmin(currentUser) || (currentUser.Some? && currentUser.value.email == employee.email)
    ensures currentUser.None? ==> !b
  {
    (currentUser.Some? && currentUser.value.role == AdminRole)
    || (currentUser.Some? && employee.email == currentUser.value.email)
  }

  /** `canDeleteEmployee`: administrators only, whatever the employee. */
  function CanDeleteEmployee(currentUser: Option<User>, employee: Employee): (b: bool)
    ensures b <==> IsAdmin(currentUser)
    ensures b ==> CanEditEmployee(currentUser, employee)
    ensures currentUser.None? ==> !b
  {
    IsAdmin(currentUser)
  }

  /** Whether a row may be deleted does not depend on the row. */
  lemma DeleteIgnoresEmployee(currentUser: Option<User>, employee: Employee, other: Employee)
    ensures CanDeleteEmployee(currentUser, employee) == CanDeleteEmployee(currentUser, other)
  {
  }

  /** `onAdd`: administrators are taken to the empty form, everyone else gets an alert. */
  function OnAdd(currentUser: Option<User>): (effect: UiEffect)
    ensures effect.Navigate? <==> IsAdmin(currentUser)
    ensures effect.Navigate? ==> effect.commands == ["/employee-form"]
    ensures effect.Alert? ==> effect.message == AdminOnlyAdd
  {
    if IsAdmin(currentUser) then Navigate(["/employee-form"]) else Alert(AdminOnlyAdd)
  }

  /** The page's signals: the search text and its copy of the store's list. */
  class EmployeeListComponent {
    var searchTerm: string
    var allEmployees: seq<Employee>
    const currentUser: Option<User>

    constructor (currentUser: Option<User>)
      ensures searchTerm == [] && allEmployees == [] && this.currentUser == currentUser
    {
      searchTerm := [];
      allEmployees := [];
      this.currentUser := currentUser;
    }

    /** The rows on display. */
    function Rows(): seq<Employee>
      reads this
    {
      FilteredEmployees(allEmployees, searchTerm)
    }

    /** `onSearch`: the input's text becomes the search term. */
    method OnSearch(value: string)
      modifies this
      ensures searchTerm == value && allEmployees == old(allEmployees)
      ensures Rows() == FilterByText(allEmployees, value)
    {
      searchTerm := value;
      SearchKeepsExactlyMatching(allEmployees, value);
    }

    /** The constructor's effect: every list the store emits replaces the local copy. */
    method SyncEmployees(employees: seq<Employee>)
      modifies this
      ensures allEmployees == employees && searchTerm == old(searchTerm)
      ensures Rows() == FilterByText(employees, searchTerm)
    {
      allEmployees := employees;
      SearchKeepsExactlyMatching(employees, searchTerm);
    }
  }
}
