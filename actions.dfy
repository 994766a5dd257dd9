/** The action vocabulary of `src/app/store/employee.actions.ts`: a request, a
    success and a failure per operation family, plus the two state-only
    actions. */
module EmployeeActions {
  import opened Wrappers
  import opened Model

  datatype Action =
    | LoadEmployees
    | LoadEmployeesSuccess(employees: seq<Employee>)
    | LoadEmployeesFailure(error: string)
    | AddEmployee(employee: Employee)
    | AddEmployeeSuccess(employee: Employee)
    | AddEmployeeFailure(error: string)
    | UpdateEmployee(employee: Employee)
    | UpdateEmployeeSuccess(employee: Employee)
    | UpdateEmployeeFailure(error: string)
    | DeleteEmployee(id: string)
    | DeleteEmployeeSuccess(id: string)
    | DeleteEmployeeFailure(error: string)
    | SelectEmployee(selected: Option<Employee>)
    | FilterEmployees(filter: string)
  {
    /** An intent: handled by an effect and by the reducer's loading transition. */
    predicate IsRequest()
    {
      LoadEmployees? || AddEmployee? || UpdateEmployee? || DeleteEmployee?
    }

    predicate IsSuccessResult()
    {
      LoadEmployeesSuccess? || AddEmployeeSuccess? || UpdateEmployeeSuccess? || DeleteEmployeeSuccess?
    }

    predicate IsFailureResult()
    {
      LoadEmployeesFailure? || AddEmployeeFailure? || UpdateEmployeeFailure? || DeleteEmployeeFailure?
    }
  }

  datatype Family = Load | Add | Update | Delete

  /** The operation family of a request or result action. */
  function FamilyOf(a: Action): Family
    requires a.IsRequest() || a.IsSuccessResult() || a.IsFailureResult()
  {
    match a
    case LoadEmployees | LoadEmployeesSuccess(_) | LoadEmployeesFailure(_) => Load
    case AddEmployee(_) | AddEmployeeSuccess(_) | AddEmployeeFailure(_) => Add
    case UpdateEmployee(_) | UpdateEmployeeSuccess(_) | UpdateEmployeeFailure(_) => Update
    case DeleteEmployee(_) | DeleteEmployeeSuccess(_) | DeleteEmployeeFailure(_) => Delete
  }
}
