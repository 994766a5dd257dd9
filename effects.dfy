/** `src/app/store/employee.effects.ts`: each intent, together with what the
    entity store answered, becomes one result action. The store's answer is a
    parameter; the asynchronous stream plumbing is not modelled. */
module EmployeeEffects {
  import opened Model
  import opened EmployeeActions

  /** What a store call emitted: a list, a record, completion, or an error message. */
  datatype ServiceOutcome =
    | Listed(employees: seq<Employee>)
    | Saved(employee: Employee)
    | Removed
    | Failed(message: string)

  /** The outcome has the shape the intent's store call can produce; any call may fail. */
  predicate Answers(intent: Action, outcome: ServiceOutcome)
  {
    outcome.Failed?
    || (intent.LoadEmployees? && outcome.Listed?)
    || ((intent.AddEmployee? || intent.UpdateEmployee?) && outcome.Saved?)
    || (intent.DeleteEmployee? && outcome.Removed?)
  }

  /** The four effects: `map` turns a value into the family's success action and
      `catchError` turns an error into its failure action carrying the message. */
  function Effect(intent: Action, outcome: ServiceOutcome): (a: Action)
    requires intent.IsRequest() && Answers(intent, outcome)
    ensures a.IsSuccessResult() != a.IsFailureResult()
    ensures FamilyOf(a) == FamilyOf(intent)
    ensures a.IsFailureResult() <==> outcome.Failed?
    ensures a.IsFailureResult() ==> a.error == outcome.message
  {
    match intent
    case LoadEmployees =>
      if outcome.Listed? then LoadEmployeesSuccess(outcome.employees)
      else LoadEmployeesFailure(outcome.message)
    case AddEmployee(_) =>
      if outcome.Saved? then AddEmployeeSuccess(outcome.employee)
      else AddEmployeeFailure(outcome.message)
    case UpdateEmployee(_) =>
      if outcome.Saved? then UpdateEmployeeSuccess(outcome.employee)
      else UpdateEmployeeFailure(outcome.message)
    case DeleteEmployee(id) =>
      if outcome.Removed? then DeleteEmployeeSuccess(id)
      else DeleteEmployeeFailure(outcome.message)
  }

  /** Success payloads: a load carries the store's list, an add or update carries the
      record the store returned (not the intent's), a delete carries the intent's id. */
  lemma SuccessPayloads(intent: Action, outcome: ServiceOutcome)
    requires intent.IsRequest() && Answers(intent, outcome) && !outcome.Failed?
    ensures intent.LoadEmployees? ==> Effect(intent, outcome) == LoadEmployeesSuccess(outcome.employees)
    ensures intent.AddEmployee? ==> Effect(intent, outcome) == AddEmployeeSuccess(outcome.employee)
    ensures intent.UpdateEmployee? ==> Effect(intent, outcome) == UpdateEmployeeSuccess(outcome.employee)
    ensures intent.DeleteEmployee? ==> Effect(intent, outcome) == DeleteEmployeeSuccess(intent.id)
  {
  }
}
