/** The round trip intent -> entity store -> effect -> reducer, and the
    condition under which the reducer's list stays equal to the store's array. */
module Pipeline {
  import opened Wrappers
  import opened Seqs
  import opened Model
  import opened EmployeeActions
  import opened EmployeeReducer
  import opened EmployeeStore
  import opened EmployeeEffects

  /** The store call an intent's effect makes: the array afterwards and what it emitted.
      `newId` stands for the id the store generates on an add. */
  function ServiceCall(store: seq<Employee>, intent: Action, newId: string): (r: (seq<Employee>, ServiceOutcome))
    requires intent.IsRequest()
    ensures Answers(intent, r.1)
    ensures r.1.Failed? ==> r.0 == store && r.1.message == NotFound
  {
    match intent
    case LoadEmployees => (store, Listed(store))
    case AddEmployee(e) => (AddRecord(store, e, newId), Saved(Stored(e, newId)))
    case UpdateEmployee(e) =>
      (match UpdateRecord(store, e)
       case Ok(list) => (list, Saved(e))
       case Err(msg) => (store, Failed(msg)))
    case DeleteEmployee(id) =>
      (match RemoveRecord(store, id)
       case Ok(list) => (list, Removed)
       case Err(msg) => (store, Failed(msg)))
  }

  /** Dispatching an intent: the reducer sees the intent, the effect calls the store, and
      the reducer sees the one result action. Returns the new state and the new array. */
  function Dispatch(state: EmployeeState, store: seq<Employee>, intent: Action, newId: string)
    : (EmployeeState, seq<Employee>)
    requires intent.IsRequest()
  {
    var (store', outcome) := ServiceCall(store, intent, newId);
    (Reduce(Reduce(state, intent), Effect(intent, outcome)), store')
  }

  /** The conclusion of the round trip: lists equal, ids unique, request over, and an
      error recorded exactly when the store refused. */
  predicate InSyncAfter(state: EmployeeState, store: seq<Employee>, intent: Action, newId: string)
    requires intent.IsRequest()
  {
    var (state', store') := Dispatch(state, store, intent, newId);
    state'.employees == store' && UniqueIds(store') && !state'.loading
    && (state'.error.Some? <==> ServiceCall(store, intent, newId).1.Failed?)
  }

  /** The round trip ends in sync once the store's answer is known, the reducer's final
      list is the store's new array, and that array has unique ids. */
  lemma InSyncFrom(state: EmployeeState, store: seq<Employee>, intent: Action, newId: string,
                   store': seq<Employee>, outcome: ServiceOutcome)
    requires intent.IsRequest() && ServiceCall(store, intent, newId) == (store', outcome)
    requires Reduce(Reduce(state, intent), Effect(intent, outcome)).employees == store' && UniqueIds(store')
    ensures InSyncAfter(state, store, intent, newId)
  {
    assert Answers(intent, outcome);
    var mid := Reduce(state, intent);
    var a := Effect(intent, outcome);
    ResultEndsRequest(mid, a);
    assert Dispatch(state, store, intent, newId) == (Reduce(mid, a), store');
  }

  lemma SyncOnAdd(state: EmployeeState, store: seq<Employee>, e: Employee, newId: string)
    requires state.employees == store && UniqueIds(store) && !HasId(store, newId)
    ensures InSyncAfter(state, store, AddEmployee(e), newId)
  {
    MutationsKeepIdsUnique(store, e, newId, "");
    var mid := Reduce(state, AddEmployee(e));
    assert mid.employees == store;
    assert Reduce(mid, AddEmployeeSuccess(Stored(e, newId))).employees == AddRecord(store, e, newId);
    InSyncFrom(state, store, AddEmployee(e), newId, AddRecord(store, e, newId), Saved(Stored(e, newId)));
  }

  lemma SyncOnUpdate(state: EmployeeState, store: seq<Employee>, e: Employee, newId: string)
    requires state.employees == store && UniqueIds(store)
    ensures InSyncAfter(state, store, UpdateEmployee(e), newId)
  {
    var i := FindIndexById(store, e.id);
    if i == -1 {
      SyncOnRefusal(state, store, UpdateEmployee(e), newId);
    } else {
      SyncOnUpdateFound(state, store, e, newId, i);
    }
  }

  lemma SyncOnDelete(state: EmployeeState, store: seq<Employee>, id: string, newId: string)
    requires state.employees == store && UniqueIds(store)
    ensures InSyncAfter(state, store, DeleteEmployee(id), newId)
  {
    var i := FindIndexById(store, id);
    if i == -1 {
      SyncOnRefusal(state, store, DeleteEmployee(id), newId);
    } else {
      SyncOnDeleteFound(state, store, id, newId, i);
    }
  }

  /** A refused update or delete leaves both sides as they were. */
  lemma SyncOnRefusal(state: EmployeeState, store: seq<Employee>, intent: Action, newId: string)
    requires state.employees == store && UniqueIds(store)
    requires intent.UpdateEmployee? || intent.DeleteEmployee?
    requires ServiceCall(store, intent, newId).1.Failed?
    ensures InSyncAfter(state, store, intent, newId)
  {
    var outcome := ServiceCall(store, intent, newId).1;
    var mid := Reduce(state, intent);
    assert mid.employees == store;
    FailureKeepsData(mid, Effect(intent, outcome));
    InSyncFrom(state, store, intent, newId, store, outcome);
  }

  lemma SyncOnUpdateFound(state: EmployeeState, store: seq<Employee>, e: Employee, newId: string, i: int)
    requires state.employees == store && UniqueIds(store)
    requires i == FindIndexById(store, e.id) && i != -1
    ensures InSyncAfter(state, store, UpdateEmployee(e), newId)
  {
    var store' := store[i := e];
    ServiceCallOnUpdate(store, e, newId, i);
    var mid := Reduce(state, UpdateEmployee(e));
    assert mid.employees == store;
    ReplaceByIdUnique(store, e);
    UpdateSuccessList(mid, e);
    InSyncFrom(state, store, UpdateEmployee(e), newId, store', Saved(e));
  }

  lemma SyncOnDeleteFound(state: EmployeeState, store: seq<Employee>, id: string, newId: string, i: int)
    requires state.employees == store && UniqueIds(store)
    requires i == FindIndexById(store, id) && i != -1
    ensures InSyncAfter(state, store, DeleteEmployee(id), newId)
  {
    var rest := store[..i] + store[i + 1..];
    ServiceCallOnDelete(store, id, newId, i);
    var mid := Reduce(state, DeleteEmployee(id));
    assert mid.employees == store;
    RemoveByIdUnique(store, id);
    DeleteSuccessList(mid, id);
    InSyncFrom(state, store, DeleteEmployee(id), newId, rest, Removed);
  }

  lemma ServiceCallOnUpdate(store: seq<Employee>, e: Employee, newId: string, i: int)
    requires i == FindIndexById(store, e.id) && i != -1
    ensures ServiceCall(store, UpdateEmployee(e), newId) == (store[i := e], Saved(e))
    ensures Effect(UpdateEmployee(e), Saved(e)) == UpdateEmployeeSuccess(e)
  {
    assert UpdateRecord(store, e) == Ok(store[i := e]);
  }

  lemma ServiceCallOnDelete(store: seq<Employee>, id: string, newId: string, i: int)
    requires i == FindIndexById(store, id) && i != -1
    ensures ServiceCall(store, DeleteEmployee(id), newId) == (store[..i] + store[i + 1..], Removed)
    ensures Effect(DeleteEmployee(id), Removed) == DeleteEmployeeSuccess(id)
  {
    assert RemoveRecord(store, id) == Ok(store[..i] + store[i + 1..]);
  }

  /** If the reducer's list equals the store's array and ids are unique, any intent keeps
      the two equal and ids unique (an add needs a fresh generated id); afterwards the
      request is over and `error` is set exactly when the store refused. */
  lemma DispatchKeepsStoreInSync(state: EmployeeState, store: seq<Employee>, intent: Action, newId: string)
    requires intent.IsRequest()
    requires state.employees == store && UniqueIds(store)
    requires intent.AddEmployee? ==> !HasId(store, newId)
    ensures InSyncAfter(state, store, intent, newId)
  {
    match intent
    case LoadEmployees =>
    case AddEmployee(e) => SyncOnAdd(state, store, e, newId);
    case UpdateEmployee(e) => SyncOnUpdate(state, store, e, newId);
    case DeleteEmployee(id) => SyncOnDelete(state, store, id, newId);
  }

  /** An update of an unknown id ends in "Employee not found" with the data unchanged. */
  lemma UpdateUnknownIdFails(state: EmployeeState, store: seq<Employee>, e: Employee, newId: string)
    requires !HasId(store, e.id)
    ensures Effect(UpdateEmployee(e), ServiceCall(store, UpdateEmployee(e), newId).1)
            == UpdateEmployeeFailure(NotFound)
    ensures var (state', store') := Dispatch(state, store, UpdateEmployee(e), newId);
      store' == store && state'.employees == state.employees && state'.error == Some(NotFound)
  {
  }

  /** A successful add puts the store's record, under the generated id, into the state,
      whatever id the intent carried. */
  lemma AddCarriesGeneratedId(state: EmployeeState, store: seq<Employee>, e: Employee, newId: string)
    ensures var (state', _) := Dispatch(state, store, AddEmployee(e), newId);
      state'.employees == state.employees + [e.(id := newId)]
  {
  }

  /** Without unique ids the two sides drift apart: with two records sharing an id, the
      store updates only the first while the reducer updates both. */
  lemma DuplicateIdsBreakSync(a: Employee, b: Employee, e: Employee)
    requires a.id == b.id == e.id && e != b
    ensures var state := InitialState.(employees := [a, b]);
      var (state', store') := Dispatch(state, [a, b], UpdateEmployee(e), "");
      store' == [e, b] && state'.employees == [e, e] && state'.employees != store'
  {
    assert FindIndexById([a, b], e.id) == 0;
    assert ReplaceById([a, b], e) == [e, e];
  }
}
