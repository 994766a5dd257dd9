# Employee directory: a verified model

This project models the core of an Angular employee-directory application in
Dafny. The parts modelled are:

- the NgRx employee feature, which has three parts:
  - the reducer, which is the state transition function;
  - the selectors, which are the read-side projections and the text filter;
  - the effects, which turn each request into one result action after calling the entity store;
- the in-memory entity store (`EmployeeService`) and the credential store (`AuthService`);
- the phone-number pipe;
- the route-reuse strategy that caches employee detail views;
- the decision logic of five components:
  - the employee list: search, permissions and the add gate;
  - the add/edit form: validators, permissions and field locking, submit, leaving the page, and field messages;
  - the sign-up page: validators, the password-match group validator, submit, and field messages;
  - the notes panel;
  - the delete-confirmation dialog.

Each source file has its own module:

| module | models |
|---|---|
| `Model`, `EmployeeActions` | the records and the action union |
| `EmployeeReducer`, `EmployeeSelectors`, `EmployeeEffects` | the store's pure logic |
| `EmployeeStore` | the entity store |
| `Auth` | the credential store |
| `MobileFormat` | the phone-number pipe |
| `RouteReuse` | the route-reuse strategy |
| `EmployeeList` | the employee list page |
| `EmployeeForm` | the add/edit form |
| `Signup` | the sign-up page |
| `DynamicNotes` | the notes panel |
| `DeleteConfirmation` | the delete-confirmation dialog |

Shared modules:

- `Wrappers`: `Option` and `Result`.
- `Seqs`: JavaScript's `Array.prototype.filter` and subsequences.
- `Text`: ASCII `toLowerCase`, `includes`, `trim`, `split(sep)[0]`, and number rendering.
- `Forms`: form controls and form groups, as far as the components rely on them.
- `Ui`: alerts and navigations, recorded as values.

Code with pure logic is modelled as functions and lemmas. Code that works by mutation is modelled as a class whose fields the methods reassign, proved against the pure functions:

- the service's array;
- the credential list and session;
- the notes list;
- the dialog's latch;
- the route cache;
- the form controls.

The main composite result is `Pipeline.DispatchKeepsStoreInSync`. It covers a load, add, update or delete request as it runs through three steps: the reducer, the entity store via the effect, and the reducer again. If the reducer's list equals the store's array and ids are unique before the request, the result is:

- the two lists are still equal afterwards;
- ids are still unique;
- the request has ended;
- an error is recorded exactly when the store refused.

An add needs a fresh generated id. `Pipeline.DuplicateIdsBreakSync` shows that the uniqueness assumption is needed.

Three behaviours of the code worth knowing:

- `addEmployee` in the entity store always replaces the record's id with a generated one, not only when it is empty. `Pipeline.AddCarriesGeneratedId` states what the state then holds.
- `selectEmployee` accepts an employee that is not in the list (`EmployeeReducer.SelectionNeedNotBeListed`). So "the selection is a member of the list" is not an invariant of the reducer.
- `login` accepts an email or a username, but `signup`'s duplicate check compares emails only with emails and usernames only with usernames. When `signup` is called with a username different from the email, a new account whose email equals another account's username, with the same password, signs in as that other account (`Auth.EmailShadowedByExistingUsername`). The sign-up page never does this: it passes the email as the username, and then the duplicate check rejects the sign-up.

## Model

| member | source | states |
|---|---|---|
| `Model.FindIndexById` | src/app/services/employee.service.ts:102 | `findIndex`: -1 exactly when no record has the id, otherwise the first index holding it |
| `Model.FindById` | src/app/services/employee.service.ts:88 | `find`: nothing exactly when no record has the id, otherwise the first record holding it |
| `Model.UniqueAt` | src/app/services/employee.service.ts:102-104 | under unique ids the record at `i` is the only one with its id and `findIndex` finds it |
| `Seqs.Filter` | src/app/store/employee.reducer.ts:96 | `Array.filter` keeps only elements satisfying the callback and never grows the list |
| `Seqs.FilterMembers` | src/app/store/employee.reducer.ts:96 | an element is in the filtered list exactly when it is in the input and the callback accepts it |
| `Text.Lower` | src/app/store/employee.selectors.ts:39-41 | `toLowerCase` keeps the length and lower-cases exactly the upper-case ASCII letters |
| `Text.LowerIdempotent` | src/app/components/employee-list/employee-list.component.ts:40 | lower-casing an already lower-cased term changes nothing |
| `Text.Contains` | src/app/store/employee.selectors.ts:39-41 | `includes`: the empty needle is always contained, and a contained needle is no longer than the text |
| `Text.ContainsAt` | src/app/store/employee.selectors.ts:39-41 | a needle that is a slice of the text at some offset is contained |
| `Text.ContainsWitness` | src/app/store/employee.selectors.ts:39-41 | a contained needle is the slice of the text at some offset |
| `Text.LeadingSpace` | src/app/components/shared/dynamic-notes/dynamic-notes.component.ts:242 | the length of the whitespace run that starts the text |
| `Text.TrailingSpace` | src/app/components/shared/dynamic-notes/dynamic-notes.component.ts:242 | where the whitespace run that ends the text begins |
| `Text.Trim` | src/app/components/shared/dynamic-notes/dynamic-notes.component.ts:242-246 | `trim()` as the slice between the two whitespace runs; its meaning is proved by `Text.TrimSlice` and `Text.TrimEmptyIffBlank` |
| `Text.TrimSlice` | src/app/components/shared/dynamic-notes/dynamic-notes.component.ts:246 | `trim` gives the slice between the leading and trailing whitespace runs, and the result neither starts nor ends with whitespace |
| `Text.TrimEmptyIffBlank` | src/app/components/shared/dynamic-notes/dynamic-notes.component.ts:242 | the content trims to nothing exactly when it is all whitespace |
| `Text.BeforeFirst` | src/app/components/signup/signup.component.ts:67 | `split('@')[0]`: a prefix of the text without the separator, followed by the separator or by the end |
| `Text.NatToString` | src/app/components/employee-form/employee-form.component.ts:178 | a number renders as a non-empty string of digits with no leading zero |
| `Text.NatToStringValue` | src/app/components/employee-form/employee-form.component.ts:178 | the rendered digits spell the number back, so `requiredLength` 2 and 6 print as "2" and "6" |
| `EmployeeReducer.ReplaceById` | src/app/store/employee.reducer.ts:73-75 | the `map` keeps the length and puts the payload exactly at the indices whose id matches |
| `EmployeeReducer.Reduce` | src/app/store/employee.reducer.ts:21-119 | the reducer, one arm per action; each arm's effect is stated by the reducer lemmas below |
| `EmployeeReducer.InitialStateIsEmpty` | src/app/store/employee.reducer.ts:13-19 | the initial state has no employees, no selection, no loading, no error and an empty filter |
| `EmployeeReducer.RequestStartsLoading` | src/app/store/employee.reducer.ts:25-29 | each request (also 45-49, 65-69, 88-92) sets loading, clears the error and leaves the list, the selection and the filter alone |
| `EmployeeReducer.LoadSuccessReplacesList` | src/app/store/employee.reducer.ts:31-36 | a successful load replaces the list and ends the request |
| `EmployeeReducer.AddSuccessAppends` | src/app/store/employee.reducer.ts:51-56 | a successful add grows the list by exactly the payload at the end; the old list is a prefix |
| `EmployeeReducer.UpdateSuccessReplacesMatches` | src/app/store/employee.reducer.ts:71-79 | a successful update keeps length and order, replaces exactly the matching records, and replaces the selection only when its id matches |
| `EmployeeReducer.RemoveAllWithId` | src/app/store/employee.reducer.ts:96 | the delete filter removes every record with the id and keeps the others, with their multiplicities, in order |
| `EmployeeReducer.DeleteSuccessRemovesMatches` | src/app/store/employee.reducer.ts:94-100 | a successful delete removes exactly the records with the id, keeps the rest in order, and clears a matching selection |
| `EmployeeReducer.ResultEndsRequest` | src/app/store/employee.reducer.ts:31-106 | every success or failure ends the request, and an error is recorded exactly for a failure |
| `EmployeeReducer.FailureKeepsData` | src/app/store/employee.reducer.ts:38-42 | each failure (also 58-62, 81-85, 102-106) records its message and leaves the list, the selection and the filter alone |
| `EmployeeReducer.StateOnlyActionsTouchOneField` | src/app/store/employee.reducer.ts:109-118 | `selectEmployee` and `filterEmployees` change only their own field |
| `EmployeeReducer.SelectionNeedNotBeListed` | src/app/store/employee.reducer.ts:109-112 | an employee that is not in the list can become the selection |
| `EmployeeReducer.ReplaceByIdUnique` | src/app/store/employee.reducer.ts:73-75 | under unique ids the update `map` is a single index assignment and ids stay unique |
| `EmployeeReducer.UniqueAfterRemoveAt` | src/app/services/employee.service.ts:113 | splicing one index out keeps ids unique |
| `EmployeeReducer.RemoveByIdUnique` | src/app/store/employee.reducer.ts:96 | under unique ids the delete filter is a splice of the first index holding the id, and ids stay unique |
| `EmployeeSelectors.ProjectionsReadState` | src/app/store/employee.selectors.ts:6-29 | the five projections together rebuild the state and read back what the state-only actions wrote |
| `EmployeeSelectors.FilterByText` | src/app/store/employee.selectors.ts:34-43 | the projector of the filtered selector; its meaning is proved by `EmployeeSelectors.FilteredIsMatchingSubsequence` |
| `EmployeeSelectors.SelectFilteredEmployees` | src/app/store/employee.selectors.ts:31-44 | the filtered selector over the state's list and filter; see `EmployeeSelectors.EmptyFilterKeepsAll` and `EmployeeSelectors.FilteredIsMatchingSubsequence` |
| `EmployeeSelectors.SelectEmployeeById` | src/app/store/employee.selectors.ts:46-49 | `find` over the state's list; its meaning is proved by `EmployeeSelectors.SelectByIdFindsFirst` |
| `EmployeeSelectors.EmptyFilterKeepsAll` | src/app/store/employee.selectors.ts:35-37 | with no filter the whole list is returned |
| `EmployeeSelectors.FilteredIsMatchingSubsequence` | src/app/store/employee.selectors.ts:31-44 | the filtered list is an ordered subsequence holding, with multiplicity, exactly the employees matching the filter case-insensitively in name, department or email |
| `EmployeeSelectors.FilterIgnoresCase` | src/app/store/employee.selectors.ts:38-42 | filters that lower-case alike give the same result |
| `EmployeeSelectors.FilterByTextIdempotent` | src/app/store/employee.selectors.ts:38-42 | filtering the filtered list again changes nothing |
| `EmployeeSelectors.SelectByIdFindsFirst` | src/app/store/employee.selectors.ts:46-49 | the by-id selector gives nothing exactly when the id is absent, and otherwise the first employee with the id |
| `EmployeeStore.SeedIdsDistinct` | src/app/services/employee.service.ts:10-81 | the store starts with seven records with distinct ids |
| `EmployeeStore.Stored` | src/app/services/employee.service.ts:93-96 | the stored record is the caller's record under the generated id |
| `EmployeeStore.AddRecord` | src/app/services/employee.service.ts:92-99 | an add pushes exactly the stored record at the end |
| `EmployeeStore.UpdateRecord` | src/app/services/employee.service.ts:101-108 | an update fails with "Employee not found" exactly when the id is absent; otherwise the length is kept |
| `EmployeeStore.UpdateReplacesFirst` | src/app/services/employee.service.ts:102-105 | a successful update replaces the first record with the id and nothing else |
| `EmployeeStore.RemoveRecord` | src/app/services/employee.service.ts:110-117 | a delete fails with "Employee not found" exactly when the id is absent; otherwise the list shrinks by one |
| `EmployeeStore.RemoveSplicesFirst` | src/app/services/employee.service.ts:111-114 | a successful delete splices out the first record with the id: earlier records stay, later ones move down by one |
| `EmployeeStore.MutationsKeepIdsUnique` | src/app/services/employee.service.ts:92-117 | add (with a fresh id), update and delete keep ids unique |
| `EmployeeStore.AddThenFind` | src/app/services/employee.service.ts:87-99 | after an add under a fresh id, looking that id up finds the stored record |
| `EmployeeStore.EmployeeService.constructor` | src/app/services/employee.service.ts:10-81 | the service starts with the seed records |
| `EmployeeStore.EmployeeService.GetEmployees` | src/app/services/employee.service.ts:83-85 | returns a copy of the array |
| `EmployeeStore.EmployeeService.GetEmployeeById` | src/app/services/employee.service.ts:87-90 | returns the first record with the id, or nothing |
| `EmployeeStore.EmployeeService.AddEmployee` | src/app/services/employee.service.ts:92-99 | pushes the record under the generated id and returns the stored record |
| `EmployeeStore.EmployeeService.UpdateEmployee` | src/app/services/employee.service.ts:101-108 | overwrites the first record with the id and returns the argument, or fails leaving the array alone |
| `EmployeeStore.EmployeeService.DeleteEmployee` | src/app/services/employee.service.ts:110-117 | splices out the first record with the id, or fails leaving the array alone |
| `EmployeeEffects.Effect` | src/app/store/employee.effects.ts:13-59 | each request yields exactly one result of its own family; it is a failure exactly when the store failed, and then it carries the store's message |
| `EmployeeEffects.SuccessPayloads` | src/app/store/employee.effects.ts:18-54 | a load carries the store's list, an add or update carries the record the store returned, and a delete carries the request's id |
| `Pipeline.ServiceCall` | src/app/store/employee.effects.ts:17-53 | the store's answer fits the request, and a refusal is "Employee not found" with the array unchanged |
| `Pipeline.Dispatch` | src/app/store/employee.effects.ts:13-59 | one request through the reducer, the store call, the effect and the reducer again |
| `Pipeline.InSyncAfter` | src/app/store/employee.effects.ts:13-59 | after `Dispatch`: the lists are equal, ids unique, the request over, and an error recorded exactly on refusal |
| `Pipeline.InSyncFrom` | src/app/store/employee.effects.ts:13-59 | once the reducer's final list is the store's new array with unique ids, the round trip ends in sync |
| `Pipeline.SyncOnAdd` | src/app/store/employee.effects.ts:25-35 | an add with a fresh generated id keeps the reducer and the store in sync |
| `Pipeline.SyncOnUpdate` | src/app/store/employee.effects.ts:37-47 | an update keeps the reducer and the store in sync |
| `Pipeline.SyncOnDelete` | src/app/store/employee.effects.ts:49-59 | a delete keeps the reducer and the store in sync |
| `Pipeline.SyncOnRefusal` | src/app/store/employee.effects.ts:43 | a refused update or delete (also line 55) leaves both sides as they were, with the error recorded |
| `Pipeline.SyncOnUpdateFound` | src/app/store/employee.reducer.ts:71-79 | an update of a present id ends with equal lists on both sides |
| `Pipeline.SyncOnDeleteFound` | src/app/store/employee.reducer.ts:94-100 | a delete of a present id ends with equal lists on both sides |
| `Pipeline.ServiceCallOnUpdate` | src/app/services/employee.service.ts:101-106 | the store's update of a present id is the index assignment and yields `updateEmployeeSuccess` |
| `Pipeline.ServiceCallOnDelete` | src/app/services/employee.service.ts:110-115 | the store's delete of a present id is the splice and yields `deleteEmployeeSuccess` |
| `Pipeline.DispatchKeepsStoreInSync` | src/app/store/employee.effects.ts:13-59 | with equal lists and unique ids, any request keeps them equal and unique, ends the request, and records an error exactly on refusal |
| `Pipeline.UpdateUnknownIdFails` | src/app/services/employee.service.ts:107 | an update of an unknown id ends in "Employee not found" with the data unchanged |
| `Pipeline.AddCarriesGeneratedId` | src/app/services/employee.service.ts:93-97 | after an add the state holds the record under the generated id, not the requested one |
| `Pipeline.DuplicateIdsBreakSync` | src/app/services/employee.service.ts:102-104 | with duplicate ids the store updates one record while the reducer updates both |
| `Auth.FindCredential` | src/app/services/auth.service.ts:39-41 | the first user whose email or username and password match, or nothing exactly when none does |
| `Auth.SignupRecord` | src/app/services/auth.service.ts:53-70 | "User already exists" exactly when the email or the username is taken; otherwise exactly the new user is appended |
| `Auth.SignupThenLoginSucceeds` | src/app/services/auth.service.ts:38-41 | after a successful signup, a login with that email and password succeeds |
| `Auth.SignupThenLoginFindsNewUser` | src/app/services/auth.service.ts:38-68 | when the username is the email, that login finds exactly the new user |
| `Auth.EmailShadowedByExistingUsername` | src/app/services/auth.service.ts:39-54 | when the username differs from the email, a new email equal to an existing username passes the duplicate check, yet a login with it finds the existing user |
| `Auth.AuthService.constructor` | src/app/services/auth.service.ts:10-28 | the service starts with the two seed users and nobody signed in |
| `Auth.AuthService.Login` | src/app/services/auth.service.ts:38-51 | signs in as the first matching user, or fails with "Invalid credentials" and leaves the session alone |
| `Auth.AuthService.Signup` | src/app/services/auth.service.ts:53-70 | appends the new user unless taken, and does not sign them in |
| `Auth.AuthService.Logout` | src/app/services/auth.service.ts:72-76 | nobody is signed in afterwards and the users are unchanged |
| `MobileFormat.Digits` | src/app/pipes/mobile-format.pipe.ts:11 | the cleaned value holds only digits |
| `MobileFormat.DigitsAreTheInputDigits` | src/app/pipes/mobile-format.pipe.ts:11 | the cleaned value keeps every digit of the input, in order, and nothing else |
| `MobileFormat.Formatted` | src/app/pipes/mobile-format.pipe.ts:15-20 | `(+91) ` then the last ten digits in two groups of five |
| `MobileFormat.Transform` | src/app/pipes/mobile-format.pipe.ts:7-25 | the pipe's `transform`; its cases are stated by `MobileFormat.TransformCases` |
| `MobileFormat.TransformCases` | src/app/pipes/mobile-format.pipe.ts:7-25 | empty stays empty (8); ten digits, or twelve starting with 91, give the 17-character `(+91) ddddd ddddd` (14-21); anything else comes back uncleaned (24) |
| `MobileFormat.OnlyDigitsMatter` | src/app/pipes/mobile-format.pipe.ts:11-21 | inputs with the same formattable digits format alike |
| `MobileFormat.DigitsOfFormatted` | src/app/pipes/mobile-format.pipe.ts:15 | a formatted number cleans to "91" and its ten local digits |
| `MobileFormat.TransformIdempotent` | src/app/pipes/mobile-format.pipe.ts:11-24 | formatting a formatted value returns it unchanged |
| `RouteReuse.RouteConfig.constructor` | src/app/strategies/route-reuse.strategy.ts:10 | a route configuration holds its path |
| `RouteReuse.StoreKey` | src/app/strategies/route-reuse.strategy.ts:15-16 | the key `employee-<id>` |
| `RouteReuse.Stored` | src/app/strategies/route-reuse.strategy.ts:13-18 | the cache after `store` |
| `RouteReuse.Lookup` | src/app/strategies/route-reuse.strategy.ts:28-34 | what `retrieve` gives from a cache |
| `RouteReuse.StoreThenLookup` | src/app/strategies/route-reuse.strategy.ts:13-34 | after storing a handle for an employee route, the route is cached and retrieving it gives the handle back; other routes store and retrieve nothing |
| `RouteReuse.NullStoreStillAttaches` | src/app/strategies/route-reuse.strategy.ts:16-31 | after a null handle is stored for an employee route, `has` is true while `retrieve` gives null |
| `RouteReuse.StoreOverwrites` | src/app/strategies/route-reuse.strategy.ts:16 | storing again for the same employee overwrites the earlier handle |
| `RouteReuse.DistinctIdsDoNotInterfere` | src/app/strategies/route-reuse.strategy.ts:15-16 | storing for one employee id leaves whether another is cached, and what is retrieved for it, unchanged |
| `RouteReuse.CustomRouteReuseStrategy.constructor` | src/app/strategies/route-reuse.strategy.ts:6 | the cache starts empty |
| `RouteReuse.CustomRouteReuseStrategy.ShouldDetach` | src/app/strategies/route-reuse.strategy.ts:8-11 | true exactly for the `employee/:id` route |
| `RouteReuse.CustomRouteReuseStrategy.Store` | src/app/strategies/route-reuse.strategy.ts:13-18 | records the handle, null included, under `employee-<id>` for employee routes only |
| `RouteReuse.CustomRouteReuseStrategy.ShouldAttach` | src/app/strategies/route-reuse.strategy.ts:20-26 | true exactly when an entry, possibly null, is cached for this employee route; never for other routes |
| `RouteReuse.CustomRouteReuseStrategy.Retrieve` | src/app/strategies/route-reuse.strategy.ts:28-34 | the cached entry when attaching is allowed, otherwise null; a handle is returned only for an attachable route |
| `RouteReuse.CustomRouteReuseStrategy.ShouldReuseRoute` | src/app/strategies/route-reuse.strategy.ts:36-38 | true exactly when both snapshots share the same configuration object |
| `RouteReuse.ReuseIsByReference` | src/app/strategies/route-reuse.strategy.ts:37 | two distinct configurations with the same path are not reused |
| `DynamicNotes.AuthorName` | src/app/components/shared/dynamic-notes/dynamic-notes.component.ts:248 | the author is the current user, or "Unknown User" when that is empty |
| `DynamicNotes.DeleteRemovesEveryMatch` | src/app/components/shared/dynamic-notes/dynamic-notes.component.ts:258 | deleting removes every note with the id and keeps the rest, with multiplicity, in order |
| `DynamicNotes.DynamicNotesComponent.constructor` | src/app/components/shared/dynamic-notes/dynamic-notes.component.ts:222-228 | no notes, the input closed and an empty draft |
| `DynamicNotes.DynamicNotesComponent.ToggleAddNote` | src/app/components/shared/dynamic-notes/dynamic-notes.component.ts:234-239 | flips the input, and closing it clears the draft |
| `DynamicNotes.DynamicNotesComponent.AddNote` | src/app/components/shared/dynamic-notes/dynamic-notes.component.ts:241-255 | a blank draft changes nothing (242); otherwise exactly one note with the trimmed draft and the author is put in front (244-251), and the input closes and clears (253-254) |
| `DynamicNotes.DynamicNotesComponent.DeleteNote` | src/app/components/shared/dynamic-notes/dynamic-notes.component.ts:257-260 | the notes become the filter without that id; the input is untouched |
| `DeleteConfirmation.DeleteConfirmationModalComponent.constructor` | src/app/components/shared/delete-confirmation-modal/delete-confirmation-modal.component.ts:275-280 | no employee, not deleting, nothing emitted |
| `DeleteConfirmation.DeleteConfirmationModalComponent.SetEmployee` | src/app/components/shared/delete-confirmation-modal/delete-confirmation-modal.component.ts:276 | binding the input changes only the employee |
| `DeleteConfirmation.DeleteConfirmationModalComponent.OnConfirm` | src/app/components/shared/delete-confirmation-modal/delete-confirmation-modal.component.ts:282-289 | with an employee and not deleting, latches and emits `confirmed` once with that employee; otherwise does nothing; `confirmed` fires at most once and the latch never resets |
| `DeleteConfirmation.DeleteConfirmationModalComponent.OnCancel` | src/app/components/shared/delete-confirmation-modal/delete-confirmation-modal.component.ts:291-295 | emits `cancelled` exactly when not deleting |
| `Forms.FirstError` | src/app/components/employee-form/employee-form.component.ts:171-182 | the first error kind in the priority order that is present, or nothing exactly when none is |
| `Forms.ErrorMessage` | src/app/components/employee-form/employee-form.component.ts:171-182 | the message text for each error kind, shared with signup.component.ts:108-119 |
| `Forms.FieldError` | src/app/components/employee-form/employee-form.component.ts:168-185 | empty exactly when the control is missing, untouched or error-free in the checked kinds; otherwise the message of its first error |
| `Forms.FormGroup.constructor` | src/app/components/employee-form/employee-form.component.ts:45-53 | a group holds its controls in declaration order, with no group error, and is pristine |
| `Forms.FormGroup.MarkAllTouched` | src/app/components/employee-form/employee-form.component.ts:161-166 | every control is marked touched and nothing else changes |
| `Forms.FormGroup.SetValue` | src/app/components/employee-form/employee-form.component.ts:154 | a user edit sets the control's value and errors and makes the form dirty |
| `EmployeeList.SearchKeepsExactlyMatching` | src/app/components/employee-list/employee-list.component.ts:39-48 | an empty term keeps the whole list; otherwise the ordered subsequence of exactly the matching employees, as the store's filter selector gives |
| `EmployeeList.FilteredEmployees` | src/app/components/employee-list/employee-list.component.ts:39-48 | the page's `filteredEmployees`; its meaning is proved by `EmployeeList.SearchKeepsExactlyMatching` |
| `EmployeeList.CanEditEmployee` | src/app/components/employee-list/employee-list.component.ts:134-137 | true exactly for an administrator or the user with the employee's email; false with nobody signed in |
| `EmployeeList.CanDeleteEmployee` | src/app/components/employee-list/employee-list.component.ts:139-141 | true exactly for an administrator; implies edit permission; false with nobody signed in |
| `EmployeeList.DeleteIgnoresEmployee` | src/app/components/employee-list/employee-list.component.ts:139-141 | whether a row may be deleted does not depend on the row |
| `EmployeeList.OnAdd` | src/app/components/employee-list/employee-list.component.ts:126-132 | administrators navigate to the form; everyone else gets the alert only |
| `EmployeeList.EmployeeListComponent.constructor` | src/app/components/employee-list/employee-list.component.ts:38-52 | empty search and empty local list |
| `EmployeeList.EmployeeListComponent.OnSearch` | src/app/components/employee-list/employee-list.component.ts:78-81 | the text becomes the term and the rows become the filtered list |
| `EmployeeList.EmployeeListComponent.SyncEmployees` | src/app/components/employee-list/employee-list.component.ts:66-71 | each list the store emits replaces the local copy, and the rows follow it |
| `EmployeeForm.Validate` | src/app/components/employee-form/employee-form.component.ts:45-53 | a control's validators report only non-empty errors and never a password mismatch |
| `EmployeeForm.MobileValidIffTenDigits` | src/app/components/employee-form/employee-form.component.ts:49 | a mobile number is valid exactly when it is ten digits |
| `EmployeeForm.NameNeedsTwoCharacters` | src/app/components/employee-form/employee-form.component.ts:46 | a name is valid exactly when it has at least two characters, and a short one reports length 2 |
| `EmployeeForm.RequiredFields` | src/app/components/employee-form/employee-form.component.ts:45-53 | every control but `isActive` is required; `isActive` never fails |
| `EmployeeForm.InitialControls` | src/app/components/employee-form/employee-form.component.ts:45-53 | the group has exactly the seven declared controls |
| `EmployeeForm.Patched` | src/app/components/employee-form/employee-form.component.ts:88-96 | every declared control takes the employee's field; an enabled one is validated again and a disabled one keeps its errors; touched and disabled flags and any other control are kept |
| `EmployeeForm.Locked` | src/app/components/employee-form/employee-form.component.ts:101-108 | exactly the named controls become disabled and lose their errors; values and touched flags are kept; other controls are unchanged |
| `EmployeeForm.RedirectsOnOpen` | src/app/components/employee-form/employee-form.component.ts:56-83 | never for an administrator; for anyone else exactly with no id (64-68), or for an existing employee not their own (75-80) |
| `EmployeeForm.RecordId` | src/app/components/employee-form/employee-form.component.ts:122 | the route id when there is one, otherwise the generated id |
| `EmployeeForm.SubmittedRecord` | src/app/components/employee-form/employee-form.component.ts:120-130 | the record takes the id and each of the seven controls' raw values, disabled ones included |
| `EmployeeForm.LoadThenSubmitRoundTrip` | src/app/components/employee-form/employee-form.component.ts:88-130 | loading an employee and submitting the unchanged form reproduces it |
| `EmployeeForm.FieldErrorPriority` | src/app/components/employee-form/employee-form.component.ts:168-185 | required, then email, then minlength with its length, then pattern, else nothing |
| `EmployeeForm.EmployeeFormComponent.constructor` | src/app/components/employee-form/employee-form.component.ts:26-53 | the initial group, the administrator flag from the user, not editing, not submitted |
| `EmployeeForm.EmployeeFormComponent.NgOnInit` | src/app/components/employee-form/employee-form.component.ts:56-70 | edit mode exactly with a route id; the page redirects exactly as `RedirectsOnOpen` says, with the admin-only alert when there is no id and the own-record alert in edit mode, each followed by navigation to the list; a found record fills the form and locks it as `LoadEmployee` does; an unknown id leaves the form as it was; the group's errors and dirty flag never change |
| `EmployeeForm.EmployeeFormComponent.CheckEditPermissions` | src/app/components/employee-form/employee-form.component.ts:72-83 | a non-administrator asking for someone else's existing record gets the alert and goes back to the list, otherwise nothing |
| `EmployeeForm.EmployeeFormComponent.LoadEmployee` | src/app/components/employee-form/employee-form.component.ts:85-111 | a found record fills the form and, for a non-administrator on their own record, locks all but `mobile` |
| `EmployeeForm.EmployeeFormComponent.OnSubmit` | src/app/components/employee-form/employee-form.component.ts:118-143 | a valid form dispatches update in edit mode and add otherwise, marks submitted and navigates; an invalid one dispatches nothing and touches every control; neither changes the group's errors, the dirty flag or the own-record flag |
| `EmployeeForm.EmployeeFormComponent.UserInput` | src/app/components/employee-form/employee-form.component.ts:45-53 | typing into an enabled control revalidates it and makes the form dirty |
| `EmployeeForm.EmployeeFormComponent.CanDeactivate` | src/app/components/employee-form/employee-form.component.ts:149-159 | leaving is allowed after a submit or when pristine, otherwise exactly when the user confirms |
| `EmployeeForm.EmployeeFormComponent.GetFieldError` | src/app/components/employee-form/employee-form.component.ts:168-185 | no message for an unknown field |
| `Signup.Validate` | src/app/components/signup/signup.component.ts:28-33 | the control validators report only non-empty errors, never a mismatch or a pattern error |
| `Signup.PasswordNeedsSixCharacters` | src/app/components/signup/signup.component.ts:30 | a password is valid exactly when it has at least six characters |
| `Signup.InitialControls` | src/app/components/signup/signup.component.ts:28-33 | the group has exactly the four declared controls |
| `Signup.WithoutMismatch` | src/app/components/signup/signup.component.ts:45-50 | only `passwordMismatch` is removed, other errors stay, and an emptied error object becomes null |
| `Signup.WithoutMismatchClears` | src/app/components/signup/signup.component.ts:45-50 | no mismatch remains afterwards, and clearing again changes nothing |
| `Signup.NewEmployeeRecord` | src/app/components/signup/signup.component.ts:65-74 | the new employee's name is the email before the first '@', with empty department, mobile and position, active |
| `Signup.FieldErrorPriority` | src/app/components/signup/signup.component.ts:105-121 | required, then email, then minlength with its length, then password mismatch, else nothing |
| `Signup.SignupComponent.constructor` | src/app/components/signup/signup.component.ts:18-33 | the initial group, not loading, no messages |
| `Signup.SignupComponent.PasswordMatchValidator` | src/app/components/signup/signup.component.ts:36-53 | differing values set and return `{passwordMismatch: true}`; equal values strip only that error and return null |
| `Signup.Matched` | src/app/components/signup/signup.component.ts:40-50 | the confirmation control keeps its value and flags and carries exactly the mismatch error when the values differ, otherwise loses only that error |
| `Signup.SignupComponent.UserInput` | src/app/components/signup/signup.component.ts:33 | the edited control takes the value and its validators' errors, then the confirmation is updated by the group validator and nothing else changes; the group has an error and the confirmation a mismatch exactly when the passwords differ |
| `Signup.SignupComponent.OnSubmit` | src/app/components/signup/signup.component.ts:55-92 | a valid form signs up with the email as username (63); success dispatches the new employee, shows the message and goes to login; failure shows the error; a valid form's controls are left as they were; an invalid form only touches every control; the group's errors and dirty flag never change |
| `Signup.SignupComponent.GetFieldError` | src/app/components/signup/signup.component.ts:105-121 | no message for an unknown field |

## Left out

- Asynchrony: the RxJS `delay`s, `mergeMap` interleaving of concurrent requests, the 500 ms delay before the dialog emits `confirmed`, and the 2 s delay before sign-up navigates. Each store call and effect is modelled as completing at once, in order.
- `DeleteConfirmation.DeleteConfirmationModalComponent.OnConfirm`: emits the employee bound at confirmation time. The source reads the input again after its delay and could emit a different employee if the host rebinds it in between.
- Randomness and clocks are parameters:
  - `Math.random` ids are `newId`, `newUserId`, `newEmployeeId` and `generated`;
  - `Date.now` for note ids is `now`;
  - `new Date` for timestamps and join dates is `stamp` and `today`.
  The code does not guarantee that generated ids are fresh, so the sync lemmas take freshness as a precondition.
- Browser storage is I/O and is not modelled: `checkAuthStatus`, the `localStorage` writes in `login`/`logout`, and `loadNotes`/`saveNotes`.
- Dates: `joinDate` is kept as its ISO `YYYY-MM-DD` text. So `formatDateForInput` and `new Date(formValue.joinDate)` are identities in the model.
- Unicode case folding: `toLowerCase` is modelled on ASCII letters only.
- Angular's email validator rule is not shown in the code. It is given as the parameter `isEmail`.
- Angular's `minLength`, `email` and `pattern` validators pass an empty value, and `required` fails it. This is Angular's documented behaviour, written out in `Validate`.
- `EmployeeForm.EmployeeFormComponent.LoadEmployee`: the six `disable()` calls are modelled as one value-level update, `Locked`. It marks the controls disabled and drops their errors. It does not model Angular's group status when every control is disabled.
- `EmployeeForm.EmployeeFormComponent.NgOnInit`: the store subscriptions in `checkEditPermissions` and `loadEmployee` are evaluated once, against the list at that moment. Later emissions are not modelled.
- `EmployeeList.EmployeeListComponent.SyncEmployees`: models one emission of the store subscription. The subscription plumbing itself is not modelled.
- `Signup.SignupComponent.UserInput`: models Angular recomputing validity after an edit. The control's validators run, then the group validator runs and its result becomes the group's errors.
- `Signup.SignupComponent.OnSubmit`: the role text becomes a role, where `"admin"` is an administrator and anything else a user.
- `alert`, `confirm` and `router.navigate`:
  - alerts and navigations are returned as `UiEffect` values;
  - the user's answer to `confirm` is the parameter `userConfirms`;
  - the route's `id` parameter is the parameter `routeId`.
- The list page's delete flow (`onDelete`, `showDeleteModal`, `handleDeleteConfirmed`, `hideDeleteModal`), `onEdit`, `ngOnInit`, `logout` and the form's `onCancel` are not modelled. They create and destroy the dialog through the view container and dispatch or navigate without any decision.
- Templates, styles and rendering are not part of this model: the card component, the status-highlight directive, the employee-detail component, and the routes and application configuration.
- `Forms.FormGroup.SetValue`: typing into a disabled control is not modelled, since the page cannot do it.
