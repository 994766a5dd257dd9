/** The add/edit employee page: its validator table, who may open it and which
    fields they may change, what a submit dispatches, when the page may be left,
    and the message shown under a field. */
module EmployeeForm {
  import opened Wrappers
  import opened Text
  import opened Model
  import opened Ui
  import opened Forms
  import EmployeeActions
  import EmployeeList

  const NameField := "name"
  const EmailField := "email"
  const DepartmentField := "department"
  const MobileField := "mobile"
  const PositionField := "position"
  const IsActiveField := "isActive"
  const JoinDateField := "joinDate"

  /** The controls of the group, in declaration order. */
  const FieldOrder := [NameField, EmailField, DepartmentField, MobileField, PositionField, IsActiveField, JoinDateField]

  /** The controls a non-administrator may not change on their own record: all but `mobile`. */
  const LockedFields := [NameField, EmailField, DepartmentField, PositionField, IsActiveField, JoinDateField]

  /** `/^\d{10}$/`: exactly ten ASCII digits. */
  predicate TenDigits(s: string)
  {
    |s| == 10 && forall i :: 0 <= i < |s| ==> IsDigit(s[i])
  }

  /** The validators of each control, composed: `required` fails on an empty value,
      `minLength(2)`, `email` and `pattern` pass an empty value. Whether a non-empty
      text is an acceptable email is Angular's rule and is given as `isEmail`. */
  function Validate(field: string, v: Value, isEmail: string -> bool): (r: Option<ValidationErrors>)
    ensures r.Some? ==> !r.value.IsEmpty() && !r.value.passwordMismatch
  {
    if field == IsActiveField || field !in FieldOrder then None
    else
      var s := TextOf(v);
      var e := NoErrors.(
        required := s == [],
        email := field == EmailField && s != [] && !isEmail(s),
        minlength := if field == NameField && s != [] && |s| < 2 then Some(2) else None,
        pattern := field == MobileField && s != [] && !TenDigits(s));
      if e.IsEmpty() then None else Some(e)
  }

  /** A mobile number passes its validators exactly when it is ten digits. */
  lemma MobileValidIffTenDigits(s: string, isEmail: string -> bool)
    ensures Validate(MobileField, Text(s), isEmail).None? <==> TenDigits(s)
  {
  }

  /** A name passes its validators exactly when it has at least two characters; a short
      non-empty name reports the required length 2. */
  lemma NameNeedsTwoCharacters(s: string, isEmail: string -> bool)
    ensures Validate(NameField, Text(s), isEmail).None? <==> |s| >= 2
    ensures 0 < |s| < 2 ==> Validate(NameField, Text(s), isEmail) == Some(NoErrors.(minlength := Some(2)))
  {
  }

  /** Every control except `isActive` is required; `isActive` never fails. */
  lemma RequiredFields(field: string, isEmail: string -> bool, on: bool)
    requires field in FieldOrder
    ensures field != IsActiveField ==> Validate(field, Text([]), isEmail) == Some(NoErrors.(required := true))
    ensures Validate(IsActiveField, Flag(on), isEmail).None?
  {
  }

  /** A fresh control holding `v`, validated. */
  function NewControl(field: string, v: Value, isEmail: string -> bool): Control
  {
    Control(v, Validate(field, v, isEmail), false, false)
  }

  /** The group `fb.group(...)` builds: empty texts and `isActive` checked. */
  function InitialControls(isEmail: string -> bool): (m: map<string, Control>)
    ensures forall k :: k in m <==> k in FieldOrder
  {
    map[NameField := NewControl(NameField, Text([]), isEmail),
        EmailField := NewControl(EmailField, Text([]), isEmail),
        DepartmentField := NewControl(DepartmentField, Text([]), isEmail),
        MobileField := NewControl(MobileField, Text([]), isEmail),
        PositionField := NewControl(PositionField, Text([]), isEmail),
        IsActiveField := NewControl(IsActiveField, Flag(true), isEmail),
        JoinDateField := NewControl(JoinDateField, Text([]), isEmail)]
  }

  /** The value `patchValue` gives a control when loading `e`. */
  function FieldValue(e: Employee, field: string): Value
  {
    if field == NameField then Text(e.name)
    else if field == EmailField then Text(e.email)
    else if field == DepartmentField then Text(e.department)
    else if field == MobileField then Text(e.mobile)
    else if field == PositionField then Text(e.position)
    else if field == IsActiveField then Flag(e.isActive)
    else Text(e.joinDate)
  }

  /** `patchValue` with the fields of `e`: every named control takes the new value; an
      enabled one is validated again, a disabled one keeps the errors it had. */
  function Patched(controls: map<string, Control>, e: Employee, isEmail: string -> bool): (m: map<string, Control>)
    ensures m.Keys == controls.Keys
    ensures forall k :: k in m ==>
      m[k].touched == controls[k].touched && m[k].disabled == controls[k].disabled
    ensures forall k :: k in m && k in FieldOrder ==>
      m[k].value == FieldValue(e, k)
      && m[k].errors == if controls[k].disabled then controls[k].errors else Validate(k, FieldValue(e, k), isEmail)
    ensures forall k :: k in m && k !in FieldOrder ==> m[k] == controls[k]
  {
    map k | k in controls ::
      if k in FieldOrder then
        var v := FieldValue(e, k);
        controls[k].(value := v, errors := if controls[k].disabled then controls[k].errors else Validate(k, v, isEmail))
      else controls[k]
  }

  /** The controls after `disable()` on each of `names`: a disabled control takes no
      part in validation, so its errors are cleared. */
  function Locked(controls: map<string, Control>, names: seq<string>): (m: map<string, Control>)
    ensures m.Keys == controls.Keys
    ensures forall k :: k in m ==> (m[k].disabled <==> controls[k].disabled || k in names)
    ensures forall k :: k in m ==> m[k].value == controls[k].value && m[k].touched == controls[k].touched
    ensures forall k :: k in m && k in names ==> m[k].errors.None?
    ensures forall k :: k in m && k !in names ==> m[k] == controls[k]
  {
    map k | k in controls :: if k in names then controls[k].(disabled := true, errors := None) else controls[k]
  }

  /** `employee.email === currentUser?.email`. */
  predicate IsOwnRecord(currentUser: Option<User>, e: Employee)
  {
    currentUser.Some? && e.email == currentUser.value.email
  }

  /** Whether opening the page sends the user back to the list: a non-administrator
      with no id in the route, or asking for an existing employee that is not their own. */
  function RedirectsOnOpen(currentUser: Option<User>, routeId: Option<string>, employees: seq<Employee>): (b: bool)
    ensures EmployeeList.IsAdmin(currentUser) ==> !b
    ensures b && routeId.Some? && routeId.value != [] ==>
      FindById(employees, routeId.value).Some? && !IsOwnRecord(currentUser, FindById(employees, routeId.value).value)
    ensures !b && !EmployeeList.IsAdmin(currentUser) ==>
      routeId.Some? && routeId.value != [] && (FindById(employees, routeId.value).None?
                                               || IsOwnRecord(currentUser, FindById(employees, routeId.value).value))
  {
    if routeId.Some? && routeId.value != [] then
      !EmployeeList.IsAdmin(currentUser)
      && match FindById(employees, routeId.value)
         case None => false
         case Some(e) => !IsOwnRecord(currentUser, e)
    else !EmployeeList.IsAdmin(currentUser)
  }

  /** `this.employeeId() || this.generateId()`: the route id when there is one. */
  function RecordId(employeeId: Option<string>, generated: string): (id: string)
    ensures employeeId.Some? && employeeId.value != [] ==> id == employeeId.value
    ensures employeeId.None? || employeeId.value == [] ==> id == generated
  {
    if employeeId.Some? && employeeId.value != [] then employeeId.value else generated
  }

  /** The record `onSubmit` builds from `getRawValue()` (disabled controls included). */
  function SubmittedRecord(controls: map<string, Control>, id: string): (e: Employee)
    requires forall k :: k in FieldOrder ==> k in controls
    ensures e.id == id && e.name == TextOf(controls[NameField].value) && e.email == TextOf(controls[EmailField].value)
    ensures e.mobile == TextOf(controls[MobileField].value) && e.isActive == FlagOf(controls[IsActiveField].value)
    ensures e.department == TextOf(controls[DepartmentField].value) && e.position == TextOf(controls[PositionField].value)
    ensures e.joinDate == TextOf(controls[JoinDateField].value)
  {
    Employee(id,
             TextOf(controls[NameField].value),
             TextOf(controls[EmailField].value),
             TextOf(controls[DepartmentField].value),
             TextOf(controls[MobileField].value),
             FlagOf(controls[IsActiveField].value),
             TextOf(controls[JoinDateField].value),
             TextOf(controls[PositionField].value))
  }

  /** Loading an employee and then submitting the unchanged form reproduces it, under
      its own id. */
  lemma LoadThenSubmitRoundTrip(controls: map<string, Control>, e: Employee, isEmail: string -> bool)
    requires forall k :: k in controls <==> k in FieldOrder
    ensures SubmittedRecord(Patched(controls, e, isEmail), e.id) == e
  {
    var m := Patched(controls, e, isEmail);
    assert m[NameField].value == Text(e.name);
    assert m[EmailField].value == Text(e.email);
    assert m[DepartmentField].value == Text(e.department);
    assert m[MobileField].value == Text(e.mobile);
    assert m[PositionField].value == Text(e.position);
    assert m[IsActiveField].value == Flag(e.isActive);
    assert m[JoinDateField].value == Text(e.joinDate);
  }

  /** The `getFieldError` priority: required, then email, then minlength, then pattern. */
  const FormErrorOrder := [Required, Email, MinLength, Pattern]

  /** The messages `getFieldError` gives, by the first error present. */
  lemma FieldErrorPriority(fieldName: string, c: Control)
    requires c.touched && c.errors.Some?
    ensures var e := c.errors.value; var r := FieldError(fieldName, Some(c), FormErrorOrder);
      (e.required ==> r == fieldName + " is required")
      && (!e.required && e.email ==> r == "Please enter a valid email")
      && (!e.required && !e.email && e.minlength.Some? ==>
            r == fieldName + " must be at least " + NatToString(e.minlength.value) + " characters")
      && (!e.required && !e.email && e.minlength.None? && e.pattern ==>
            r == "Please enter a valid 10-digit mobile number")
      && (!e.required && !e.email && e.minlength.None? && !e.pattern ==> r == [])
  {
    var e := c.errors.value;
    var rest1, rest2, rest3 := [Email, MinLength, Pattern], [MinLength, Pattern], [Pattern];
    assert FormErrorOrder[1..] == rest1 && rest1[1..] == rest2 && rest2[1..] == rest3 && rest3[1..] == [];
    if !e.required {
      assert FirstError(e, FormErrorOrder) == FirstError(e, rest1);
      if !e.email {
        assert FirstError(e, rest1) == FirstError(e, rest2);
        if e.minlength.None? {
          assert FirstError(e, rest2) == FirstError(e, rest3);
        }
      }
    }
  }

  class EmployeeFormComponent {
    const form: FormGroup
    const currentUser: Option<User>
    const isAdmin: bool
    /** The email validator's verdict on a non-empty text. */
    const isEmail: string -> bool
    var isEditMode: bool
    var employeeId: Option<string>
    var formSubmitted: bool
    var isEditingOwnRecord: bool

    ghost predicate Valid()
      reads this, form
    {
      form.Valid() && form.order == FieldOrder && isAdmin == EmployeeList.IsAdmin(currentUser)
    }

    constructor (currentUser: Option<User>, isEmail: string -> bool)
      ensures Valid() && fresh(form)
      ensures form.controls == InitialControls(isEmail) && form.errors.None? && !form.dirty
      ensures this.currentUser == currentUser && this.isEmail == isEmail
      ensures isAdmin == EmployeeList.IsAdmin(currentUser)
      ensures !isEditMode && employeeId.None? && !formSubmitted && !isEditingOwnRecord
    {
      form := new FormGroup(InitialControls(isEmail), FieldOrder);
      this.currentUser := currentUser;
      this.isEmail := isEmail;
      isAdmin := EmployeeList.IsAdmin(currentUser);
      isEditMode := false;
      employeeId := None;
      formSubmitted := false;
      isEditingOwnRecord := false;
    }

    /** `ngOnInit`, with the route's `id` parameter and the store's list at that moment:
        a non-empty id puts the page in edit mode, checks permissions and loads the
        record; no id sends a non-administrator back with an alert. */
    method NgOnInit(routeId: Option<string>, employees: seq<Employee>) returns (effects: seq<UiEffect>)
      requires Valid()
      modifies this, form
      ensures Valid()
      ensures effects != [] <==> RedirectsOnOpen(currentUser, routeId, employees)
      ensures routeId.Some? && routeId.value != [] <==> isEditMode
      ensures isEditMode ==> employeeId == routeId
      ensures !isEditMode ==> form.controls == old(form.controls) && employeeId == old(employeeId)
      ensures isEditMode && FindById(employees, routeId.value).Some? ==>
        form.controls.Keys == old(form.controls).Keys
        && (forall k :: k in form.controls ==> form.controls[k].value == FieldValue(FindById(employees, routeId.value).value, k))
      ensures formSubmitted == old(formSubmitted) && form.errors == old(form.errors) && form.dirty == old(form.dirty)
      ensures !isEditMode ==>
        isEditingOwnRecord == old(isEditingOwnRecord)
        && effects == if isAdmin then [] else [Alert(AdminOnlyAdd), Navigate(["/employees"])]
      ensures isEditMode ==>
        effects == if RedirectsOnOpen(currentUser, routeId, employees) then [Alert(OwnRecordOnly), Navigate(["/employees"])] else []
      ensures isEditMode && FindById(employees, routeId.value).None? ==>
        form.controls == old(form.controls) && isEditingOwnRecord == old(isEditingOwnRecord)
      ensures isEditMode && FindById(employees, routeId.value).Some? ==>
        var e := FindById(employees, routeId.value).value;
        var patched := Patched(old(form.controls), e, isEmail);
        isEditingOwnRecord == IsOwnRecord(currentUser, e)
        && form.controls == if !isAdmin && isEditingOwnRecord then Locked(patched, LockedFields) else patched
    {
      if routeId.Some? && routeId.value != [] {
        isEditMode := true;
        employeeId := routeId;
        effects := CheckEditPermissions(routeId.value, employees);
        LoadEmployee(routeId.value, employees);
      } else {
        isEditMode := false;
        effects := if !isAdmin then [Alert(AdminOnlyAdd), Navigate(["/employees"])] else [];
      }
    }

    /** `checkEditPermissions`: a non-administrator asking for someone else's existing
        record is sent back to the list with an alert. */
    method CheckEditPermissions(id: string, employees: seq<Employee>) returns (effects: seq<UiEffect>)
      ensures effects != [] <==> !isAdmin && FindById(employees, id).Some? && !IsOwnRecord(currentUser, FindById(employees, id).value)
      ensures effects != [] ==> effects == [Alert(OwnRecordOnly), Navigate(["/employees"])]
    {
      effects := [];
      if !isAdmin {
        var employee := FindById(employees, id);
        if employee.Some? && !IsOwnRecord(currentUser, employee.value) {
          effects := [Alert(OwnRecordOnly), Navigate(["/employees"])];
        }
      }
    }

    /** `loadEmployee`: fills the form with the record, and locks every field but
        `mobile` when a non-administrator edits their own record. */
    method LoadEmployee(id: string, employees: seq<Employee>)
      requires Valid()
      modifies this, form
      ensures Valid() && form.errors == old(form.errors) && form.dirty == old(form.dirty)
      ensures isEditMode == old(isEditMode) && employeeId == old(employeeId) && formSubmitted == old(formSubmitted)
      ensures FindById(employees, id).None? ==> form.controls == old(form.controls)
                                                && isEditingOwnRecord == old(isEditingOwnRecord)
      ensures FindById(employees, id).Some? ==>
        var e := FindById(employees, id).value;
        var patched := Patched(old(form.controls), e, isEmail);
        isEditingOwnRecord == IsOwnRecord(currentUser, e)
        && form.controls == if !isAdmin && isEditingOwnRecord then Locked(patched, LockedFields) else patched
    {
      var employee := FindById(employees, id);
      if employee.Some? {
        var e := employee.value;
        form.controls := Patched(form.controls, e, isEmail);
        isEditingOwnRecord := IsOwnRecord(currentUser, e);
        if !isAdmin && isEditingOwnRecord {
          form.controls := Locked(form.controls, LockedFields);
        }
      }
    }

    /** `onSubmit`: a valid form dispatches `updateEmployee` in edit mode and
        `addEmployee` otherwise, with the record under the route id or `generated`;
        an invalid one dispatches nothing and marks every control touched. */
    method OnSubmit(generated: string) returns (dispatched: Option<EmployeeActions.Action>, effects: seq<UiEffect>)
      requires Valid()
      modifies this, form
      ensures Valid() && isEditMode == old(isEditMode) && employeeId == old(employeeId)
      ensures form.errors == old(form.errors) && form.dirty == old(form.dirty)
      ensures isEditingOwnRecord == old(isEditingOwnRecord)
      ensures dispatched.Some? <==> old(form.IsValid())
      ensures old(form.IsValid()) ==>
        var record := SubmittedRecord(old(form.controls), RecordId(employeeId, generated));
        form.controls == old(form.controls) && formSubmitted
        && dispatched.value == (if isEditMode then EmployeeActions.UpdateEmployee(record) else EmployeeActions.AddEmployee(record))
        && effects == [Navigate(["/employees"])]
      ensures !old(form.IsValid()) ==>
        formSubmitted == old(formSubmitted) && effects == []
        && form.controls.Keys == old(form.controls).Keys
        && forall k :: k in form.controls ==> form.controls[k] == old(form.controls)[k].(touched := true)
    {
      if form.IsValid() {
        var record := SubmittedRecord(form.controls, RecordId(employeeId, generated));
        dispatched := Some(if isEditMode then EmployeeActions.UpdateEmployee(record) else EmployeeActions.AddEmployee(record));
        formSubmitted := true;
        effects := [Navigate(["/employees"])];
      } else {
        form.MarkAllTouched();
        dispatched := None;
        effects := [];
      }
    }

    /** The user typing into an enabled control: its validators run and the form
        becomes dirty. */
    method UserInput(field: string, v: Value)
      requires Valid() && field in FieldOrder && !form.controls[field].disabled
      modifies form
      ensures Valid() && form.dirty && form.errors == old(form.errors)
      ensures form.controls == old(form.controls)[field := old(form.controls)[field].(value := v, errors := Validate(field, v, isEmail))]
    {
      form.SetValue(field, v, Validate(field, v, isEmail));
    }

    /** `canDeactivate`, with the user's answer to the unsaved-changes prompt. */
    function CanDeactivate(userConfirms: bool): (b: bool)
      reads this, form
      ensures formSubmitted || !form.dirty ==> b
      ensures !formSubmitted && form.dirty ==> (b <==> userConfirms)
    {
      if formSubmitted then true
      else if form.dirty then userConfirms
      else true
    }

    /** `getFieldError`. */
    function GetFieldError(fieldName: string): (r: string)
      reads this, form
      ensures fieldName !in form.controls ==> r == []
    {
      FieldError(fieldName, form.Get(fieldName), FormErrorOrder)
    }
  }
}
