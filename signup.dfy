/** The sign-up page: its validators, the group validator that keeps password and
    confirmation equal, the message shown under a field, and what a submit does with
    the credential store and the employee store. */
module Signup {
  import opened Wrappers
  import opened Text
  import opened Model
  import opened Ui
  import opened Forms
  import EmployeeActions
  import Auth

  const EmailField := "email"
  const PasswordField := "password"
  const ConfirmField := "confirmPassword"
  const RoleField := "role"

  const FieldOrder := [EmailField, PasswordField, ConfirmField, RoleField]

  const SignupSucceeded := "Account created successfully! You can now login."

  /** `{ passwordMismatch: true }`. */
  const MismatchOnly := NoErrors.(passwordMismatch := true)

  /** The control validators: every control is required, `email` must be accepted by the
      email rule `isEmail`, and `password` needs six characters; only `required` fails on
      an empty value. */
  function Validate(field: string, v: Value, isEmail: string -> bool): (r: Option<ValidationErrors>)
    ensures r.Some? ==> !r.value.IsEmpty() && !r.value.passwordMismatch && !r.value.pattern
  {
    if field !in FieldOrder then None
    else
      var s := TextOf(v);
      var e := NoErrors.(
        required := s == [],
        email := field == EmailField && s != [] && !isEmail(s),
        minlength := if field == PasswordField && s != [] && |s| < 6 then Some(6) else None);
      if e.IsEmpty() then None else Some(e)
  }

  /** A password passes its validators exactly when it has at least six characters. */
  lemma PasswordNeedsSixCharacters(s: string, isEmail: string -> bool)
    ensures Validate(PasswordField, Text(s), isEmail).None? <==> |s| >= 6
  {
  }

  function NewControl(field: string, v: Value, isEmail: string -> bool): Control
  {
    Control(v, Validate(field, v, isEmail), false, false)
  }

  /** The group `fb.group(...)` builds: empty texts and the role `'user'`. */
  function InitialControls(isEmail: string -> bool): (m: map<string, Control>)
    ensures forall k :: k in m <==> k in FieldOrder
  {
    map[EmailField := NewControl(EmailField, Text([]), isEmail),
        PasswordField := NewControl(PasswordField, Text([]), isEmail),
        ConfirmField := NewControl(ConfirmField, Text([]), isEmail),
        RoleField := NewControl(RoleField, Text("user"), isEmail)]
  }

  /** What the validator leaves of the confirmation's errors when the passwords agree:
      `passwordMismatch` is deleted, the other errors stay, and an error object left
      empty becomes null. */
  function WithoutMismatch(errors: Option<ValidationErrors>): (r: Option<ValidationErrors>)
    ensures errors.None? ==> r.None?
    ensures r.Some? ==> errors.Some? && r.value == errors.value.(passwordMismatch := false)
    ensures errors.Some? && !errors.value.passwordMismatch ==> r == errors
    ensures errors.Some? && errors.value.passwordMismatch ==>
              (r.None? <==> errors.value.(passwordMismatch := false).IsEmpty())
  {
    if errors.Some? && errors.value.passwordMismatch then
      var rest := errors.value.(passwordMismatch := false);
      if rest.IsEmpty() then None else Some(rest)
    else errors
  }

  /** After `WithoutMismatch` no mismatch is reported, and applying it again changes nothing. */
  lemma WithoutMismatchClears(errors: Option<ValidationErrors>)
    ensures var r := WithoutMismatch(errors); (r.Some? ==> !r.value.passwordMismatch) && WithoutMismatch(r) == r
  {
  }

  /** The confirmation control as the group validator leaves it: marked with a mismatch
      when the values differ, otherwise stripped of that one error. */
  function Matched(password: Control, confirm: Control): (c: Control)
    ensures c.value == confirm.value && c.touched == confirm.touched && c.disabled == confirm.disabled
    ensures password.value != confirm.value ==> c.errors == Some(MismatchOnly)
    ensures password.value == confirm.value ==> c.errors == WithoutMismatch(confirm.errors)
  {
    if password.value != confirm.value then confirm.(errors := Some(MismatchOnly))
    else confirm.(errors := WithoutMismatch(confirm.errors))
  }

  /** The part of the address before the first '@' (the whole text when it has none). */
  function NewEmployeeRecord(email: string, id: string, joinDate: string): (e: Employee)
    ensures e.id == id && e.email == email && e.joinDate == joinDate
    ensures e.name <= email && '@' !in e.name
    ensures |e.name| < |email| ==> email[|e.name|] == '@'
    ensures '@' !in email ==> e.name == email
    ensures e.department == [] && e.mobile == [] && e.position == [] && e.isActive
  {
    Employee(id, BeforeFirst(email, '@'), email, [], [], true, joinDate, [])
  }

  /** The role the select control holds. */
  function RoleOf(s: string): Role
  {
    if s == "admin" then AdminRole else UserRole
  }

  const SignupErrorOrder := [Required, Email, MinLength, PasswordMismatch]

  /** The messages `getFieldError` gives, by the first error present: required, then
      email, then minlength, then passwordMismatch. */
  lemma FieldErrorPriority(fieldName: string, c: Control)
    requires c.touched && c.errors.Some?
    ensures var e := c.errors.value; var r := FieldError(fieldName, Some(c), SignupErrorOrder);
      (e.required ==> r == fieldName + " is required")
      && (!e.required && e.email ==> r == "Please enter a valid email")
      && (!e.required && !e.email && e.minlength.Some? ==>
            r == fieldName + " must be at least " + NatToString(e.minlength.value) + " characters")
      && (!e.required && !e.email && e.minlength.None? && e.passwordMismatch ==> r == "Passwords do not match")
      && (!e.required && !e.email && e.minlength.None? && !e.passwordMismatch ==> r == [])
  {
    var e := c.errors.value;
    var rest1, rest2, rest3 := [Email, MinLength, PasswordMismatch], [MinLength, PasswordMismatch], [PasswordMismatch];
    assert SignupErrorOrder[1..] == rest1 && rest1[1..] == rest2 && rest2[1..] == rest3 && rest3[1..] == [];
    if !e.required {
      assert FirstError(e, SignupErrorOrder) == FirstError(e, rest1);
      if !e.email {
        assert FirstError(e, rest1) == FirstError(e, rest2);
        if e.minlength.None? {
          assert FirstError(e, rest2) == FirstError(e, rest3);
        }
      }
    }
  }

  class SignupComponent {
    const form: FormGroup
    const isEmail: string -> bool
    var loading: bool
    var error: Option<string>
    var success: Option<string>

    ghost predicate Valid()
      reads this, form
    {
      form.Valid() && form.order == FieldOrder
    }

    constructor (isEmail: string -> bool)
      ensures Valid() && fresh(form)
      ensures form.controls == InitialControls(isEmail) && form.errors.None? && !form.dirty
      ensures this.isEmail == isEmail && !loading && error.None? && success.None?
    {
      form := new FormGroup(InitialControls(isEmail), FieldOrder);
      this.isEmail := isEmail;
      loading := false;
      error := None;
      success := None;
    }

    /** `passwordMatchValidator`: differing values put `{passwordMismatch: true}` on the
        confirmation and return it; equal values remove only that error from the
        confirmation and return null. */
    method PasswordMatchValidator() returns (r: Option<ValidationErrors>)
      requires Valid()
      modifies form
      ensures Valid() && form.errors == old(form.errors) && form.dirty == old(form.dirty)
      ensures var password := old(form.controls)[PasswordField]; var confirm := old(form.controls)[ConfirmField];
        if password.value != confirm.value then
          r == Some(MismatchOnly) && form.controls == old(form.controls)[ConfirmField := confirm.(errors := Some(MismatchOnly))]
        else
          r.None? && form.controls == old(form.controls)[ConfirmField := confirm.(errors := WithoutMismatch(confirm.errors))]
    {
      var password := form.controls[PasswordField];
      var confirm := form.controls[ConfirmField];
      if password.value != confirm.value {
        form.controls := form.controls[ConfirmField := confirm.(errors := Some(MismatchOnly))];
        r := Some(MismatchOnly);
      } else {
        form.controls := form.controls[ConfirmField := confirm.(errors := WithoutMismatch(confirm.errors))];
        r := None;
      }
    }

    /** The user typing into a control: its own validators run, then the group validator,
        whose result becomes the group's errors. */
    method UserInput(field: string, v: Value)
      requires Valid() && field in FieldOrder
      modifies form
      ensures Valid() && form.dirty
      ensures var edited := old(form.controls)[field := old(form.controls)[field].(value := v, errors := Validate(field, v, isEmail))];
        form.controls == edited[ConfirmField := Matched(edited[PasswordField], edited[ConfirmField])]
        && form.errors == if edited[PasswordField].value != edited[ConfirmField].value then Some(MismatchOnly) else None
      ensures form.errors.Some? <==> form.controls[PasswordField].value != form.controls[ConfirmField].value
      ensures form.controls[field].value == v
      ensures (form.controls[ConfirmField].errors.Some? && form.controls[ConfirmField].errors.value.passwordMismatch)
          <==> form.controls[PasswordField].value != form.controls[ConfirmField].value
    {
      form.SetValue(field, v, Validate(field, v, isEmail));
      var r := PasswordMatchValidator();
      form.errors := r;
    }

    /** `onSubmit`: a valid form signs up with the email as both email and username;
        on success an employee record for the new account is dispatched with
        `addEmployee` and the page moves to the login screen, on failure the store's
        message is shown. An invalid form only marks every control touched. */
    method OnSubmit(auth: Auth.AuthService, newUserId: string, newEmployeeId: string, today: string)
      returns (dispatched: Option<EmployeeActions.Action>, effects: seq<UiEffect>)
      requires Valid() && auth.Valid()
      modifies this, form, auth
      ensures Valid() && auth.Valid() && auth.currentUser == old(auth.currentUser)
      ensures form.errors == old(form.errors) && form.dirty == old(form.dirty)
      ensures old(form.IsValid()) ==> form.controls == old(form.controls)
      ensures var email := TextOf(old(form.controls)[EmailField].value);
        var password := TextOf(old(form.controls)[PasswordField].value);
        var role := RoleOf(TextOf(old(form.controls)[RoleField].value));
        var outcome := Auth.SignupRecord(old(auth.users), email, email, password, role, newUserId);
        if !old(form.IsValid()) then
          dispatched.None? && effects == [] && auth.users == old(auth.users)
          && loading == old(loading) && error == old(error) && success == old(success)
          && form.controls.Keys == old(form.controls).Keys
          && forall k :: k in form.controls ==> form.controls[k] == old(form.controls)[k].(touched := true)
        else if outcome.Ok? then
          auth.users == outcome.value && !loading && error.None? && success == Some(SignupSucceeded)
          && dispatched == Some(EmployeeActions.AddEmployee(NewEmployeeRecord(email, newEmployeeId, today)))
          && effects == [Navigate(["/login"])]
        else
          auth.users == old(auth.users) && dispatched.None? && effects == []
          && !loading && error == Some(outcome.message) && success.None?
    {
      if form.IsValid() {
        loading := true;
        error := None;
        success := None;
        var email := TextOf(form.controls[EmailField].value);
        var password := TextOf(form.controls[PasswordField].value);
        var role := RoleOf(TextOf(form.controls[RoleField].value));
        var r := auth.Signup(email, email, password, role, newUserId);
        if r.Ok? {
          dispatched := Some(EmployeeActions.AddEmployee(NewEmployeeRecord(email, newEmployeeId, today)));
          loading := false;
          success := Some(SignupSucceeded);
          effects := [Navigate(["/login"])];
        } else {
          dispatched := None;
          loading := false;
          error := Some(r.message);
          effects := [];
        }
      } else {
        form.MarkAllTouched();
        dispatched := None;
        effects := [];
      }
    }

    /** `getFieldError`. */
    function GetFieldError(fieldName: string): (r: string)
      reads this, form
      ensures fieldName !in form.controls ==> r == []
    {
      FieldError(fieldName, form.Get(fieldName), SignupErrorOrder)
    }
  }
}
