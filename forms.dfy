/** The reactive-forms state the components work with: a control is its value,
    its validation errors, whether it was touched and whether it is disabled;
    a form group is a keyed set of controls. Angular's own form machinery is
    not shown in the source; only the parts the components rely on are
    modelled here. */
module Forms {
  import opened Wrappers
  import opened Text

  datatype Value = Text(text: string) | Flag(on: bool)

  /** The raw string of a text control (a checkbox never stands where one is read). */
  function TextOf(v: Value): string
  {
    if v.Text? then v.text else []
  }

  /** The state of a checkbox control. */
  function FlagOf(v: Value): bool
  {
    v.Flag? && v.on
  }

  /** A validation error object: which error keys are present. `minlength` carries its
      `requiredLength`. */
  datatype ValidationErrors = ValidationErrors(
    required: bool,
    email: bool,
    minlength: Option<nat>,
    pattern: bool,
    passwordMismatch: bool)
  {
    /** `Object.keys(errors).length === 0`. */
    predicate IsEmpty()
    {
      !required && !email && minlength.None? && !pattern && !passwordMismatch
    }
  }

  const NoErrors := ValidationErrors(false, false, None, false, false)

  datatype ErrorKind = Required | Email | MinLength | Pattern | PasswordMismatch

  predicate Has(e: ValidationErrors, k: ErrorKind)
  {
    match k
    case Required => e.required
    case Email => e.email
    case MinLength => e.minlength.Some?
    case Pattern => e.pattern
    case PasswordMismatch => e.passwordMismatch
  }

  /** The first error kind, in the given priority order, that `e` has. */
  function FirstError(e: ValidationErrors, order: seq<ErrorKind>): (r: Option<ErrorKind>)
    ensures r.None? <==> forall i :: 0 <= i < |order| ==> !Has(e, order[i])
    ensures r.Some? ==> exists i :: 0 <= i < |order| && order[i] == r.value && Has(e, r.value)
                          && forall j :: 0 <= j < i ==> !Has(e, order[j])
  {
    if order == [] then None
    else if Has(e, order[0]) then Some(order[0])
    else
      var r := FirstError(e, order[1..]);
      assert r.Some? ==> exists i :: 0 <= i < |order| - 1 && order[1..][i] == r.value && Has(e, r.value)
                            && forall j :: 0 <= j < i ==> !Has(e, order[1..][j]);
      r
  }

  /** The message `getFieldError` shows for an error kind. */
  function ErrorMessage(fieldName: string, e: ValidationErrors, k: ErrorKind): string
  {
    match k
    case Required => fieldName + " is required"
    case Email => "Please enter a valid email"
    case MinLength =>
      fieldName + " must be at least "
      + (if e.minlength.Some? then NatToString(e.minlength.value) else "undefined") + " characters"
    case Pattern => "Please enter a valid 10-digit mobile number"
    case PasswordMismatch => "Passwords do not match"
  }

  datatype Control = Control(value: Value, errors: Option<ValidationErrors>, touched: bool, disabled: bool)

  /** The shared shape of both `getFieldError`s: nothing unless the named control exists,
      has errors and was touched; otherwise the message of its first error in `order`. */
  function FieldError(fieldName: string, field: Option<Control>, order: seq<ErrorKind>): (r: string)
    ensures r == [] <==> (field.None? || !field.value.touched || field.value.errors.None?
                          || FirstError(field.value.errors.value, order).None?)
    ensures r != [] ==> r == ErrorMessage(fieldName, field.value.errors.value,
                                          FirstError(field.value.errors.value, order).value)
  {
    if field.Some? && field.value.errors.Some? && field.value.touched then
      match FirstError(field.value.errors.value, order)
      case None => []
      case Some(k) => ErrorMessage(fieldName, field.value.errors.value, k)
    else []
  }

  /** A form group: controls by name, with `order` the order of `Object.keys(controls)`,
      the group validator's errors, and whether the user has changed any value. */
  class FormGroup {
    var controls: map<string, Control>
    const order: seq<string>
    var errors: Option<ValidationErrors>
    var dirty: bool

    ghost predicate Valid()
      reads this
    {
      forall k :: k in controls <==> k in order
    }

    constructor (controls: map<string, Control>, order: seq<string>)
      requires forall k :: k in controls <==> k in order
      ensures Valid() && this.controls == controls && this.order == order
      ensures errors == None && !dirty
    {
      this.controls := controls;
      this.order := order;
      errors := None;
      dirty := false;
    }

    /** `form.get(name)`. */
    function Get(name: string): Option<Control>
      reads this
    {
      if name in controls then Some(controls[name]) else None
    }

    /** `form.valid`: no group error and no control error. */
    predicate IsValid()
      reads this
    {
      errors.None? && forall k :: k in controls ==> controls[k].errors.None?
    }

    /** `markFormGroupTouched`: `Object.keys(controls).forEach(key => get(key).markAsTouched())`. */
    method MarkAllTouched()
      requires Valid()
      modifies this
      ensures Valid() && errors == old(errors) && dirty == old(dirty)
      ensures controls.Keys == old(controls).Keys
      ensures forall k :: k in controls ==> controls[k] == old(controls)[k].(touched := true)
    {
      var i := 0;
      while i < |order|
        invariant 0 <= i <= |order|
        invariant controls.Keys == old(controls).Keys
        invariant errors == old(errors) && dirty == old(dirty)
        invariant forall k :: k in controls ==>
                    controls[k] == if k in order[..i] then old(controls)[k].(touched := true) else old(controls)[k]
      {
        var key := order[i];
        controls := controls[key := controls[key].(touched := true)];
        i := i + 1;
      }
    }

    /** The user changing a control's value: the control takes the value and the errors
        its validators give for it, and the form becomes dirty. */
    method SetValue(name: string, v: Value, newErrors: Option<ValidationErrors>)
      requires Valid() && name in controls
      modifies this
      ensures Valid() && errors == old(errors) && dirty
      ensures controls == old(controls)[name := old(controls)[name].(value := v, errors := newErrors)]
    {
      controls := controls[name := controls[name].(value := v, errors := newErrors)];
      dirty := true;
    }
  }
}
