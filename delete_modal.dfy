/** `src/app/components/shared/delete-confirmation-modal/delete-confirmation-modal.component.ts`:
    a confirmation dialog that latches once the user confirms. The two outputs
    are recorded as the sequence of values they emitted; the half-second delay
    before `confirmed` fires is not modelled. */
module DeleteConfirmation {
  import opened Wrappers
  import opened Model

  class DeleteConfirmationModalComponent {
    var employee: Option<Employee>
    var isDeleting: bool
    /** Emissions of the `confirmed` output, oldest first. */
    var confirmed: seq<Employee>
    /** Number of emissions of the `cancelled` output. */
    var cancelled: nat

    /** The latch: `confirmed` has fired exactly once once deleting, and never before. */
    predicate Valid()
      reads this
    {
      |confirmed| <= 1 && (isDeleting <==> |confirmed| == 1)
    }

    constructor ()
      ensures Valid() && employee == None && !isDeleting && confirmed == [] && cancelled == 0
    {
      employee := None;
      isDeleting := false;
      confirmed := [];
      cancelled := 0;
    }

    /** The `employee` input being bound by the host. */
    method SetEmployee(e: Option<Employee>)
      requires Valid()
      modifies this
      ensures Valid() && employee == e
      ensures isDeleting == old(isDeleting) && confirmed == old(confirmed) && cancelled == old(cancelled)
    {
      employee := e;
    }

    /** `onConfirm`: with an employee and not yet deleting, latch and emit `confirmed`
        with the employee; otherwise do nothing. */
    method OnConfirm()
      requires Valid()
      modifies this
      ensures Valid() && employee == old(employee) && cancelled == old(cancelled)
      ensures old(employee).Some? && !old(isDeleting) ==>
                isDeleting && confirmed == old(confirmed) + [old(employee).value]
      ensures old(employee).None? || old(isDeleting) ==>
                isDeleting == old(isDeleting) && confirmed == old(confirmed)
    {
      if employee.Some? && !isDeleting {
        isDeleting := true;
        confirmed := confirmed + [employee.value];
      }
    }

    /** `onCancel`: emit `cancelled` unless a delete is under way. */
    method OnCancel()
      requires Valid()
      modifies this
      ensures Valid() && employee == old(employee) && isDeleting == old(isDeleting)
      ensures confirmed == old(confirmed)
      ensures cancelled == if old(isDeleting) then old(cancelled) else old(cancelled) + 1
    {
      if !isDeleting {
        cancelled := cancelled + 1;
      }
    }
  }
}
