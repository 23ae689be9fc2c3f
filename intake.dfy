/** The maintenance-request form (src/app/page.tsx): its field and error state, the
    per-keystroke validation, and the submit handler, which validates, reconciles the
    submission with the store and clears the form on success. */
module Intake {
  import opened Options
  import opened Text
  import opened Validation
  import opened Records
  import opened Reconcile

  class IntakeForm {
    var name: string
    var phone: string
    var address: string
    var issue: string
    var errors: FieldErrors
    var isLoading: bool
    const store: Store

    constructor (store: Store)
      ensures this.store == store
      ensures name == "" && phone == "" && address == "" && issue == ""
      ensures errors == NoErrors && !isLoading
    {
      this.store := store;
      name, phone, address, issue := "", "", "", "";
      errors := NoErrors;
      isLoading := false;
    }

    /** Stores the typed name and re-validates that field only. */
    method HandleNameChange(value: string)
      modifies this
      ensures name == value && errors == old(errors).(name := ValidateName(value))
      ensures unchanged(this`phone, this`address, this`issue, this`isLoading)
    {
      name := value;
      errors := errors.(name := ValidateName(value));
    }

    method HandlePhoneChange(value: string)
      modifies this
      ensures phone == value && errors == old(errors).(phone := ValidatePhone(value))
      ensures unchanged(this`name, this`address, this`issue, this`isLoading)
    {
      phone := value;
      errors := errors.(phone := ValidatePhone(value));
    }

    method HandleAddressChange(value: string)
      modifies this
      ensures address == value && errors == old(errors).(address := ValidateAddress(value))
      ensures unchanged(this`name, this`phone, this`issue, this`isLoading)
    {
      address := value;
      errors := errors.(address := ValidateAddress(value));
    }

    method HandleIssueChange(value: string)
      modifies this
      ensures issue == value && errors == old(errors).(issue := ValidateIssue(value))
      ensures unchanged(this`name, this`phone, this`address, this`isLoading)
    {
      issue := value;
      errors := errors.(issue := ValidateIssue(value));
    }

    /** One press of the submit button. `f` says which store calls fail and `now` is the
        store's clock. While a submission is running nothing happens. Otherwise the error
        record is set to the four validator results, and an invalid form stops there
        without touching the store. A valid form is reconciled on the trimmed values; the
        store ends as `Reconcile` says, the fields are cleared only on success, and the
        loading flag is down again at the end. */
    method HandleSubmit(f: Faults, now: int) returns (outcome: Outcome)
      modifies this, store
      ensures old(isLoading) ==>
                outcome == Ignored && unchanged(this) && unchanged(store)
      ensures !old(isLoading) && !IsFormValid(old(name), old(phone), old(address), old(issue)) ==>
                && outcome == Invalid
                && errors == ValidateAll(old(name), old(phone), old(address), old(issue))
                && unchanged(this`name, this`phone, this`address, this`issue)
                && !isLoading && unchanged(store)
      ensures !old(isLoading) && IsFormValid(old(name), old(phone), old(address), old(issue)) ==>
                && (store.Contents(), outcome)
                     == Reconcile.Reconcile(old(store.Contents()), Trim(old(name)), Trim(old(phone)),
                                            Trim(old(address)), Trim(old(issue)), f, now)
                && errors == NoErrors && !isLoading
                && (if outcome.Succeeded() then name == "" && phone == "" && address == "" && issue == ""
                    else unchanged(this`name, this`phone, this`address, this`issue))
    {
      if isLoading {
        return Ignored;
      }
      errors := ValidateAll(name, phone, address, issue);
      if errors != NoErrors {
        return Invalid;
      }
      outcome := SubmitValidForm(f, now);
      ClearFormIf(outcome.Succeeded());
    }

    /** The store calls of a valid submission, on the trimmed values, with the loading
        flag raised around them. */
    method SubmitValidForm(f: Faults, now: int) returns (outcome: Outcome)
      modifies this, store
      ensures (store.Contents(), outcome)
                == Reconcile.Reconcile(old(store.Contents()), Trim(old(name)), Trim(old(phone)),
                                       Trim(old(address)), Trim(old(issue)), f, now)
      ensures unchanged(this`name, this`phone, this`address, this`issue, this`errors) && !isLoading
    {
      isLoading := true;
      outcome := SubmitTrimmed(store, name, phone, address, issue, f, now);
      isLoading := false;
    }

    /** Empties the four fields and the error record when the submission succeeded. */
    method ClearFormIf(succeeded: bool)
      modifies this
      ensures if succeeded then name == "" && phone == "" && address == "" && issue == "" && errors == NoErrors
              else unchanged(this`name, this`phone, this`address, this`issue, this`errors)
      ensures unchanged(this`isLoading)
    {
      if succeeded {
        name, phone, address, issue := "", "", "", "";
        errors := NoErrors;
      }
    }
  }

  /** A press of the submit button keeps the store invariant: the store changes only as
      `Reconcile` says, and `Reconcile` keeps `Db.Valid`. */
  method SubmitKeepsStoreValid(form: IntakeForm, f: Faults, now: int) returns (outcome: Outcome)
    requires form.store.Valid()
    modifies form, form.store
    ensures form.store.Valid()
  {
    ReconcilePreservesValid(form.store.Contents(), Trim(form.name), Trim(form.phone),
                            Trim(form.address), Trim(form.issue), f, now);
    outcome := form.HandleSubmit(f, now);
  }

  /** The outcome of one resolution step as the submit handler sees it. */
  datatype Step = Done(id: Id) | Abort(alert: string)

  /** Trims the four fields and hands them to the store. */
  method SubmitTrimmed(store: Store, name: string, phone: string, address: string, issue: string,
                       f: Faults, now: int) returns (outcome: Outcome)
    modifies store
    ensures (store.Contents(), outcome)
              == Reconcile.Reconcile(old(store.Contents()), Trim(name), Trim(phone), Trim(address),
                                     Trim(issue), f, now)
  {
    outcome := SubmitToStore(store, Trim(name), Trim(phone), Trim(address), Trim(issue), f, now);
  }

  /** The store calls of a valid submission, on the trimmed values, with an early
      return at each failing step. */
  method SubmitToStore(store: Store, name: string, phone: string, address: string, issue: string,
                       f: Faults, now: int) returns (outcome: Outcome)
    modifies store
    ensures (store.Contents(), outcome)
              == Reconcile.Reconcile(old(store.Contents()), name, phone, address, issue, f, now)
  {
    var tenant := FindOrCreateTenant(store, name, phone, f);
    if tenant.Abort? {
      return Failed(tenant.alert);
    }
    var property := FindOrCreateProperty(store, address, f);
    if property.Abort? {
      return Failed(property.alert);
    }
    outcome := CreateOrAppendRequest(store, tenant.id, property.id, issue, f, now);
  }

  /** Looks the tenant up by phone and inserts one on "no rows". */
  method FindOrCreateTenant(store: Store, name: string, phone: string, f: Faults) returns (r: Step)
    modifies store
    ensures match ResolveTenant(old(store.Contents()), name, phone, f)
            case Resolved(db, id) => r == Done(id) && store.Contents() == db
            case Aborted(alert) => r == Abort(alert) && store.Contents() == old(store.Contents())
  {
    var lookup := store.SelectTenantByPhone(phone, f.findTenant);
    match lookup
    case Found(id) =>
      r := Done(id);
    case NotFound =>
      var created := store.InsertTenant(name, phone, f.createTenant);
      r := if created.None? then Abort(TenantCreateError) else Done(created.value);
    case LookupFailed =>
      r := Abort(TenantFindError);
  }

  /** Looks the property up by address and inserts one on "no rows". */
  method FindOrCreateProperty(store: Store, address: string, f: Faults) returns (r: Step)
    modifies store
    ensures match ResolveProperty(old(store.Contents()), address, f)
            case Resolved(db, id) => r == Done(id) && store.Contents() == db
            case Aborted(alert) => r == Abort(alert) && store.Contents() == old(store.Contents())
  {
    var lookup := store.SelectPropertyByAddress(address, f.findProperty);
    match lookup
    case Found(id) =>
      r := Done(id);
    case NotFound =>
      var created := store.InsertProperty(address, f.createProperty);
      r := if created.None? then Abort(PropertyCreateError) else Done(created.value);
    case LookupFailed =>
      r := Abort(PropertyFindError);
  }

  /** Inserts a request when the pair has no active one; otherwise logs the issue on the
      active one, ignoring whether that insert worked. */
  method CreateOrAppendRequest(store: Store, tenantId: Id, propertyId: Id, issue: string,
                               f: Faults, now: int) returns (outcome: Outcome)
    modifies store
    ensures (store.Contents(), outcome)
              == ResolveRequest(old(store.Contents()), tenantId, propertyId, issue, f, now)
  {
    var lookup := store.SelectActiveRequest(tenantId, propertyId, f.findRequest);
    match lookup
    case NotFound =>
      var created := store.InsertRequest(tenantId, propertyId, issue, now, f.createRequest);
      outcome := if created.None? then Failed(RequestCreateError) else Created(created.value);
    case Found(id) =>
      var _ := store.InsertConversation(id, TenantSender, DetailsPrefix + issue, now, f.logConversation);
      outcome := Appended(id);
    case LookupFailed =>
      outcome := Failed(RequestCheckError);
  }
}
