/** What one submission of the intake form does to the store (src/app/page.tsx,
    `handleSubmit` from the tenant lookup to the end of the request branch), as a function
    of the store's contents, the four raw field values and which store calls fail. */
module Reconcile {
  import opened Options
  import opened Records

  /** Which of the store calls of one submission report an error (or throw). */
  datatype Faults = Faults(findTenant: bool, createTenant: bool,
                           findProperty: bool, createProperty: bool,
                           findRequest: bool, createRequest: bool,
                           logConversation: bool)

  const NoFaults := Faults(false, false, false, false, false, false, false)

  /** The alert texts shown when a step aborts the submission. */
  const TenantFindError := "Error finding tenant"
  const TenantCreateError := "Error creating tenant record"
  const PropertyFindError := "Error finding property"
  const PropertyCreateError := "Error creating property record"
  const RequestCreateError := "Error creating maintenance request"
  const RequestCheckError := "Unexpected error checking for existing requests"

  /** The conversation row logged when a submission joins an open request. */
  const TenantSender := "tenant"
  const DetailsPrefix := "Additional details: "

  /** What the user observes of one press of the submit button: nothing (a submission is
      already running), field errors, success on a new or on an existing request, or an
      alert. */
  datatype Outcome = Ignored | Invalid | Created(requestId: Id) | Appended(requestId: Id)
                   | Failed(alert: string)
  {
    predicate Succeeded() {
      Created? || Appended?
    }
  }

  /** The result of resolving a tenant or a property: the store afterwards and the
      row's id, or the alert that ends the submission. */
  datatype Resolution = Resolved(db: Db, id: Id) | Aborted(alert: string)

  /** Look the tenant up by phone; on "no rows" insert one. */
  function ResolveTenant(db: Db, name: string, phone: string, f: Faults): Resolution {
    match LookupOf(f.findTenant, TenantWithPhone(db.tenants, phone))
    case Found(id) => Resolved(db, id)
    case NotFound =>
      if f.createTenant then Aborted(TenantCreateError)
      else Resolved(db.AddTenant(name, phone), db.nextId)
    case LookupFailed => Aborted(TenantFindError)
  }

  /** Look the property up by address; on "no rows" insert one. */
  function ResolveProperty(db: Db, address: string, f: Faults): Resolution {
    match LookupOf(f.findProperty, PropertyWithAddress(db.properties, address))
    case Found(id) => Resolved(db, id)
    case NotFound =>
      if f.createProperty then Aborted(PropertyCreateError)
      else Resolved(db.AddProperty(address), db.nextId)
    case LookupFailed => Aborted(PropertyFindError)
  }

  /** Look for an active request of the pair: none, open a new request; one, log the
      issue on it as a conversation row, whose insert result nobody checks. */
  function ResolveRequest(db: Db, tenantId: Id, propertyId: Id, issue: string, f: Faults, now: int)
    : (Db, Outcome)
  {
    match LookupOf(f.findRequest, ActiveRequestFor(db.requests, tenantId, propertyId))
    case NotFound =>
      if f.createRequest then (db, Failed(RequestCreateError))
      else (db.AddRequest(tenantId, propertyId, issue, now), Created(db.nextId))
    case Found(id) =>
      (if f.logConversation then db
       else db.AddConversation(id, TenantSender, DetailsPrefix + issue, now),
       Appended(id))
    case LookupFailed => (db, Failed(RequestCheckError))
  }

  /** The whole reconciliation, given the trimmed field values. A failing step ends it;
      what earlier steps inserted stays. */
  function Reconcile(db: Db, name: string, phone: string, address: string, issue: string,
                  f: Faults, now: int): (Db, Outcome)
  {
    match ResolveTenant(db, name, phone, f)
    case Aborted(alert) => (db, Failed(alert))
    case Resolved(db1, tenantId) =>
      match ResolveProperty(db1, address, f)
      case Aborted(alert) => (db1, Failed(alert))
      case Resolved(db2, propertyId) => ResolveRequest(db2, tenantId, propertyId, issue, f, now)
  }

  // ---------------------------------------------------------------------------------
  // The three steps, stated over the tables rather than over the lookups.

  /** A tenant whose phone matches is reused and nothing is inserted; when no tenant
      matches, exactly one tenant with the given name and phone is inserted; a failed
      lookup ends the submission. */
  lemma {:induction false} ResolveTenantCases(db: Db, name: string, phone: string, f: Faults)
    requires db.Valid()
    ensures f.findTenant ==> ResolveTenant(db, name, phone, f) == Aborted(TenantFindError)
    ensures forall i :: 0 <= i < |db.tenants| && db.tenants[i].phone == phone && !f.findTenant ==>
              ResolveTenant(db, name, phone, f) == Resolved(db, db.tenants[i].id)
    ensures (forall i :: 0 <= i < |db.tenants| ==> db.tenants[i].phone != phone) && !f.findTenant ==>
              ResolveTenant(db, name, phone, f)
                == if f.createTenant then Aborted(TenantCreateError)
                   else Resolved(db.AddTenant(name, phone), db.nextId)
  {
    match TenantWithPhone(db.tenants, phone)
    case None =>
    case Some(id) =>
      var j :| 0 <= j < |db.tenants| && db.tenants[j].phone == phone && db.tenants[j].id == id;
  }

  /** The same found / insert / abort rule for properties, keyed by address. */
  lemma {:induction false} ResolvePropertyCases(db: Db, address: string, f: Faults)
    requires db.Valid()
    ensures f.findProperty ==> ResolveProperty(db, address, f) == Aborted(PropertyFindError)
    ensures forall i :: 0 <= i < |db.properties| && db.properties[i].address == address && !f.findProperty ==>
              ResolveProperty(db, address, f) == Resolved(db, db.properties[i].id)
    ensures (forall i :: 0 <= i < |db.properties| ==> db.properties[i].address != address) && !f.findProperty ==>
              ResolveProperty(db, address, f)
                == if f.createProperty then Aborted(PropertyCreateError)
                   else Resolved(db.AddProperty(address), db.nextId)
  {
    match PropertyWithAddress(db.properties, address)
    case None =>
    case Some(id) =>
      var j :| 0 <= j < |db.properties| && db.properties[j].address == address && db.properties[j].id == id;
  }

  /** Create versus append: with no active request for the pair a request is inserted and
      the conversations are untouched; with one, no request is inserted and (unless that
      insert fails, which goes unnoticed) one conversation row is appended to it; either way
      the submission succeeds. A failed lookup ends it with nothing written. */
  lemma {:induction false} ResolveRequestCases(db: Db, t: Id, p: Id, issue: string, f: Faults, now: int)
    requires db.Valid()
    ensures f.findRequest ==> ResolveRequest(db, t, p, issue, f, now) == (db, Failed(RequestCheckError))
    ensures (forall i :: 0 <= i < |db.requests| ==> !IsActiveFor(db.requests[i], t, p)) && !f.findRequest ==>
              ResolveRequest(db, t, p, issue, f, now)
                == if f.createRequest then (db, Failed(RequestCreateError))
                   else (db.AddRequest(t, p, issue, now), Created(db.nextId))
    ensures forall i :: 0 <= i < |db.requests| && IsActiveFor(db.requests[i], t, p) && !f.findRequest ==>
              ResolveRequest(db, t, p, issue, f, now)
                == (if f.logConversation then db
                    else db.AddConversation(db.requests[i].id, TenantSender, DetailsPrefix + issue, now),
                    Appended(db.requests[i].id))
  {
    match ActiveRequestFor(db.requests, t, p)
    case None =>
    case Some(id) =>
      var j :| 0 <= j < |db.requests| && IsActiveFor(db.requests[j], t, p) && db.requests[j].id == id;
  }

  // ---------------------------------------------------------------------------------
  // Properties of a whole submission.

  /** A submission keeps the store's invariant: phones and addresses stay unique and at
      most one active request per pair exists afterwards. */
  lemma {:induction false} ReconcilePreservesValid(db: Db, name: string, phone: string, address: string,
                                                issue: string, f: Faults, now: int)
    requires db.Valid()
    ensures Reconcile(db, name, phone, address, issue, f, now).0.Valid()
  {
    match ResolveTenant(db, name, phone, f)
    case Aborted(_) =>
    case Resolved(db1, t) =>
      assert db1.Valid() by { AddTenantKeepsValid(db, name, phone, f); }
      match ResolveProperty(db1, address, f)
      case Aborted(_) =>
      case Resolved(db2, p) =>
        assert db2.Valid() by { AddPropertyKeepsValid(db1, address, f); }
        AddRequestKeepsValid(db2, t, p, issue, f, now);
  }

  /** A submission only appends: every table keeps its old rows as a prefix and gains at
      most one row, the rows it gains hold the trimmed field values, a request row comes
      only with `Created` and a conversation row only with `Appended`, so never both. */
  lemma {:induction false} ReconcileOnlyAppends(db: Db, name: string, phone: string, address: string,
                                             issue: string, f: Faults, now: int)
    ensures var (db', o) := Reconcile(db, name, phone, address, issue, f, now);
      AppendsOnly(db, db', o, name, phone, address, issue)
  {
    var (db', o) := Reconcile(db, name, phone, address, issue, f, now);
    match ResolveTenant(db, name, phone, f)
    case Aborted(_) =>
      AppendsOnlyCases(db, db, db, db', o, name, phone, address, issue, now);
    case Resolved(db1, t) =>
      match ResolveProperty(db1, address, f)
      case Aborted(_) =>
        AppendsOnlyCases(db, db1, db1, db', o, name, phone, address, issue, now);
      case Resolved(db2, p) =>
        assert (db', o) == ResolveRequest(db2, t, p, issue, f, now);
        RequestStepShape(db2, t, p, issue, f, now);
        AppendsOnlyCases(db, db1, db2, db', o, name, phone, address, issue, now);
  }

  /** The shape of the store after a submission: each table keeps its old rows as a
      prefix; tenants and properties gain at most the row with the given values; a request
      row comes only with `Created`, a conversation row only with `Appended`. */
  ghost predicate AppendsOnly(db: Db, db': Db, o: Outcome, name: string, phone: string,
                              address: string, issue: string)
  {
    && db'.defaultStatus == db.defaultStatus && db'.nextId >= db.nextId
    && (db'.tenants == db.tenants || db'.tenants == db.tenants + [Tenant(db.nextId, name, phone)])
    && |db.properties| <= |db'.properties| <= |db.properties| + 1
    && db'.properties[..|db.properties|] == db.properties
    && (forall i :: |db.properties| <= i < |db'.properties| ==> db'.properties[i].address == address)
    && (db'.requests == db.requests
        || (o.Created? && |db'.requests| == |db.requests| + 1
            && db'.requests[..|db.requests|] == db.requests
            && db'.requests[|db.requests|].id == o.requestId
            && db'.requests[|db.requests|].issue == issue
            && db'.requests[|db.requests|].status == db.defaultStatus))
    && (db'.conversations == db.conversations
        || (o.Appended? && |db'.conversations| == |db.conversations| + 1
            && db'.conversations[..|db.conversations|] == db.conversations
            && db'.conversations[|db.conversations|].requestId == o.requestId
            && db'.conversations[|db.conversations|].sender == TenantSender
            && db'.conversations[|db.conversations|].message == DetailsPrefix + issue))
  }

  lemma AppendsOnlyCases(db: Db, db1: Db, db2: Db, db': Db, o: Outcome, name: string, phone: string,
                         address: string, issue: string, now: int)
    requires db1 == db || db1 == db.AddTenant(name, phone)
    requires db2 == db1 || db2 == db1.AddProperty(address)
    requires || db' == db2
             || (o.Created? && exists t, p :: db' == db2.AddRequest(t, p, issue, now) && o.requestId == db2.nextId)
             || (o.Appended? && db' == db2.AddConversation(o.requestId, TenantSender, DetailsPrefix + issue, now))
    ensures AppendsOnly(db, db', o, name, phone, address, issue)
  {
    assert db2.properties[..|db.properties|] == db.properties;
  }

  lemma RequestStepCreatesOrAppends(db: Db, t: Id, p: Id, issue: string, f: Faults, now: int)
    ensures var (db', o) := ResolveRequest(db, t, p, issue, f, now);
      o.Succeeded() ==>
        && (o.Created? <==> forall i :: 0 <= i < |db.requests| ==> !IsActiveFor(db.requests[i], t, p))
        && (o.Created? ==>
              db'.requests == db.requests + [Request(o.requestId, t, p, issue, db.defaultStatus, now)]
              && db'.conversations == db.conversations)
        && (o.Appended? ==>
              db'.requests == db.requests
              && exists i :: 0 <= i < |db.requests| && IsActiveFor(db.requests[i], t, p)
                             && db.requests[i].id == o.requestId)
  {
  }

  lemma RequestStepShape(db: Db, t: Id, p: Id, issue: string, f: Faults, now: int)
    ensures var (db', o) := ResolveRequest(db, t, p, issue, f, now);
      || db' == db
      || (o.Created? && db' == db.AddRequest(t, p, issue, now) && o.requestId == db.nextId)
      || (o.Appended? && db' == db.AddConversation(o.requestId, TenantSender, DetailsPrefix + issue, now))
  {
  }

  /** A tenant whose phone is already stored is reused: the submission adds no tenant,
      whatever happens later. */
  lemma {:induction false} ReconcileReusesTenant(db: Db, name: string, phone: string, address: string,
                                                 issue: string, f: Faults, now: int, i: nat)
    requires i < |db.tenants| && db.tenants[i].phone == phone
    ensures Reconcile(db, name, phone, address, issue, f, now).0.tenants == db.tenants
  {
    match ResolveTenant(db, name, phone, f)
    case Aborted(_) =>
    case Resolved(db1, t) =>
      assert db1 == db;
      match ResolveProperty(db1, address, f)
      case Aborted(_) =>
      case Resolved(db2, p) =>
        assert db2.tenants == db.tenants;
        RequestStepShape(db2, t, p, issue, f, now);
  }

  /** A property whose address is already stored is reused: the submission adds no
      property, whatever happens later. */
  lemma {:induction false} ReconcileReusesProperty(db: Db, name: string, phone: string, address: string,
                                                   issue: string, f: Faults, now: int, i: nat)
    requires i < |db.properties| && db.properties[i].address == address
    ensures Reconcile(db, name, phone, address, issue, f, now).0.properties == db.properties
  {
    match ResolveTenant(db, name, phone, f)
    case Aborted(_) =>
    case Resolved(db1, t) =>
      assert db1.properties == db.properties;
      match ResolveProperty(db1, address, f)
      case Aborted(_) =>
      case Resolved(db2, p) =>
        assert db2 == db1;
        RequestStepShape(db2, t, p, issue, f, now);
  }

  /** A failed tenant lookup or insert ends the submission before the property and request
      steps, with nothing written. */
  lemma {:induction false} ReconcileTenantFailure(db: Db, name: string, phone: string, address: string,
                                               issue: string, f: Faults, now: int)
    requires db.Valid()
    ensures f.findTenant ==> Reconcile(db, name, phone, address, issue, f, now) == (db, Failed(TenantFindError))
    ensures (forall i :: 0 <= i < |db.tenants| ==> db.tenants[i].phone != phone)
            && !f.findTenant && f.createTenant ==>
              Reconcile(db, name, phone, address, issue, f, now) == (db, Failed(TenantCreateError))
  {
    ResolveTenantCases(db, name, phone, f);
  }

  /** No rollback: once a new tenant has been inserted, it stays, even when the property
      step then fails and the submission reports an alert. */
  lemma {:induction false} ReconcileKeepsNewTenant(db: Db, name: string, phone: string, address: string,
                                                issue: string, f: Faults, now: int)
    requires db.Valid()
    requires forall i :: 0 <= i < |db.tenants| ==> db.tenants[i].phone != phone
    requires !f.findTenant && !f.createTenant
    ensures Reconcile(db, name, phone, address, issue, f, now).0.tenants
              == db.tenants + [Tenant(db.nextId, name, phone)]
    ensures f.findProperty ==> Reconcile(db, name, phone, address, issue, f, now).1 == Failed(PropertyFindError)
  {
    ResolveTenantCases(db, name, phone, f);
  }

  /** Create versus append, for a whole submission: on success, with t and p the ids the
      store now holds for the trimmed phone and address, the outcome is `Created` exactly
      when the store had no active request for (t, p), in which case one request with the
      trimmed issue and the default status was added and no conversation; otherwise it is
      `Appended` to that active request, and no request was added. */
  lemma {:induction false} ReconcileCreatesOrAppends(db: Db, name: string, phone: string, address: string,
                                                  issue: string, f: Faults, now: int)
    requires db.Valid()
    ensures var (db', o) := Reconcile(db, name, phone, address, issue, f, now);
      o.Succeeded() ==>
        && TenantWithPhone(db'.tenants, phone).Some?
        && PropertyWithAddress(db'.properties, address).Some?
        && var t := TenantWithPhone(db'.tenants, phone).value;
           var p := PropertyWithAddress(db'.properties, address).value;
           && (o.Created? <==> forall i :: 0 <= i < |db.requests| ==> !IsActiveFor(db.requests[i], t, p))
           && (o.Created? ==>
                 db'.requests == db.requests + [Request(o.requestId, t, p, issue, db.defaultStatus, now)]
                 && db'.conversations == db.conversations)
           && (o.Appended? ==>
                 db'.requests == db.requests
                 && exists i :: 0 <= i < |db.requests| && IsActiveFor(db.requests[i], t, p)
                                && db.requests[i].id == o.requestId)
  {
    var (db', o) := Reconcile(db, name, phone, address, issue, f, now);
    match ResolveTenant(db, name, phone, f)
    case Aborted(_) =>
    case Resolved(db1, t) =>
      match ResolveProperty(db1, address, f)
      case Aborted(_) =>
      case Resolved(db2, p) =>
        assert (db', o) == ResolveRequest(db2, t, p, issue, f, now);
        if o.Succeeded() {
          ResolvedIdsFound(db, name, phone, address, f);
          RequestStepShape(db2, t, p, issue, f, now);
          RequestStepCreatesOrAppends(db2, t, p, issue, f, now);
        }
  }

  /** After both lookups resolved, the store maps the phone and the address to the ids
      they resolved to, and the request and conversation tables are as before. */
  lemma ResolvedIdsFound(db: Db, name: string, phone: string, address: string, f: Faults)
    requires ResolveTenant(db, name, phone, f).Resolved?
    requires ResolveProperty(ResolveTenant(db, name, phone, f).db, address, f).Resolved?
    ensures var r1 := ResolveTenant(db, name, phone, f);
            var r2 := ResolveProperty(r1.db, address, f);
      && TenantWithPhone(r2.db.tenants, phone) == Some(r1.id)
      && PropertyWithAddress(r2.db.properties, address) == Some(r2.id)
      && r2.db.requests == db.requests && r2.db.conversations == db.conversations
      && r2.db.defaultStatus == db.defaultStatus
  {
    var r1 := ResolveTenant(db, name, phone, f);
    TenantStepLooksUp(db, name, phone, f);
    PropertyStepLooksUp(r1.db, address, f);
    assert ResolveProperty(r1.db, address, f).db.tenants == r1.db.tenants;
  }

  /** After a resolved tenant step, looking the phone up gives the resolved tenant. */
  lemma TenantStepLooksUp(db: Db, name: string, phone: string, f: Faults)
    ensures var r := ResolveTenant(db, name, phone, f);
      r.Resolved? ==> TenantWithPhone(r.db.tenants, phone) == Some(r.id)
  {
    if !f.findTenant && TenantWithPhone(db.tenants, phone).None? && !f.createTenant {
      TenantWithPhoneAppend(db.tenants, Tenant(db.nextId, name, phone), phone);
    }
  }

  /** After a resolved property step, looking the address up gives the resolved property. */
  lemma PropertyStepLooksUp(db: Db, address: string, f: Faults)
    ensures var r := ResolveProperty(db, address, f);
      r.Resolved? ==> PropertyWithAddress(r.db.properties, address) == Some(r.id)
  {
    if !f.findProperty && PropertyWithAddress(db.properties, address).None? && !f.createProperty {
      PropertyWithAddressAppend(db.properties, Property(db.nextId, address), address);
    }
  }

  /** With every store call succeeding, a submission succeeds. */
  lemma ReconcileWithoutFaultsSucceeds(db: Db, name: string, phone: string, address: string,
                                    issue: string, now: int)
    ensures Reconcile(db, name, phone, address, issue, NoFaults, now).1.Succeeded()
  {
  }

  /** Submitting the same form twice: the second submission finds the tenant and the
      property the first one resolved and adds neither again. If the first submission's
      request is active (it joined an active request, or new requests start active), the
      second one is appended to that same request as one more conversation row; if new
      requests do not start active and the first one created a request, the second one
      creates another. */
  lemma {:induction false} ReconcileTwice(db: Db, name: string, phone: string, address: string,
                                          issue: string, now1: int, now2: int)
    requires db.Valid()
    ensures var (db1, o1) := Reconcile(db, name, phone, address, issue, NoFaults, now1);
            var (db2, o2) := Reconcile(db1, name, phone, address, issue, NoFaults, now2);
      && db2.tenants == db1.tenants && db2.properties == db1.properties
      && ((o1.Appended? || IsActive(db.defaultStatus)) ==>
            && o2 == Appended(o1.requestId) && db2.requests == db1.requests
            && db2.conversations == db1.conversations
                 + [Conversation(db1.nextId, o1.requestId, TenantSender, DetailsPrefix + issue, now2)])
      && ((o1.Created? && !IsActive(db.defaultStatus)) ==>
            o2.Created? && |db2.requests| == |db1.requests| + 1)
  {
    var (db1, o1) := Reconcile(db, name, phone, address, issue, NoFaults, now1);
    FirstSubmissionStores(db, name, phone, address, issue, now1);
    SecondSubmissionResolves(db1, name, phone, address, issue, now2);
  }

  /** After a fault-free submission the store holds the tenant and the property, and the
      pair's active request is the submission's request when that one is active, and
      there is none otherwise. */
  lemma FirstSubmissionStores(db: Db, name: string, phone: string, address: string,
                              issue: string, now1: int)
    requires db.Valid()
    ensures var (db1, o1) := Reconcile(db, name, phone, address, issue, NoFaults, now1);
      && o1.Succeeded()
      && TenantWithPhone(db1.tenants, phone).Some? && PropertyWithAddress(db1.properties, address).Some?
      && var active := ActiveRequestFor(db1.requests, TenantWithPhone(db1.tenants, phone).value,
                                        PropertyWithAddress(db1.properties, address).value);
         && ((o1.Appended? || IsActive(db.defaultStatus)) ==> active == Some(o1.requestId))
         && ((o1.Created? && !IsActive(db.defaultStatus)) ==> active == None)
  {
    var r1 := ResolveTenant(db, name, phone, NoFaults);
    var r2 := ResolveProperty(r1.db, address, NoFaults);
    var db2, t, p := r2.db, r1.id, r2.id;
    ResolvedIdsFound(db, name, phone, address, NoFaults);
    assert db2.Valid() by {
      AddTenantKeepsValid(db, name, phone, NoFaults);
      AddPropertyKeepsValid(r1.db, address, NoFaults);
    }
    RequestStepLeavesActive(db2, t, p, issue, now1);
    assert Reconcile(db, name, phone, address, issue, NoFaults, now1)
           == ResolveRequest(db2, t, p, issue, NoFaults, now1);
  }

  /** A fault-free request step leaves the pair with an active request that is its own
      when that one is active, and with none otherwise. */
  lemma RequestStepLeavesActive(db: Db, t: Id, p: Id, issue: string, now: int)
    requires db.Valid()
    ensures var (db', o) := ResolveRequest(db, t, p, issue, NoFaults, now);
      && o.Succeeded() && db'.tenants == db.tenants && db'.properties == db.properties
      && ((o.Appended? || IsActive(db.defaultStatus)) ==> ActiveRequestFor(db'.requests, t, p) == Some(o.requestId))
      && ((o.Created? && !IsActive(db.defaultStatus)) ==> ActiveRequestFor(db'.requests, t, p) == None)
  {
    match ActiveRequestFor(db.requests, t, p)
    case Some(id) =>
    case None =>
      var db' := db.AddRequest(t, p, issue, now);
      var i := |db.requests|;
      if IsActive(db.defaultStatus) {
        AddRequestValid(db, t, p, issue, now);
        ActiveRequestForFinds(db'.requests, i, t, p);
      } else {
        assert forall k :: 0 <= k < |db'.requests| ==> !IsActiveFor(db'.requests[k], t, p) by {
          assert forall k :: 0 <= k < |db.requests| ==> db'.requests[k] == db.requests[k];
        }
      }
  }

  /** Once a submission has stored its tenant and property, an identical one resolves both
      to the same rows and goes straight to the request step. */
  lemma SecondSubmissionResolves(db: Db, name: string, phone: string, address: string,
                                 issue: string, now: int)
    requires TenantWithPhone(db.tenants, phone).Some?
    requires PropertyWithAddress(db.properties, address).Some?
    ensures Reconcile(db, name, phone, address, issue, NoFaults, now)
              == ResolveRequest(db, TenantWithPhone(db.tenants, phone).value,
                                PropertyWithAddress(db.properties, address).value, issue, NoFaults, now)
  {
  }

  lemma AddTenantKeepsValid(db: Db, name: string, phone: string, f: Faults)
    requires db.Valid() && ResolveTenant(db, name, phone, f).Resolved?
    ensures ResolveTenant(db, name, phone, f).db.Valid()
  {
    if TenantWithPhone(db.tenants, phone).None? {
      AddTenantValid(db, name, phone);
    }
  }

  lemma AddPropertyKeepsValid(db: Db, address: string, f: Faults)
    requires db.Valid() && ResolveProperty(db, address, f).Resolved?
    ensures ResolveProperty(db, address, f).db.Valid()
  {
    if PropertyWithAddress(db.properties, address).None? {
      AddPropertyValid(db, address);
    }
  }

  lemma AddRequestKeepsValid(db: Db, t: Id, p: Id, issue: string, f: Faults, now: int)
    requires db.Valid()
    ensures ResolveRequest(db, t, p, issue, f, now).0.Valid()
  {
    match ActiveRequestFor(db.requests, t, p)
    case None =>
      AddRequestValid(db, t, p, issue, now);
    case Some(id) =>
      AddConversationValid(db, id, TenantSender, DetailsPrefix + issue, now);
  }
}
