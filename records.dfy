/** The four tables the intake writes (tenants, properties, maintenance_requests,
    conversations), as the intake form sees them through its database client. */
module Records {
  import opened Options

  /** Row identifiers, handed out by the store. */
  type Id = nat

  /** A request's `status` column. Statuses other than these are set by administrators
      outside the intake workflow. */
  datatype Status = Open | InProgress | Scheduled | Escalated | Other(name: string)

  /** The statuses the intake treats as "already being handled": `In Progress` and
      `Scheduled`. A new submission for the same tenant and property is attached to such
      a request instead of opening a new one. */
  predicate IsActive(s: Status) {
    s == InProgress || s == Scheduled
  }

  datatype Tenant = Tenant(id: Id, name: string, phone: string)
  datatype Property = Property(id: Id, address: string)
  datatype Request = Request(id: Id, tenantId: Id, propertyId: Id, issue: string,
                             status: Status, createdAt: int)
  datatype Conversation = Conversation(id: Id, requestId: Id, sender: string,
                                       message: string, createdAt: int)

  /** An active request of the given tenant at the given property. */
  predicate IsActiveFor(r: Request, tenantId: Id, propertyId: Id) {
    r.tenantId == tenantId && r.propertyId == propertyId && IsActive(r.status)
  }

  /** The contents of the store. `nextId` is the next identifier the store hands out;
      `defaultStatus` is the status column's default, which the store gives to new
      requests. */
  datatype Db = Db(tenants: seq<Tenant>, properties: seq<Property>, requests: seq<Request>,
                   conversations: seq<Conversation>, nextId: Id, defaultStatus: Status)
  {
    /** What the intake relies on and keeps: phones and addresses are natural keys, at
        most one active request exists per (tenant, property) pair, and every identifier
        in use is below `nextId` and used once per table. */
    predicate Valid() {
      (forall i, j :: 0 <= i < j < |tenants| ==> tenants[i].phone != tenants[j].phone)
      && (forall i, j :: 0 <= i < j < |properties| ==> properties[i].address != properties[j].address)
      && (forall i, j :: 0 <= i < j < |requests| && IsActive(requests[i].status) ==>
            !IsActiveFor(requests[j], requests[i].tenantId, requests[i].propertyId))
      && (forall i :: 0 <= i < |tenants| ==> tenants[i].id < nextId)
      && (forall i :: 0 <= i < |properties| ==> properties[i].id < nextId)
      && (forall i :: 0 <= i < |requests| ==> requests[i].id < nextId)
      && (forall i :: 0 <= i < |conversations| ==> conversations[i].id < nextId)
      && (forall i, j :: 0 <= i < j < |tenants| ==> tenants[i].id != tenants[j].id)
      && (forall i, j :: 0 <= i < j < |properties| ==> properties[i].id != properties[j].id)
      && (forall i, j :: 0 <= i < j < |requests| ==> requests[i].id != requests[j].id)
      && (forall i, j :: 0 <= i < j < |conversations| ==> conversations[i].id != conversations[j].id)
    }

    function AddTenant(name: string, phone: string): Db {
      this.(tenants := tenants + [Tenant(nextId, name, phone)], nextId := nextId + 1)
    }

    function AddProperty(address: string): Db {
      this.(properties := properties + [Property(nextId, address)], nextId := nextId + 1)
    }

    function AddRequest(tenantId: Id, propertyId: Id, issue: string, now: int): Db {
      this.(requests := requests + [Request(nextId, tenantId, propertyId, issue, defaultStatus, now)],
            nextId := nextId + 1)
    }

    function AddConversation(requestId: Id, sender: string, message: string, now: int): Db {
      this.(conversations := conversations + [Conversation(nextId, requestId, sender, message, now)],
            nextId := nextId + 1)
    }
  }

  /** `.eq('phone', phone)` on the tenants table: the id of a tenant with that phone,
      or nothing when no tenant has it. */
  function TenantWithPhone(ts: seq<Tenant>, phone: string): (r: Option<Id>)
    ensures r.None? <==> forall i :: 0 <= i < |ts| ==> ts[i].phone != phone
    ensures r.Some? ==> exists i :: 0 <= i < |ts| && ts[i].phone == phone && ts[i].id == r.value
  {
    if ts == [] then None
    else if ts[0].phone == phone then Some(ts[0].id)
    else
      var r := TenantWithPhone(ts[1..], phone);
      assert forall i :: 1 <= i < |ts| ==> ts[1..][i - 1] == ts[i];
      r
  }

  /** `.eq('address', address)` on the properties table. */
  function PropertyWithAddress(ps: seq<Property>, address: string): (r: Option<Id>)
    ensures r.None? <==> forall i :: 0 <= i < |ps| ==> ps[i].address != address
    ensures r.Some? ==> exists i :: 0 <= i < |ps| && ps[i].address == address && ps[i].id == r.value
  {
    if ps == [] then None
    else if ps[0].address == address then Some(ps[0].id)
    else
      var r := PropertyWithAddress(ps[1..], address);
      assert forall i :: 1 <= i < |ps| ==> ps[1..][i - 1] == ps[i];
      r
  }

  /** The tenant, property and `.in('status', ['In Progress', 'Scheduled'])` filter on
      the maintenance_requests table. */
  function ActiveRequestFor(rs: seq<Request>, tenantId: Id, propertyId: Id): (r: Option<Id>)
    ensures r.None? <==> forall i :: 0 <= i < |rs| ==> !IsActiveFor(rs[i], tenantId, propertyId)
    ensures r.Some? ==> exists i :: 0 <= i < |rs| && IsActiveFor(rs[i], tenantId, propertyId)
                                    && rs[i].id == r.value
  {
    if rs == [] then None
    else if IsActiveFor(rs[0], tenantId, propertyId) then Some(rs[0].id)
    else
      var r := ActiveRequestFor(rs[1..], tenantId, propertyId);
      assert forall i :: 1 <= i < |rs| ==> rs[1..][i - 1] == rs[i];
      r
  }

  /** With phones unique, the lookup finds exactly the tenant that has the phone. */
  lemma TenantWithPhoneFinds(ts: seq<Tenant>, i: nat, phone: string)
    requires forall j, k :: 0 <= j < k < |ts| ==> ts[j].phone != ts[k].phone
    requires i < |ts| && ts[i].phone == phone
    ensures TenantWithPhone(ts, phone) == Some(ts[i].id)
  {
  }

  /** With addresses unique, the lookup finds exactly the property at the address. */
  lemma PropertyWithAddressFinds(ps: seq<Property>, i: nat, address: string)
    requires forall j, k :: 0 <= j < k < |ps| ==> ps[j].address != ps[k].address
    requires i < |ps| && ps[i].address == address
    ensures PropertyWithAddress(ps, address) == Some(ps[i].id)
  {
  }

  /** With at most one active request per pair, the lookup finds exactly that one. */
  lemma ActiveRequestForFinds(rs: seq<Request>, i: nat, tenantId: Id, propertyId: Id)
    requires forall j, k :: 0 <= j < k < |rs| && IsActive(rs[j].status) ==>
               !IsActiveFor(rs[k], rs[j].tenantId, rs[j].propertyId)
    requires i < |rs| && IsActiveFor(rs[i], tenantId, propertyId)
    ensures ActiveRequestFor(rs, tenantId, propertyId) == Some(rs[i].id)
  {
  }

  /** Appending a tenant to a table where no row has the phone: the lookup finds the new
      row exactly when it has the phone. */
  lemma {:induction false} TenantWithPhoneAppend(ts: seq<Tenant>, t: Tenant, phone: string)
    requires TenantWithPhone(ts, phone).None?
    ensures TenantWithPhone(ts + [t], phone) == if t.phone == phone then Some(t.id) else None
  {
    if ts != [] {
      assert (ts + [t])[1..] == ts[1..] + [t];
      TenantWithPhoneAppend(ts[1..], t, phone);
    }
  }

  lemma {:induction false} PropertyWithAddressAppend(ps: seq<Property>, p: Property, address: string)
    requires PropertyWithAddress(ps, address).None?
    ensures PropertyWithAddress(ps + [p], address) == if p.address == address then Some(p.id) else None
  {
    if ps != [] {
      assert (ps + [p])[1..] == ps[1..] + [p];
      PropertyWithAddressAppend(ps[1..], p, address);
    }
  }

  /** Inserting a tenant whose phone is not stored keeps the invariant. */
  lemma AddTenantValid(db: Db, name: string, phone: string)
    requires db.Valid() && TenantWithPhone(db.tenants, phone).None?
    ensures db.AddTenant(name, phone).Valid()
  {
    var db' := db.AddTenant(name, phone);
    assert forall i :: 0 <= i < |db.tenants| ==> db'.tenants[i] == db.tenants[i];
  }

  /** Inserting a property whose address is not stored keeps the invariant. */
  lemma AddPropertyValid(db: Db, address: string)
    requires db.Valid() && PropertyWithAddress(db.properties, address).None?
    ensures db.AddProperty(address).Valid()
  {
    var db' := db.AddProperty(address);
    assert forall i :: 0 <= i < |db.properties| ==> db'.properties[i] == db.properties[i];
  }

  /** Inserting a request for a pair with no active request keeps the invariant. */
  lemma AddRequestValid(db: Db, tenantId: Id, propertyId: Id, issue: string, now: int)
    requires db.Valid() && ActiveRequestFor(db.requests, tenantId, propertyId).None?
    ensures db.AddRequest(tenantId, propertyId, issue, now).Valid()
  {
    var db' := db.AddRequest(tenantId, propertyId, issue, now);
    assert forall i :: 0 <= i < |db.requests| ==> db'.requests[i] == db.requests[i];
  }

  /** Inserting a conversation row keeps the invariant. */
  lemma AddConversationValid(db: Db, requestId: Id, sender: string, message: string, now: int)
    requires db.Valid()
    ensures db.AddConversation(requestId, sender, message, now).Valid()
  {
    var db' := db.AddConversation(requestId, sender, message, now);
    assert forall i :: 0 <= i < |db.conversations| ==> db'.conversations[i] == db.conversations[i];
  }

  /** What a `.single()` query reports: the row's id, the "no rows" error (code
      `PGRST116`), or any other error. */
  datatype Lookup = Found(id: Id) | NotFound | LookupFailed

  /** The report of a query whose matching row, if any, is `row`; `failed` says the
      store or the connection reported an error instead. */
  function LookupOf(failed: bool, row: Option<Id>): Lookup {
    if failed then LookupFailed
    else match row
      case Some(id) => Found(id)
      case None => NotFound
  }

  /** The database as the intake form reaches it: each call may fail, which the caller
      says through a `failed` argument; a failed call changes nothing. */
  class Store {
    var tenants: seq<Tenant>
    var properties: seq<Property>
    var requests: seq<Request>
    var conversations: seq<Conversation>
    var nextId: Id
    const defaultStatus: Status

    function Contents(): Db
      reads this
    {
      Db(tenants, properties, requests, conversations, nextId, defaultStatus)
    }

    ghost predicate Valid()
      reads this
    {
      Contents().Valid()
    }

    constructor (defaultStatus: Status)
      ensures Contents() == Db([], [], [], [], 0, defaultStatus)
      ensures Valid()
    {
      tenants, properties, requests, conversations := [], [], [], [];
      nextId := 0;
      this.defaultStatus := defaultStatus;
    }

    method SelectTenantByPhone(phone: string, failed: bool) returns (r: Lookup)
      ensures r == LookupOf(failed, TenantWithPhone(tenants, phone))
    {
      r := LookupOf(failed, TenantWithPhone(tenants, phone));
    }

    method SelectPropertyByAddress(address: string, failed: bool) returns (r: Lookup)
      ensures r == LookupOf(failed, PropertyWithAddress(properties, address))
    {
      r := LookupOf(failed, PropertyWithAddress(properties, address));
    }

    method SelectActiveRequest(tenantId: Id, propertyId: Id, failed: bool) returns (r: Lookup)
      ensures r == LookupOf(failed, ActiveRequestFor(requests, tenantId, propertyId))
    {
      r := LookupOf(failed, ActiveRequestFor(requests, tenantId, propertyId));
    }

    method InsertTenant(name: string, phone: string, failed: bool) returns (r: Option<Id>)
      modifies this
      ensures r == if failed then None else Some(old(nextId))
      ensures Contents() == if failed then old(Contents()) else old(Contents()).AddTenant(name, phone)
    {
      if failed {
        r := None;
      } else {
        r := Some(nextId);
        tenants := tenants + [Tenant(nextId, name, phone)];
        nextId := nextId + 1;
      }
    }

    method InsertProperty(address: string, failed: bool) returns (r: Option<Id>)
      modifies this
      ensures r == if failed then None else Some(old(nextId))
      ensures Contents() == if failed then old(Contents()) else old(Contents()).AddProperty(address)
    {
      if failed {
        r := None;
      } else {
        r := Some(nextId);
        properties := properties + [Property(nextId, address)];
        nextId := nextId + 1;
      }
    }

    /** The new row takes the column's default status and the store's clock reading `now`. */
    method InsertRequest(tenantId: Id, propertyId: Id, issue: string, now: int, failed: bool)
      returns (r: Option<Id>)
      modifies this
      ensures r == if failed then None else Some(old(nextId))
      ensures Contents() == if failed then old(Contents())
                            else old(Contents()).AddRequest(tenantId, propertyId, issue, now)
    {
      if failed {
        r := None;
      } else {
        r := Some(nextId);
        requests := requests + [Request(nextId, tenantId, propertyId, issue, defaultStatus, now)];
        nextId := nextId + 1;
      }
    }

    method InsertConversation(requestId: Id, sender: string, message: string, now: int, failed: bool)
      returns (r: Option<Id>)
      modifies this
      ensures r == if failed then None else Some(old(nextId))
      ensures Contents() == if failed then old(Contents())
                            else old(Contents()).AddConversation(requestId, sender, message, now)
    {
      if failed {
        r := None;
      } else {
        r := Some(nextId);
        conversations := conversations + [Conversation(nextId, requestId, sender, message, now)];
        nextId := nextId + 1;
      }
    }
  }
}
