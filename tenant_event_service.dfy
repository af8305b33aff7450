/** Mirroring the tenant service's events into the local Tenants table: a created event
  * inserts the tenant with default settings unless it is already there, an updated event
  * replaces the business fields and keeps the local settings. "Now" is a parameter. */
module TenantEvents {
  import opened Wrappers
  import opened Entities
  import opened TenantRepositories

  datatype TenantCreatedEvent = TenantCreatedEvent(
    tenantId: Id,
    businessName: Option<string>,
    businessEmail: Option<string>,
    businessPhone: Option<string>,
    address: Option<string>)

  datatype TenantUpdatedEvent = TenantUpdatedEvent(
    tenantId: Id,
    businessName: Option<string>,
    businessEmail: Option<string>,
    businessPhone: Option<string>,
    address: Option<string>)

  /** A new tenant: the event's business fields, no time zone and no buffers. */
  function NewTenant(e: TenantCreatedEvent, now: int): (t: Tenant)
    ensures t.id == e.tenantId && t.businessName == e.businessName && t.email == e.businessEmail
    ensures t.phone == e.businessPhone && t.address == e.address
    ensures t.timeZone == None && t.bufferBeforeMinutes == 0 && t.bufferAfterMinutes == 0
    ensures t.createdAt == now && t.updatedAt == now
  {
    Tenant(e.tenantId, e.businessName, e.businessEmail, e.businessPhone, e.address, None, 0, 0, now, now)
  }

  /** The tenant after an update: business fields from the event, local settings and
    * creation time kept. */
  function UpdatedTenant(existing: Tenant, e: TenantUpdatedEvent, now: int): (t: Tenant)
    ensures t.id == e.tenantId && t.businessName == e.businessName && t.email == e.businessEmail
    ensures t.phone == e.businessPhone && t.address == e.address
    ensures t.timeZone == existing.timeZone
    ensures t.bufferBeforeMinutes == existing.bufferBeforeMinutes && t.bufferAfterMinutes == existing.bufferAfterMinutes
    ensures t.createdAt == existing.createdAt && t.updatedAt == now
  {
    Tenant(e.tenantId, e.businessName, e.businessEmail, e.businessPhone, e.address,
           existing.timeZone, existing.bufferBeforeMinutes, existing.bufferAfterMinutes, existing.createdAt, now)
  }

  /** The table after a created event. */
  function AfterTenantCreated(tenants: map<Id, Tenant>, e: TenantCreatedEvent, now: int): map<Id, Tenant>
  {
    if e.tenantId in tenants then tenants else tenants[e.tenantId := NewTenant(e, now)]
  }

  /** The table after an updated event. */
  function AfterTenantUpdated(tenants: map<Id, Tenant>, e: TenantUpdatedEvent, now: int): map<Id, Tenant>
  {
    if e.tenantId !in tenants then tenants else tenants[e.tenantId := UpdatedTenant(tenants[e.tenantId], e, now)]
  }

  /** A created event keeps every stored tenant as it is and leaves the event's tenant
    * present; a replayed one changes nothing. */
  lemma TenantCreatedReplay(tenants: map<Id, Tenant>, e: TenantCreatedEvent, now: int, later: int)
    ensures forall id :: id in tenants ==>
      (id in AfterTenantCreated(tenants, e, now) && AfterTenantCreated(tenants, e, now)[id] == tenants[id])
    ensures e.tenantId in AfterTenantCreated(tenants, e, now)
    ensures AfterTenantCreated(AfterTenantCreated(tenants, e, now), e, later) == AfterTenantCreated(tenants, e, now)
  {
  }

  /** An update of an unknown tenant changes nothing; otherwise only that tenant changes,
    * keeping its time zone, buffers and creation time; replaying the update gives the same
    * tenant apart from the stamp. */
  lemma TenantUpdatedKeepsSettings(tenants: map<Id, Tenant>, e: TenantUpdatedEvent, now: int, later: int)
    ensures e.tenantId !in tenants ==> AfterTenantUpdated(tenants, e, now) == tenants
    ensures AfterTenantUpdated(tenants, e, now).Keys == tenants.Keys
    ensures forall id :: id in tenants && id != e.tenantId ==> AfterTenantUpdated(tenants, e, now)[id] == tenants[id]
    ensures e.tenantId in tenants ==>
      var t := AfterTenantUpdated(tenants, e, now)[e.tenantId];
      t.timeZone == tenants[e.tenantId].timeZone
      && t.bufferBeforeMinutes == tenants[e.tenantId].bufferBeforeMinutes
      && t.bufferAfterMinutes == tenants[e.tenantId].bufferAfterMinutes
      && t.createdAt == tenants[e.tenantId].createdAt
    ensures AfterTenantUpdated(AfterTenantUpdated(tenants, e, now), e, later) == AfterTenantUpdated(tenants, e, later)
  {
  }

  /** HandleTenantCreatedEventAsync. */
  method HandleTenantCreated(repository: TenantRepository, e: TenantCreatedEvent, now: int)
    requires repository.Valid()
    modifies repository
    ensures repository.Valid()
    ensures repository.tenants == AfterTenantCreated(old(repository.tenants), e, now)
  {
    var existing := GetTenantById(repository.tenants, e.tenantId);
    if existing.Some? {
      return;
    }
    var created := repository.CreateTenant(NewTenant(e, now));
  }

  /** HandleTenantUpdatedEventAsync. */
  method HandleTenantUpdated(repository: TenantRepository, e: TenantUpdatedEvent, now: int)
    requires repository.Valid()
    modifies repository
    ensures repository.Valid()
    ensures repository.tenants == AfterTenantUpdated(old(repository.tenants), e, now)
  {
    var existing := GetTenantById(repository.tenants, e.tenantId);
    if existing.None? {
      return;
    }
    var updated := repository.UpdateTenant(UpdatedTenant(existing.value, e, now));
  }
}
