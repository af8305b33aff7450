/** The Tenants table, a local copy of the tenant service's tenants plus this service's own
  * scheduling settings, keyed by tenant id. */
module TenantRepositories {
  import opened Wrappers
  import opened Entities

  /** GetTenantByIdAsync. */
  function GetTenantById(tenants: map<Id, Tenant>, id: Id): (r: Option<Tenant>)
    ensures r.Some? <==> id in tenants
    ensures r.Some? ==> r.value == tenants[id]
  {
    if id in tenants then Some(tenants[id]) else None
  }

  class TenantRepository {
    var tenants: map<Id, Tenant>

    /** Every tenant is stored under its own id. */
    ghost predicate Valid()
      reads this
    {
      forall id :: id in tenants ==> tenants[id].id == id
    }

    constructor()
      ensures Valid() && tenants == map[]
    {
      tenants := map[];
    }

    /** CreateTenantAsync: a new key is inserted; an existing one is refused. */
    method CreateTenant(tenant: Tenant) returns (r: Result<(), StoreError>)
      requires Valid()
      modifies this
      ensures Valid()
      ensures r.Err? <==> tenant.id in old(tenants)
      ensures r.Err? ==> r.error == DuplicateKey && tenants == old(tenants)
      ensures r.Ok? ==> tenants == old(tenants)[tenant.id := tenant]
    {
      if tenant.id in tenants {
        return Err(DuplicateKey);
      }
      tenants := tenants[tenant.id := tenant];
      r := Ok(());
    }

    /** UpdateTenantAsync: the stored tenant with the same id is replaced. */
    method UpdateTenant(tenant: Tenant) returns (r: Result<(), StoreError>)
      requires Valid()
      modifies this
      ensures Valid()
      ensures r.Err? <==> tenant.id !in old(tenants)
      ensures r.Err? ==> r.error == RowNotFound && tenants == old(tenants)
      ensures r.Ok? ==> tenants == old(tenants)[tenant.id := tenant]
    {
      if tenant.id !in tenants {
        return Err(RowNotFound);
      }
      tenants := tenants[tenant.id := tenant];
      r := Ok(());
    }

    /** DeleteTenantAsync: removes the tenant when present. */
    method DeleteTenant(tenantId: Id)
      requires Valid()
      modifies this
      ensures Valid()
      ensures tenants == old(tenants) - {tenantId}
    {
      tenants := tenants - {tenantId};
    }
  }
}
