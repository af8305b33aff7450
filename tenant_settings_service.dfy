/** TenantSettingsService: reading and changing a tenant's own settings, above all the
  * buffer minutes kept free before and after each booking. Time zones are checked against
  * the host's time-zone database, which the model receives as the predicate `knownZone`;
  * the clock is the parameter `now`. */
module TenantSettingsServices {
  import opened Wrappers
  import opened Entities
  import opened TenantRepositories

  /** The longest buffer the service accepts: 480 minutes, eight hours. */
  const MaxBufferMinutes: int := 480

  datatype BufferField = BufferBefore | BufferAfter

  /** The failures, one per exception the service throws. */
  datatype SettingsError =
    | BufferNegative(field: BufferField)
    | BufferTooLarge(field: BufferField)
    | NoBufferGiven
    | NoPropertyGiven
    | InvalidTimeZone(zone: string)
    | TenantNotFound
    | TenantExists

  /** CreateTenantSettingsRequest. */
  datatype CreateSettingsRequest = CreateSettingsRequest(
    businessName: string,
    email: Option<string>,
    phone: Option<string>,
    address: Option<string>,
    timeZone: Option<string>,
    bufferBeforeMinutes: Option<int>,
    bufferAfterMinutes: Option<int>)

  /** UpdateTenantSettingsRequest: every field is written, the buffers default to 0. */
  datatype UpdateSettingsRequest = UpdateSettingsRequest(
    businessName: string,
    email: Option<string>,
    phone: Option<string>,
    address: Option<string>,
    timeZone: Option<string>,
    bufferBeforeMinutes: int,
    bufferAfterMinutes: int)

  /** PatchTenantSettingsRequest: only the given fields are written. */
  datatype PatchSettingsRequest = PatchSettingsRequest(
    businessName: Option<string>,
    email: Option<string>,
    phone: Option<string>,
    address: Option<string>,
    timeZone: Option<string>,
    bufferBeforeMinutes: Option<int>,
    bufferAfterMinutes: Option<int>)

  predicate InBufferRange(minutes: int)
  {
    0 <= minutes <= MaxBufferMinutes
  }

  /** The check on one supplied buffer value: negative first, then too large. */
  function BufferError(field: BufferField, minutes: int): (r: Option<SettingsError>)
    ensures r.None? <==> InBufferRange(minutes)
    ensures r.Some? ==> r.value == BufferNegative(field) || r.value == BufferTooLarge(field)
  {
    if minutes < 0 then Some(BufferNegative(field))
    else if minutes > MaxBufferMinutes then Some(BufferTooLarge(field))
    else None
  }

  /** The check on an optional buffer value: an absent value passes. */
  function OptionalBufferError(field: BufferField, minutes: Option<int>): (r: Option<SettingsError>)
    ensures r.None? <==> (minutes.Some? ==> InBufferRange(minutes.value))
  {
    if minutes.Some? then BufferError(field, minutes.value) else None
  }

  /** The time-zone check: a null or empty zone is not looked up; any other must be known. */
  function ZoneError(zone: Option<string>, knownZone: string -> bool): (r: Option<SettingsError>)
    ensures r.None? <==> (zone.Some? && zone.value != [] ==> knownZone(zone.value))
    ensures r.Some? ==> r.value == InvalidTimeZone(zone.value)
  {
    if zone.Some? && zone.value != [] && !knownZone(zone.value) then Some(InvalidTimeZone(zone.value)) else None
  }

  // ---------------------------------------------------------------------------------
  // Reading

  /** GetBufferSettingsAsync. */
  function GetBufferSettings(tenants: map<Id, Tenant>, tenantId: Id): (r: Result<(int, int), SettingsError>)
    ensures r.Err? <==> tenantId !in tenants
    ensures r.Err? ==> r.error == TenantNotFound
    ensures r.Ok? ==> r.value == (tenants[tenantId].bufferBeforeMinutes, tenants[tenantId].bufferAfterMinutes)
  {
    match GetTenantById(tenants, tenantId)
    case None => Err(TenantNotFound)
    case Some(t) => Ok((t.bufferBeforeMinutes, t.bufferAfterMinutes))
  }

  /** GetTenantSettingsAsync. */
  function GetTenantSettings(tenants: map<Id, Tenant>, tenantId: Id): (r: Result<Tenant, SettingsError>)
    ensures r.Err? <==> tenantId !in tenants
    ensures r.Err? ==> r.error == TenantNotFound
    ensures r.Ok? ==> r.value == tenants[tenantId]
  {
    match GetTenantById(tenants, tenantId)
    case None => Err(TenantNotFound)
    case Some(t) => Ok(t)
  }

  // ---------------------------------------------------------------------------------
  // UpdateBufferSettingsAsync

  /** The checks of UpdateBufferSettingsAsync, made before the tenant is looked up. */
  function BufferUpdateError(before: Option<int>, after: Option<int>): Option<SettingsError>
  {
    if OptionalBufferError(BufferBefore, before).Some? then OptionalBufferError(BufferBefore, before)
    else if OptionalBufferError(BufferAfter, after).Some? then OptionalBufferError(BufferAfter, after)
    else if before.None? && after.None? then Some(NoBufferGiven)
    else None
  }

  /** A buffer update passes exactly when something is supplied and every supplied value
    * is in range; a failing one reports the first bad value, then the missing values. */
  lemma BufferUpdateErrorMeaning(before: Option<int>, after: Option<int>)
    ensures BufferUpdateError(before, after).None? <==>
      (before.Some? || after.Some?)
      && (before.Some? ==> InBufferRange(before.value))
      && (after.Some? ==> InBufferRange(after.value))
    ensures before.Some? && !InBufferRange(before.value) ==>
      BufferUpdateError(before, after) == BufferError(BufferBefore, before.value)
    ensures before.None? && after.None? ==> BufferUpdateError(before, after) == Some(NoBufferGiven)
  {
  }

  /** The supplied buffers written into a tenant. */
  function WithBuffers(t: Tenant, before: Option<int>, after: Option<int>): (r: Tenant)
    ensures r.bufferBeforeMinutes == before.GetOr(t.bufferBeforeMinutes)
    ensures r.bufferAfterMinutes == after.GetOr(t.bufferAfterMinutes)
    ensures r.(bufferBeforeMinutes := t.bufferBeforeMinutes, bufferAfterMinutes := t.bufferAfterMinutes) == t
  {
    var t := if before.Some? then t.(bufferBeforeMinutes := before.value) else t;
    if after.Some? then t.(bufferAfterMinutes := after.value) else t
  }

  /** An accepted buffer update keeps in-range buffers in range, and repeating it changes
    * nothing more. */
  lemma WithBuffersInRange(t: Tenant, before: Option<int>, after: Option<int>)
    requires BufferUpdateError(before, after).None?
    requires InBufferRange(t.bufferBeforeMinutes) && InBufferRange(t.bufferAfterMinutes)
    ensures InBufferRange(WithBuffers(t, before, after).bufferBeforeMinutes)
    ensures InBufferRange(WithBuffers(t, before, after).bufferAfterMinutes)
    ensures WithBuffers(WithBuffers(t, before, after), before, after) == WithBuffers(t, before, after)
  {
    BufferUpdateErrorMeaning(before, after);
  }

  /** UpdateBufferSettingsAsync: the checks, then the lookup; on success only the supplied
    * buffers and UpdatedAt change, and the resulting pair is what a read then returns. */
  method UpdateBufferSettings(repository: TenantRepository, tenantId: Id, before: Option<int>, after: Option<int>, now: int)
      returns (result: Result<(int, int), SettingsError>)
    requires repository.Valid()
    modifies repository
    ensures repository.Valid()
    ensures result.Err? <==> BufferUpdateError(before, after).Some? || tenantId !in old(repository.tenants)
    ensures result.Err? ==> (repository.tenants == old(repository.tenants)
      && result.error == if BufferUpdateError(before, after).Some? then BufferUpdateError(before, after).value else TenantNotFound)
    ensures result.Ok? ==> (repository.tenants ==
        old(repository.tenants)[tenantId := WithBuffers(old(repository.tenants)[tenantId], before, after).(updatedAt := now)]
      && GetBufferSettings(repository.tenants, tenantId) == result)
  {
    if before.Some? {
      if before.value < 0 {
        return Err(BufferNegative(BufferBefore));
      }
      if before.value > MaxBufferMinutes {
        return Err(BufferTooLarge(BufferBefore));
      }
    }
    if after.Some? {
      if after.value < 0 {
        return Err(BufferNegative(BufferAfter));
      }
      if after.value > MaxBufferMinutes {
        return Err(BufferTooLarge(BufferAfter));
      }
    }
    if before.None? && after.None? {
      return Err(NoBufferGiven);
    }
    var tenant := GetTenantById(repository.tenants, tenantId);
    if tenant.None? {
      return Err(TenantNotFound);
    }
    var updated := WithBuffers(tenant.value, before, after).(updatedAt := now);
    var stored := repository.UpdateTenant(updated);
    result := Ok((updated.bufferBeforeMinutes, updated.bufferAfterMinutes));
  }

  // ---------------------------------------------------------------------------------
  // CreateTenantSettingsAsync

  /** The tenant a create request describes: TimeZone defaults to "UTC" (an empty zone is
    * kept as given), the buffers to 0, and both timestamps are now. */
  function CreatedSettings(tenantId: Id, request: CreateSettingsRequest, now: int): Tenant
  {
    Tenant(tenantId, Some(request.businessName), request.email, request.phone, request.address,
           Some(request.timeZone.GetOr("UTC")), request.bufferBeforeMinutes.GetOr(0), request.bufferAfterMinutes.GetOr(0),
           now, now)
  }

  /** CreateTenantSettingsAsync: refused for an existing tenant, then for an unknown time
    * zone; otherwise the tenant is stored with the defaults filled in. The buffers are not
    * range-checked here. */
  method CreateTenantSettings(repository: TenantRepository, tenantId: Id, request: CreateSettingsRequest,
                              knownZone: string -> bool, now: int)
      returns (result: Result<Tenant, SettingsError>)
    requires repository.Valid()
    modifies repository
    ensures repository.Valid()
    ensures result.Err? <==> tenantId in old(repository.tenants) || ZoneError(request.timeZone, knownZone).Some?
    ensures result.Err? ==> (repository.tenants == old(repository.tenants)
      && result.error == if tenantId in old(repository.tenants) then TenantExists else ZoneError(request.timeZone, knownZone).value)
    ensures result.Ok? ==> (result.value == CreatedSettings(tenantId, request, now)
      && repository.tenants == old(repository.tenants)[tenantId := result.value]
      && GetTenantSettings(repository.tenants, tenantId) == Ok(result.value))
  {
    var existing := GetTenantById(repository.tenants, tenantId);
    if existing.Some? {
      return Err(TenantExists);
    }
    var zoneError := ZoneError(request.timeZone, knownZone);
    if zoneError.Some? {
      return Err(zoneError.value);
    }
    var tenant := CreatedSettings(tenantId, request, now);
    var stored := repository.CreateTenant(tenant);
    result := Ok(tenant);
  }

  /** A created tenant carries the request's name and contact fields, a zone ("UTC" when
    * none was given), and the given buffers or 0. */
  lemma CreatedSettingsDefaults(tenantId: Id, request: CreateSettingsRequest, now: int)
    ensures var t := CreatedSettings(tenantId, request, now);
      t.id == tenantId && t.businessName == Some(request.businessName)
      && (request.timeZone.None? ==> t.timeZone == Some("UTC"))
      && (request.timeZone.Some? ==> t.timeZone == request.timeZone)
      && (request.bufferBeforeMinutes.None? ==> t.bufferBeforeMinutes == 0)
      && (request.bufferAfterMinutes.None? ==> t.bufferAfterMinutes == 0)
      && t.createdAt == now && t.updatedAt == now
  {
  }

  // ---------------------------------------------------------------------------------
  // UpdateTenantSettingsAsync

  /** The checks of UpdateTenantSettingsAsync, in order: both negatives, both too large,
    * then the time zone. */
  function SettingsUpdateError(request: UpdateSettingsRequest, knownZone: string -> bool): Option<SettingsError>
  {
    if request.bufferBeforeMinutes < 0 then Some(BufferNegative(BufferBefore))
    else if request.bufferAfterMinutes < 0 then Some(BufferNegative(BufferAfter))
    else if request.bufferBeforeMinutes > MaxBufferMinutes then Some(BufferTooLarge(BufferBefore))
    else if request.bufferAfterMinutes > MaxBufferMinutes then Some(BufferTooLarge(BufferAfter))
    else ZoneError(request.timeZone, knownZone)
  }

  /** A full update passes exactly when both buffers are in range and the zone is usable;
    * a negative buffer is reported before a too large one. */
  lemma SettingsUpdateErrorMeaning(request: UpdateSettingsRequest, knownZone: string -> bool)
    ensures SettingsUpdateError(request, knownZone).None? <==>
      InBufferRange(request.bufferBeforeMinutes) && InBufferRange(request.bufferAfterMinutes)
      && ZoneError(request.timeZone, knownZone).None?
    ensures request.bufferAfterMinutes < 0 && request.bufferBeforeMinutes >= 0 ==>
      SettingsUpdateError(request, knownZone) == Some(BufferNegative(BufferAfter))
  {
  }

  /** Every field of the tenant overwritten by the request, a null zone included. */
  function UpdatedSettings(t: Tenant, request: UpdateSettingsRequest, now: int): Tenant
  {
    t.(businessName := Some(request.businessName), email := request.email, phone := request.phone,
       address := request.address, timeZone := request.timeZone,
       bufferBeforeMinutes := request.bufferBeforeMinutes, bufferAfterMinutes := request.bufferAfterMinutes,
       updatedAt := now)
  }

  /** A full update forgets everything but the tenant's id and creation time: two tenants
    * that agree on those are updated to the same tenant. */
  lemma UpdatedSettingsOverwrites(t: Tenant, u: Tenant, request: UpdateSettingsRequest, now: int)
    requires t.id == u.id && t.createdAt == u.createdAt
    ensures UpdatedSettings(t, request, now) == UpdatedSettings(u, request, now)
    ensures UpdatedSettings(t, request, now).timeZone == request.timeZone
  {
  }

  /** UpdateTenantSettingsAsync: not found first, then the checks; on success every field
    * is replaced. */
  method UpdateTenantSettings(repository: TenantRepository, tenantId: Id, request: UpdateSettingsRequest,
                              knownZone: string -> bool, now: int)
      returns (result: Result<Tenant, SettingsError>)
    requires repository.Valid()
    modifies repository
    ensures repository.Valid()
    ensures result.Err? <==> tenantId !in old(repository.tenants) || SettingsUpdateError(request, knownZone).Some?
    ensures result.Err? ==> (repository.tenants == old(repository.tenants)
      && result.error == if tenantId !in old(repository.tenants) then TenantNotFound else SettingsUpdateError(request, knownZone).value)
    ensures result.Ok? ==> (result.value == UpdatedSettings(old(repository.tenants)[tenantId], request, now)
      && repository.tenants == old(repository.tenants)[tenantId := result.value]
      && GetTenantSettings(repository.tenants, tenantId) == Ok(result.value))
  {
    var tenant := GetTenantById(repository.tenants, tenantId);
    if tenant.None? {
      return Err(TenantNotFound);
    }
    if request.bufferBeforeMinutes < 0 {
      return Err(BufferNegative(BufferBefore));
    }
    if request.bufferAfterMinutes < 0 {
      return Err(BufferNegative(BufferAfter));
    }
    if request.bufferBeforeMinutes > MaxBufferMinutes {
      return Err(BufferTooLarge(BufferBefore));
    }
    if request.bufferAfterMinutes > MaxBufferMinutes {
      return Err(BufferTooLarge(BufferAfter));
    }
    var zoneError := ZoneError(request.timeZone, knownZone);
    if zoneError.Some? {
      return Err(zoneError.value);
    }
    var updated := UpdatedSettings(tenant.value, request, now);
    var stored := repository.UpdateTenant(updated);
    result := Ok(updated);
  }

  // ---------------------------------------------------------------------------------
  // PatchTenantSettingsAsync

  /** Whether the patch names no property at all. */
  predicate EmptyPatch(request: PatchSettingsRequest)
  {
    request.businessName.None? && request.email.None? && request.phone.None? && request.address.None?
    && request.timeZone.None? && request.bufferBeforeMinutes.None? && request.bufferAfterMinutes.None?
  }

  /** The checks of PatchTenantSettingsAsync after the lookup, in order. */
  function PatchError(request: PatchSettingsRequest, knownZone: string -> bool): Option<SettingsError>
  {
    if EmptyPatch(request) then Some(NoPropertyGiven)
    else if OptionalBufferError(BufferBefore, request.bufferBeforeMinutes).Some? then
      OptionalBufferError(BufferBefore, request.bufferBeforeMinutes)
    else if OptionalBufferError(BufferAfter, request.bufferAfterMinutes).Some? then
      OptionalBufferError(BufferAfter, request.bufferAfterMinutes)
    else ZoneError(request.timeZone, knownZone)
  }

  /** A patch passes exactly when it names something, its buffers are in range and its
    * zone is usable; an empty patch is refused before anything else. */
  lemma PatchErrorMeaning(request: PatchSettingsRequest, knownZone: string -> bool)
    ensures PatchError(request, knownZone).None? <==>
      !EmptyPatch(request)
      && (request.bufferBeforeMinutes.Some? ==> InBufferRange(request.bufferBeforeMinutes.value))
      && (request.bufferAfterMinutes.Some? ==> InBufferRange(request.bufferAfterMinutes.value))
      && ZoneError(request.timeZone, knownZone).None?
    ensures EmptyPatch(request) ==> PatchError(request, knownZone) == Some(NoPropertyGiven)
  {
  }

  /** The non-null fields of the patch written into the tenant. */
  function PatchedSettings(t: Tenant, request: PatchSettingsRequest, now: int): Tenant
  {
    t.(businessName := if request.businessName.Some? then request.businessName else t.businessName,
       email := if request.email.Some? then request.email else t.email,
       phone := if request.phone.Some? then request.phone else t.phone,
       address := if request.address.Some? then request.address else t.address,
       timeZone := if request.timeZone.Some? then request.timeZone else t.timeZone,
       bufferBeforeMinutes := request.bufferBeforeMinutes.GetOr(t.bufferBeforeMinutes),
       bufferAfterMinutes := request.bufferAfterMinutes.GetOr(t.bufferAfterMinutes),
       updatedAt := now)
  }

  /** A patch changes exactly the fields it names (and UpdatedAt); patching twice with the
    * same request is patching once; an accepted patch keeps in-range buffers in range. */
  lemma PatchedSettingsMeaning(t: Tenant, request: PatchSettingsRequest, knownZone: string -> bool, now: int)
    ensures var r := PatchedSettings(t, request, now);
      r.id == t.id && r.createdAt == t.createdAt && r.updatedAt == now
      && (request.businessName.None? ==> r.businessName == t.businessName)
      && (request.businessName.Some? ==> r.businessName == request.businessName)
      && (request.email.None? ==> r.email == t.email)
      && (request.phone.None? ==> r.phone == t.phone)
      && (request.address.None? ==> r.address == t.address)
      && (request.timeZone.None? ==> r.timeZone == t.timeZone)
      && (request.timeZone.Some? ==> r.timeZone == request.timeZone)
      && r.bufferBeforeMinutes == request.bufferBeforeMinutes.GetOr(t.bufferBeforeMinutes)
      && r.bufferAfterMinutes == request.bufferAfterMinutes.GetOr(t.bufferAfterMinutes)
    ensures PatchedSettings(PatchedSettings(t, request, now), request, now) == PatchedSettings(t, request, now)
    ensures PatchError(request, knownZone).None? && InBufferRange(t.bufferBeforeMinutes) && InBufferRange(t.bufferAfterMinutes) ==>
      InBufferRange(PatchedSettings(t, request, now).bufferBeforeMinutes)
      && InBufferRange(PatchedSettings(t, request, now).bufferAfterMinutes)
  {
    PatchErrorMeaning(request, knownZone);
  }

  /** PatchTenantSettingsAsync: not found first, then the checks; on success only the
    * named fields and UpdatedAt change. */
  method PatchTenantSettings(repository: TenantRepository, tenantId: Id, request: PatchSettingsRequest,
                             knownZone: string -> bool, now: int)
      returns (result: Result<Tenant, SettingsError>)
    requires repository.Valid()
    modifies repository
    ensures repository.Valid()
    ensures result.Err? <==> tenantId !in old(repository.tenants) || PatchError(request, knownZone).Some?
    ensures result.Err? ==> (repository.tenants == old(repository.tenants)
      && result.error == if tenantId !in old(repository.tenants) then TenantNotFound else PatchError(request, knownZone).value)
    ensures result.Ok? ==> (result.value == PatchedSettings(old(repository.tenants)[tenantId], request, now)
      && repository.tenants == old(repository.tenants)[tenantId := result.value]
      && GetTenantSettings(repository.tenants, tenantId) == Ok(result.value))
  {
    var tenant := GetTenantById(repository.tenants, tenantId);
    if tenant.None? {
      return Err(TenantNotFound);
    }
    if EmptyPatch(request) {
      return Err(NoPropertyGiven);
    }
    if request.bufferBeforeMinutes.Some? {
      if request.bufferBeforeMinutes.value < 0 {
        return Err(BufferNegative(BufferBefore));
      }
      if request.bufferBeforeMinutes.value > MaxBufferMinutes {
        return Err(BufferTooLarge(BufferBefore));
      }
    }
    if request.bufferAfterMinutes.Some? {
      if request.bufferAfterMinutes.value < 0 {
        return Err(BufferNegative(BufferAfter));
      }
      if request.bufferAfterMinutes.value > MaxBufferMinutes {
        return Err(BufferTooLarge(BufferAfter));
      }
    }
    var zoneError := ZoneError(request.timeZone, knownZone);
    if zoneError.Some? {
      return Err(zoneError.value);
    }
    var patched := PatchedSettings(tenant.value, request, now);
    var stored := repository.UpdateTenant(patched);
    result := Ok(patched);
  }

  // ---------------------------------------------------------------------------------
  // ResetBufferSettingsAsync

  /** Both buffers set to 0. The service sets nothing else, but saving a modified tenant
    * stamps UpdatedAt with the current time, here `now`. */
  function ResetBuffers(t: Tenant, now: int): Tenant
  {
    t.(bufferBeforeMinutes := 0, bufferAfterMinutes := 0, updatedAt := now)
  }

  /** A reset is the accepted buffer update that supplies 0 for both buffers at the same
    * time; resetting twice is resetting once. */
  lemma ResetIsZeroUpdate(t: Tenant, now: int)
    ensures ResetBuffers(t, now) == WithBuffers(t, Some(0), Some(0)).(updatedAt := now)
    ensures BufferUpdateError(Some(0), Some(0)).None?
    ensures ResetBuffers(ResetBuffers(t, now), now) == ResetBuffers(t, now)
    ensures ResetBuffers(t, now).(updatedAt := t.updatedAt) == WithBuffers(t, Some(0), Some(0))
  {
    BufferUpdateErrorMeaning(Some(0), Some(0));
  }

  /** ResetBufferSettingsAsync: not found for an unknown tenant; otherwise both buffers
    * become 0, UpdatedAt becomes `now` on save, and nothing else changes. */
  method ResetBufferSettings(repository: TenantRepository, tenantId: Id, now: int) returns (result: Result<(), SettingsError>)
    requires repository.Valid()
    modifies repository
    ensures repository.Valid()
    ensures result.Err? <==> tenantId !in old(repository.tenants)
    ensures result.Err? ==> result.error == TenantNotFound && repository.tenants == old(repository.tenants)
    ensures result.Ok? ==> (repository.tenants == old(repository.tenants)[tenantId := ResetBuffers(old(repository.tenants)[tenantId], now)]
      && GetBufferSettings(repository.tenants, tenantId) == Ok((0, 0))
      && repository.tenants[tenantId].updatedAt == now)
  {
    var tenant := GetTenantById(repository.tenants, tenantId);
    if tenant.None? {
      return Err(TenantNotFound);
    }
    var stored := repository.UpdateTenant(ResetBuffers(tenant.value, now));
    result := Ok(());
  }
}
