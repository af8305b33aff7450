/** WorkingHoursController: creating one day's working hours, and replacing a tenant's
  * whole week from a schedule. The operations receive the tenant id of the calling
  * provider; the role checks that produce it are not part of this model. */
module WorkingHoursControllers {
  import opened Wrappers
  import opened Calendar
  import opened Entities
  import opened Sequences
  import opened WorkingHoursRepositories

  /** The messages of CreateWeeklySchedule's validation; each names the entry's days. */
  datatype ScheduleError =
    | TimesRequired(days: seq<int>)
    | StartNotBeforeEndFor(days: seq<int>)

  /** The failures of the two create flows, one per exception they raise. */
  datatype ControllerError =
    | StartNotBeforeEnd
    | DayAlreadyHasHours(day: int)
    | ScheduleInvalid(errors: seq<ScheduleError>)
    | StoreFailed

  /** CreateWorkingHoursRequest. */
  datatype CreateWorkingHoursRequest = CreateWorkingHoursRequest(
    day: int,
    startTime: TimeOfDay,
    endTime: TimeOfDay,
    maxConcurrentBookings: Option<int>)

  /** The row a create request describes; MaxConcurrentBookings defaults to 1. */
  function RequestedRow(request: CreateWorkingHoursRequest, tenantId: Id, id: Id): WorkingHours
  {
    WorkingHours(id, tenantId, request.day, request.startTime, request.endTime, request.maxConcurrentBookings.GetOr(1))
  }

  /** CreateWorkingHours: start must be before end and the day must be free; the new row is
    * then the tenant's row for that day. */
  method CreateWorkingHours(repository: WorkingHoursRepository, tenantId: Id, request: CreateWorkingHoursRequest)
      returns (result: Result<WorkingHours, ControllerError>)
    requires repository.Valid()
    modifies repository
    ensures repository.Valid()
    ensures result.Err? <==>
      request.startTime >= request.endTime
      || GetWorkingHoursByTenantAndDay(old(repository.rows), tenantId, request.day).Some?
    ensures result.Err? ==> (repository.rows == old(repository.rows)
      && result.error == if request.startTime >= request.endTime then StartNotBeforeEnd else DayAlreadyHasHours(request.day))
    ensures result.Ok? ==> (result.value == RequestedRow(request, tenantId, old(repository.nextId))
      && repository.rows == old(repository.rows) + [result.value]
      && GetWorkingHoursByTenantAndDay(repository.rows, tenantId, request.day) == Some(result.value))
  {
    if request.startTime >= request.endTime {
      return Err(StartNotBeforeEnd);
    }
    var existing := GetWorkingHoursByTenantAndDay(repository.rows, tenantId, request.day);
    if existing.Some? {
      return Err(DayAlreadyHasHours(request.day));
    }
    var created := repository.CreateWorkingHours(RequestedRow(request, tenantId, repository.nextId));
    assert created.Ok?;
    assert created.value in repository.rows;
    result := Ok(created.value);
  }

  // ---------------------------------------------------------------------------------
  // The weekly schedule

  /** WeeklyScheduleEntry. */
  datatype WeeklyScheduleEntry = WeeklyScheduleEntry(
    days: seq<int>,
    startTime: Option<TimeOfDay>,
    endTime: Option<TimeOfDay>,
    isWorkFree: bool,
    maxConcurrentBookings: Option<int>)

  /** The body of CreateWeeklySchedule's response. */
  datatype WeeklyScheduleResponse = WeeklyScheduleResponse(
    createdCount: int,
    createdDays: seq<int>,
    freeDays: seq<int>)

  /** The errors one entry adds: a working entry needs both times, and times that are
    * both given must be in order. */
  function EntryErrors(entry: WeeklyScheduleEntry): seq<ScheduleError>
  {
    (if !entry.isWorkFree && (entry.startTime.None? || entry.endTime.None?) then [TimesRequired(entry.days)] else [])
    + (if entry.startTime.Some? && entry.endTime.Some? && entry.startTime.value >= entry.endTime.value
       then [StartNotBeforeEndFor(entry.days)] else [])
  }

  /** The errors of the validation loop, entry after entry. */
  function ScheduleErrors(schedule: seq<WeeklyScheduleEntry>): seq<ScheduleError>
  {
    if schedule == [] then []
    else ScheduleErrors(schedule[..|schedule| - 1]) + EntryErrors(schedule[|schedule| - 1])
  }

  /** A working entry has both times. */
  predicate TimesGiven(entry: WeeklyScheduleEntry)
  {
    entry.isWorkFree || (entry.startTime.Some? && entry.endTime.Some?)
  }

  /** An entry the validation lets through. */
  predicate EntryAccepted(entry: WeeklyScheduleEntry)
  {
    TimesGiven(entry)
    && (entry.startTime.Some? && entry.endTime.Some? ==> entry.startTime.value < entry.endTime.value)
  }

  predicate ScheduleAccepted(schedule: seq<WeeklyScheduleEntry>)
  {
    forall e :: e in schedule ==> EntryAccepted(e)
  }

  /** An entry adds no error exactly when it is accepted, and at most one per check. */
  lemma EntryErrorsMeaning(entry: WeeklyScheduleEntry)
    ensures EntryErrors(entry) == [] <==> EntryAccepted(entry)
    ensures |EntryErrors(entry)| <= 2
  {
  }

  /** The validation reports every entry's errors together: no error exactly when every
    * entry is accepted, and each error is one of some entry's. */
  lemma {:induction false} ScheduleErrorsMeaning(schedule: seq<WeeklyScheduleEntry>)
    ensures ScheduleErrors(schedule) == [] <==> ScheduleAccepted(schedule)
    ensures |ScheduleErrors(schedule)| <= 2 * |schedule|
    ensures forall x :: x in ScheduleErrors(schedule) <==> exists e :: e in schedule && x in EntryErrors(e)
  {
    if schedule != [] {
      var init, last := schedule[..|schedule| - 1], schedule[|schedule| - 1];
      assert schedule == init + [last];
      ScheduleErrorsMeaning(init);
      EntryErrorsMeaning(last);
      forall x | x in ScheduleErrors(schedule)
        ensures exists e :: e in schedule && x in EntryErrors(e)
      {
        if x in ScheduleErrors(init) {
          var e :| e in init && x in EntryErrors(e);
          assert e in schedule;
        } else {
          assert x in EntryErrors(last);
        }
      }
      forall x | exists e :: e in schedule && x in EntryErrors(e)
        ensures x in ScheduleErrors(schedule)
      {
        var e :| e in schedule && x in EntryErrors(e);
        if e != last {
          assert e in init;
        }
      }
      if ScheduleAccepted(schedule) {
        assert forall e :: e in init ==> e in schedule;
      }
      if ScheduleErrors(schedule) == [] {
        forall e | e in schedule ensures EntryAccepted(e) {
          if e != last {
            assert e in init;
          }
        }
      }
    }
  }

  /** The validation loop of CreateWeeklySchedule. */
  method ValidateSchedule(schedule: seq<WeeklyScheduleEntry>) returns (errors: seq<ScheduleError>)
    ensures errors == ScheduleErrors(schedule)
  {
    errors := [];
    for i := 0 to |schedule|
      invariant errors == ScheduleErrors(schedule[..i])
    {
      var entry := schedule[i];
      if !entry.isWorkFree && (entry.startTime.None? || entry.endTime.None?) {
        errors := errors + [TimesRequired(entry.days)];
      }
      if entry.startTime.Some? && entry.endTime.Some? && entry.startTime.value >= entry.endTime.value {
        errors := errors + [StartNotBeforeEndFor(entry.days)];
      }
      assert schedule[..i + 1][..i] == schedule[..i];
    }
    assert schedule[..|schedule|] == schedule;
  }

  /** The row a working entry yields for one of its days. */
  function EntryRow(entry: WeeklyScheduleEntry, tenantId: Id, id: Id, day: int): WorkingHours
    requires TimesGiven(entry) && !entry.isWorkFree
  {
    WorkingHours(id, tenantId, day, entry.startTime.value, entry.endTime.value, entry.maxConcurrentBookings.GetOr(1))
  }

  /** The rows an entry yields, ids handed out from firstId: one per listed day, or none for
    * a work-free entry. */
  function EntryRows(entry: WeeklyScheduleEntry, tenantId: Id, firstId: nat): seq<WorkingHours>
    requires TimesGiven(entry)
  {
    if entry.isWorkFree then []
    else seq(|entry.days|, k requires 0 <= k < |entry.days| => EntryRow(entry, tenantId, firstId + k, entry.days[k]))
  }

  /** The days an entry creates rows for. */
  function EntryDays(entry: WeeklyScheduleEntry): seq<int>
  {
    if entry.isWorkFree then [] else entry.days
  }

  /** createdDays: the days of the working entries, in request order. */
  function CreatedDays(schedule: seq<WeeklyScheduleEntry>): seq<int>
  {
    if schedule == [] then []
    else CreatedDays(schedule[..|schedule| - 1]) + EntryDays(schedule[|schedule| - 1])
  }

  /** workingHoursToCreate: the rows of every entry, in request order, ids handed out from
    * firstId. */
  function ScheduleRows(schedule: seq<WeeklyScheduleEntry>, tenantId: Id, firstId: nat): seq<WorkingHours>
    requires forall e :: e in schedule ==> TimesGiven(e)
  {
    if schedule == [] then []
    else
      var init := schedule[..|schedule| - 1];
      var rows := ScheduleRows(init, tenantId, firstId);
      rows + EntryRows(schedule[|schedule| - 1], tenantId, firstId + |rows|)
  }

  /** Row k of a schedule is the tenant's row for created day k, with id firstId + k. */
  lemma {:induction false} ScheduleRowsKeys(schedule: seq<WeeklyScheduleEntry>, tenantId: Id, firstId: nat)
    requires forall e :: e in schedule ==> TimesGiven(e)
    ensures var r := ScheduleRows(schedule, tenantId, firstId);
      |r| == |CreatedDays(schedule)|
      && forall k :: 0 <= k < |r| ==>
           r[k].id == firstId + k && r[k].tenantId == tenantId && r[k].day == CreatedDays(schedule)[k]
  {
    if schedule != [] {
      var init, last := schedule[..|schedule| - 1], schedule[|schedule| - 1];
      ScheduleRowsKeys(init, tenantId, firstId);
    }
  }

  /** Every row carries the times and capacity of a working entry that lists its day. */
  lemma {:induction false} ScheduleRowsFromEntries(schedule: seq<WeeklyScheduleEntry>, tenantId: Id, firstId: nat)
    requires forall e :: e in schedule ==> TimesGiven(e)
    ensures forall w :: w in ScheduleRows(schedule, tenantId, firstId) ==>
      exists e :: e in schedule && !e.isWorkFree && w.day in e.days
        && w == EntryRow(e, tenantId, w.id, w.day)
  {
    if schedule != [] {
      var init, last := schedule[..|schedule| - 1], schedule[|schedule| - 1];
      ScheduleRowsFromEntries(init, tenantId, firstId);
      var rows := ScheduleRows(init, tenantId, firstId);
      forall w | w in ScheduleRows(schedule, tenantId, firstId)
        ensures exists e :: e in schedule && !e.isWorkFree && w.day in e.days && w == EntryRow(e, tenantId, w.id, w.day)
      {
        if w in rows {
          var e :| e in init && !e.isWorkFree && w.day in e.days && w == EntryRow(e, tenantId, w.id, w.day);
          assert e in schedule;
        } else {
          assert w in EntryRows(last, tenantId, firstId + |rows|);
          assert last in schedule;
        }
      }
    }
  }

  /** Every day listed by a working entry gets a row with that entry's times. */
  lemma {:induction false} ScheduleRowsCoverEntries(schedule: seq<WeeklyScheduleEntry>, tenantId: Id, firstId: nat)
    requires forall e :: e in schedule ==> TimesGiven(e)
    ensures forall e, d :: e in schedule && !e.isWorkFree && d in e.days ==>
      exists w :: w in ScheduleRows(schedule, tenantId, firstId) && w == EntryRow(e, tenantId, w.id, d)
  {
    if schedule != [] {
      var init, last := schedule[..|schedule| - 1], schedule[|schedule| - 1];
      ScheduleRowsCoverEntries(init, tenantId, firstId);
      var rows := ScheduleRows(init, tenantId, firstId);
      var all := ScheduleRows(schedule, tenantId, firstId);
      forall e, d | e in schedule && !e.isWorkFree && d in e.days
        ensures exists w :: w in all && w == EntryRow(e, tenantId, w.id, d)
      {
        if e in init {
          var w :| w in rows && w == EntryRow(e, tenantId, w.id, d);
          assert w in all;
        } else {
          assert e == last;
          var k :| 0 <= k < |e.days| && e.days[k] == d;
          var w := EntryRows(last, tenantId, firstId + |rows|)[k];
          assert w == all[|rows| + k];
        }
      }
    }
  }

  /** The rows of an accepted schedule all have their start before their end. */
  lemma AcceptedScheduleRowsInOrder(schedule: seq<WeeklyScheduleEntry>, tenantId: Id, firstId: nat)
    requires ScheduleAccepted(schedule)
    ensures forall w :: w in ScheduleRows(schedule, tenantId, firstId) ==> w.startTime < w.endTime
  {
    ScheduleRowsFromEntries(schedule, tenantId, firstId);
  }

  /** A day is created exactly when some working entry lists it. */
  lemma {:induction false} CreatedDaysMeaning(schedule: seq<WeeklyScheduleEntry>)
    ensures forall d :: d in CreatedDays(schedule) <==> exists e :: e in schedule && !e.isWorkFree && d in e.days
  {
    if schedule != [] {
      var init, last := schedule[..|schedule| - 1], schedule[|schedule| - 1];
      assert schedule == init + [last];
      CreatedDaysMeaning(init);
      forall d | exists e :: e in schedule && !e.isWorkFree && d in e.days
        ensures d in CreatedDays(schedule)
      {
        var e :| e in schedule && !e.isWorkFree && d in e.days;
        if e != last {
          assert e in init;
        }
      }
      forall d | d in CreatedDays(schedule)
        ensures exists e :: e in schedule && !e.isWorkFree && d in e.days
      {
        if d in CreatedDays(init) {
          var e :| e in init && !e.isWorkFree && d in e.days;
          assert e in schedule;
        } else {
          assert last in schedule;
        }
      }
    }
  }

  /** The weekdays from `from` to Saturday without a created row, in enum order. */
  function FreeDaysFrom(from: int, createdDays: seq<int>): (r: seq<int>)
    requires 0 <= from <= 7
    ensures forall d :: d in r <==> from <= d < 7 && d !in createdDays
    ensures forall i, j :: 0 <= i < j < |r| ==> r[i] < r[j]
    decreases 7 - from
  {
    if from == 7 then []
    else
      var rest := FreeDaysFrom(from + 1, createdDays);
      var head := if from in createdDays then [] else [from];
      var r := head + rest;
      assert forall i, j :: 0 <= i < j < |r| ==> r[i] < r[j] by {
        forall i, j | 0 <= i < j < |r| ensures r[i] < r[j] {
          assert r[j] == rest[j - |head|] && rest[j - |head|] in rest;
          if i >= |head| {
            assert r[i] == rest[i - |head|];
          }
        }
      }
      assert forall d :: d in r <==> d in head || d in rest;
      r
  }

  /** Enum.GetValues<DayOfWeek>().Except(createdDays): the weekdays, Sunday to Saturday,
    * that got no row. */
  function FreeDays(createdDays: seq<int>): (r: seq<int>)
    ensures forall d :: d in r <==> 0 <= d < 7 && d !in createdDays
    ensures forall i, j :: 0 <= i < j < |r| ==> r[i] < r[j]
  {
    FreeDaysFrom(0, createdDays)
  }

  /** The free days of a schedule are the weekdays no working entry lists; together with
    * the created days they cover the week. */
  lemma FreeDaysOfSchedule(schedule: seq<WeeklyScheduleEntry>)
    ensures forall d :: d in FreeDays(CreatedDays(schedule)) <==>
      0 <= d < 7 && !exists e :: e in schedule && !e.isWorkFree && d in e.days
    ensures forall d :: 0 <= d < 7 ==> (d in FreeDays(CreatedDays(schedule)) <==> d !in CreatedDays(schedule))
  {
    CreatedDaysMeaning(schedule);
  }

  /** No day is listed twice. */
  predicate NoRepeatedDay(days: seq<int>)
  {
    forall i, j :: 0 <= i < j < |days| ==> days[i] != days[j]
  }

  /** Inserting the tenant's new rows next to the other tenants' rows keeps the unique
    * (tenant, day) index exactly when no day repeats. */
  lemma BatchKeepsIndex(kept: seq<WorkingHours>, batch: seq<WorkingHours>, tenantId: Id, days: seq<int>)
    requires DistinctBy(kept, TenantDay)
    requires forall w :: w in kept ==> w.tenantId != tenantId
    requires |batch| == |days|
    requires forall k :: 0 <= k < |batch| ==> batch[k].tenantId == tenantId && batch[k].day == days[k]
    ensures DistinctBy(kept + batch, TenantDay) <==> NoRepeatedDay(days)
  {
    var all := kept + batch;
    if NoRepeatedDay(days) {
      forall i, j | 0 <= i < j < |all| ensures TenantDay(all[i]) != TenantDay(all[j]) {
        if j >= |kept| {
          assert all[j] == batch[j - |kept|];
          if i >= |kept| {
            assert all[i] == batch[i - |kept|];
          } else {
            assert all[i] in kept;
          }
        }
      }
    }
    if DistinctBy(all, TenantDay) {
      forall i, j | 0 <= i < j < |days| ensures days[i] != days[j] {
        assert all[|kept| + i] == batch[i] && all[|kept| + j] == batch[j];
      }
    }
  }

  /** The inner loop: one fresh id and one row per listed day of a working entry. */
  method ExpandEntry(repository: WorkingHoursRepository, tenantId: Id, entry: WeeklyScheduleEntry)
      returns (created: seq<WorkingHours>, days: seq<int>)
    requires repository.Valid() && TimesGiven(entry)
    modifies repository
    ensures repository.Valid() && repository.rows == old(repository.rows)
    ensures created == EntryRows(entry, tenantId, old(repository.nextId)) && days == EntryDays(entry)
    ensures repository.nextId == old(repository.nextId) + |created|
  {
    created, days := [], [];
    if !entry.isWorkFree {
      for j := 0 to |entry.days|
        invariant repository.Valid() && repository.rows == old(repository.rows)
        invariant repository.nextId == old(repository.nextId) + j
        invariant |created| == j && days == entry.days[..j]
        invariant forall k :: 0 <= k < j ==> created[k] == EntryRow(entry, tenantId, old(repository.nextId) + k, entry.days[k])
      {
        var id := repository.NewGuid();
        created := created + [EntryRow(entry, tenantId, id, entry.days[j])];
        days := days + [entry.days[j]];
      }
      assert days == entry.days;
    }
  }

  /** The outer loop: the rows and the days of every entry, in request order. */
  method ExpandSchedule(repository: WorkingHoursRepository, tenantId: Id, schedule: seq<WeeklyScheduleEntry>)
      returns (toCreate: seq<WorkingHours>, createdDays: seq<int>)
    requires repository.Valid() && forall e :: e in schedule ==> TimesGiven(e)
    modifies repository
    ensures repository.Valid() && repository.rows == old(repository.rows)
    ensures toCreate == ScheduleRows(schedule, tenantId, old(repository.nextId))
    ensures createdDays == CreatedDays(schedule)
    ensures repository.nextId == old(repository.nextId) + |toCreate|
  {
    toCreate, createdDays := [], [];
    for i := 0 to |schedule|
      invariant repository.Valid() && repository.rows == old(repository.rows)
      invariant toCreate == ScheduleRows(schedule[..i], tenantId, old(repository.nextId))
      invariant createdDays == CreatedDays(schedule[..i])
      invariant repository.nextId == old(repository.nextId) + |toCreate|
    {
      var rows, days := ExpandEntry(repository, tenantId, schedule[i]);
      assert schedule[..i + 1][..i] == schedule[..i];
      toCreate := toCreate + rows;
      createdDays := createdDays + days;
    }
    assert schedule[..|schedule|] == schedule;
  }

  /** CreateWeeklySchedule: an invalid schedule changes nothing; a valid one first deletes
    * all of the tenant's rows, then inserts one row per day of each working entry. When a
    * day is listed twice the insert breaks the (tenant, day) index and fails, after the
    * delete: the tenant is left without working hours. */
  method CreateWeeklySchedule(repository: WorkingHoursRepository, tenantId: Id, schedule: seq<WeeklyScheduleEntry>)
      returns (result: Result<WeeklyScheduleResponse, ControllerError>)
    requires repository.Valid()
    modifies repository
    ensures repository.Valid()
    ensures ScheduleErrors(schedule) != [] ==>
      result == Err(ScheduleInvalid(ScheduleErrors(schedule))) && repository.rows == old(repository.rows)
    ensures ScheduleAccepted(schedule) ==>
      var batch := ScheduleRows(schedule, tenantId, old(repository.nextId));
      var days := CreatedDays(schedule);
      (forall w :: w in repository.rows <==>
         (w in old(repository.rows) && w.tenantId != tenantId) || (NoRepeatedDay(days) && w in batch))
      && (NoRepeatedDay(days) ==> result == Ok(WeeklyScheduleResponse(|batch|, days, FreeDays(days))))
      && (!NoRepeatedDay(days) ==> result == Err(StoreFailed))
  {
    var errors := ValidateSchedule(schedule);
    ScheduleErrorsMeaning(schedule);
    if errors != [] {
      return Err(ScheduleInvalid(errors));
    }
    result := ReplaceSchedule(repository, tenantId, schedule);
  }

  /** The accepted branch of CreateWeeklySchedule: delete the tenant's rows, then insert the
    * expanded schedule as one batch. */
  method ReplaceSchedule(repository: WorkingHoursRepository, tenantId: Id, schedule: seq<WeeklyScheduleEntry>)
      returns (result: Result<WeeklyScheduleResponse, ControllerError>)
    requires repository.Valid() && ScheduleAccepted(schedule)
    modifies repository
    ensures repository.Valid()
    ensures
      var batch := ScheduleRows(schedule, tenantId, old(repository.nextId));
      var days := CreatedDays(schedule);
      (forall w :: w in repository.rows <==>
         (w in old(repository.rows) && w.tenantId != tenantId) || (NoRepeatedDay(days) && w in batch))
      && (NoRepeatedDay(days) ==> result == Ok(WeeklyScheduleResponse(|batch|, days, FreeDays(days))))
      && (!NoRepeatedDay(days) ==> result == Err(StoreFailed))
  {
    ghost var firstId := repository.nextId;
    var deleted := repository.DeleteWorkingHoursByTenant(tenantId);
    ghost var kept := repository.rows;
    var toCreate, createdDays := ExpandSchedule(repository, tenantId, schedule);
    ScheduleRowsKeys(schedule, tenantId, firstId);
    BatchKeepsIndex(kept, toCreate, tenantId, createdDays);
    assert DistinctBy(toCreate, RowId) by {
      forall i, j | 0 <= i < j < |toCreate| ensures RowId(toCreate[i]) != RowId(toCreate[j]) {
      }
    }
    assert forall w :: w in toCreate ==> w.id < repository.nextId && forall v :: v in kept ==> v.id != w.id by {
      forall w | w in toCreate ensures w.id < repository.nextId && forall v :: v in kept ==> v.id != w.id {
        var k :| 0 <= k < |toCreate| && toCreate[k] == w;
      }
    }
    var createdCount := repository.CreateMultipleWorkingHours(toCreate);
    if createdCount.Err? {
      return Err(StoreFailed);
    }
    result := Ok(WeeklyScheduleResponse(createdCount.value, createdDays, FreeDays(createdDays)));
  }
}
