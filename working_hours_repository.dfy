/** The WorkingHours table and its repository. Besides the primary key the table carries a
  * unique index on (TenantId, Day), so a tenant has at most one row per weekday; a write
  * that would break it is refused by the database and changes nothing. */
module WorkingHoursRepositories {
  import opened Wrappers
  import opened Calendar
  import opened Entities
  import opened Sequences

  /** UpdateWorkingHours: each field that is present replaces the stored one. */
  datatype UpdateWorkingHours = UpdateWorkingHours(
    day: Option<int>,
    startTime: Option<TimeOfDay>,
    endTime: Option<TimeOfDay>,
    maxConcurrentBookings: Option<int>)

  function RowId(w: WorkingHours): Id
  {
    w.id
  }

  function TenantDay(w: WorkingHours): (Id, int)
  {
    (w.tenantId, w.day)
  }

  /** The table invariant: both keys unique and every id drawn from the supply. */
  predicate ValidRows(rows: seq<WorkingHours>, nextId: nat)
  {
    DistinctBy(rows, RowId) && DistinctBy(rows, TenantDay)
    && forall w :: w in rows ==> w.id < nextId
  }

  lemma FilterKeepsValid(rows: seq<WorkingHours>, nextId: nat, p: WorkingHours -> bool)
    requires ValidRows(rows, nextId)
    ensures ValidRows(Filter(rows, p), nextId)
  {
    FilterDistinctBy(rows, p, RowId);
    FilterDistinctBy(rows, p, TenantDay);
  }

  /** GetWorkingHoursByIdAsync. */
  function GetWorkingHoursById(rows: seq<WorkingHours>, id: Id): (r: Option<WorkingHours>)
    ensures r.Some? <==> exists w :: w in rows && w.id == id
    ensures r.Some? ==> r.value in rows && r.value.id == id
  {
    match FindFirst(rows, (w: WorkingHours) => w.id == id)
    case None => None
    case Some(i) => Some(rows[i])
  }

  /** GetWorkingHoursByTenantAndDayAsync: the first row of that tenant and day, which under
    * the unique index is the only one. */
  function GetWorkingHoursByTenantAndDay(rows: seq<WorkingHours>, tenantId: Id, day: int): (r: Option<WorkingHours>)
    ensures r.None? <==> forall w :: w in rows ==> !(w.tenantId == tenantId && w.day == day)
    ensures r.Some? ==> r.value in rows && r.value.tenantId == tenantId && r.value.day == day
    ensures DistinctBy(rows, TenantDay) ==>
      forall w :: w in rows && w.tenantId == tenantId && w.day == day ==> r == Some(w)
  {
    match FindFirst(rows, (w: WorkingHours) => w.tenantId == tenantId && w.day == day)
    case None => None
    case Some(i) =>
      assert DistinctBy(rows, TenantDay) ==>
        forall k :: 0 <= k < |rows| && TenantDay(rows[k]) == TenantDay(rows[i]) ==> k == i;
      Some(rows[i])
  }

  /** The OrderBy(Day).ThenBy(StartTime) key: the start time is below one day, so the
    * combined key orders by day first and by start time within a day. */
  function DayThenStart(w: WorkingHours): int
  {
    w.day * SecondsPerDay + w.startTime
  }

  /** Ordering by the combined key is ordering by day, then by start time. */
  lemma DayThenStartOrder(a: WorkingHours, b: WorkingHours)
    ensures DayThenStart(a) <= DayThenStart(b) <==>
      a.day < b.day || (a.day == b.day && a.startTime <= b.startTime)
  {
    if a.day < b.day {
      assert a.day * SecondsPerDay + SecondsPerDay <= b.day * SecondsPerDay;
    } else if a.day > b.day {
      assert b.day * SecondsPerDay + SecondsPerDay <= a.day * SecondsPerDay;
    }
  }

  /** GetWorkingHoursByTenantAsync: the tenant's rows ordered by day, then start time. */
  function GetWorkingHoursByTenant(rows: seq<WorkingHours>, tenantId: Id): (r: seq<WorkingHours>)
    ensures forall w :: w in r <==> w in rows && w.tenantId == tenantId
    ensures forall i, j :: 0 <= i < j < |r| ==>
      r[i].day < r[j].day || (r[i].day == r[j].day && r[i].startTime <= r[j].startTime)
    ensures multiset(r) <= multiset(rows)
  {
    var r := SortBy(Filter(rows, (w: WorkingHours) => w.tenantId == tenantId), DayThenStart);
    forall i, j | 0 <= i < j < |r|
      ensures r[i].day < r[j].day || (r[i].day == r[j].day && r[i].startTime <= r[j].startTime)
    {
      DayThenStartOrder(r[i], r[j]);
    }
    r
  }

  /** The field assignments of UpdateWorkingHoursAsync. */
  function ApplyUpdate(w: WorkingHours, update: UpdateWorkingHours): (r: WorkingHours)
    ensures r.id == w.id && r.tenantId == w.tenantId
    ensures r.day == update.day.GetOr(w.day)
    ensures r.startTime == update.startTime.GetOr(w.startTime)
    ensures r.endTime == update.endTime.GetOr(w.endTime)
    ensures r.maxConcurrentBookings == update.maxConcurrentBookings.GetOr(w.maxConcurrentBookings)
  {
    var w := if update.day.Some? then w.(day := update.day.value) else w;
    var w := if update.startTime.Some? then w.(startTime := update.startTime.value) else w;
    var w := if update.endTime.Some? then w.(endTime := update.endTime.value) else w;
    if update.maxConcurrentBookings.Some? then w.(maxConcurrentBookings := update.maxConcurrentBookings.value) else w
  }

  /** Applying the same update twice changes nothing more; an empty update changes nothing. */
  lemma ApplyUpdateIdempotent(w: WorkingHours, update: UpdateWorkingHours)
    ensures ApplyUpdate(ApplyUpdate(w, update), update) == ApplyUpdate(w, update)
    ensures update == UpdateWorkingHours(None, None, None, None) ==> ApplyUpdate(w, update) == w
  {
  }

  /** Replacing a row by one with the same id and a (tenant, day) pair no other row holds
    * keeps the table valid. */
  lemma ReplaceKeepsValid(rows: seq<WorkingHours>, nextId: nat, i: nat, w: WorkingHours)
    requires ValidRows(rows, nextId) && i < |rows| && w.id == rows[i].id
    requires forall k :: 0 <= k < |rows| && k != i ==> TenantDay(rows[k]) != TenantDay(w)
    ensures ValidRows(rows[i := w], nextId)
  {
    var r := rows[i := w];
    forall a, b | 0 <= a < b < |r| ensures RowId(r[a]) != RowId(r[b]) && TenantDay(r[a]) != TenantDay(r[b]) {
      assert RowId(r[a]) == RowId(rows[a]) && RowId(r[b]) == RowId(rows[b]);
    }
    forall x | x in r ensures x.id < nextId {
      var k :| 0 <= k < |r| && r[k] == x;
      assert x.id == rows[k].id;
    }
  }

  class WorkingHoursRepository {
    var rows: seq<WorkingHours>
    var nextId: nat

    ghost predicate Valid()
      reads this
    {
      ValidRows(rows, nextId)
    }

    constructor()
      ensures Valid() && rows == [] && nextId == 0
    {
      rows := [];
      nextId := 0;
    }

    /** Guid.NewGuid: an id no row uses. */
    method NewGuid() returns (id: Id)
      requires Valid()
      modifies this
      ensures Valid() && rows == old(rows)
      ensures id == old(nextId) && nextId == old(nextId) + 1
      ensures forall w :: w in rows ==> w.id != id
    {
      id := nextId;
      nextId := nextId + 1;
    }

    /** CreateWorkingHoursAsync: the row is stored under a fresh id, unless the tenant
      * already has a row for that day. */
    method CreateWorkingHours(workingHours: WorkingHours) returns (r: Result<WorkingHours, StoreError>)
      requires Valid()
      modifies this
      ensures Valid()
      ensures r.Err? <==> exists w :: w in old(rows) && TenantDay(w) == TenantDay(workingHours)
      ensures r.Err? ==> rows == old(rows) && nextId == old(nextId)
      ensures r.Ok? ==> r.value == workingHours.(id := old(nextId))
      ensures r.Ok? ==> rows == old(rows) + [r.value] && nextId == old(nextId) + 1
    {
      var created := workingHours.(id := nextId);
      if GetWorkingHoursByTenantAndDay(rows, workingHours.tenantId, workingHours.day).Some? {
        return Err(UniqueIndexViolation);
      }
      AppendDistinct(rows, [created], RowId);
      AppendDistinct(rows, [created], TenantDay);
      rows := rows + [created];
      nextId := nextId + 1;
      r := Ok(created);
    }

    /** UpdateWorkingHoursAsync: false and no change for an unknown id; otherwise the row
      * takes the present fields of the update, unless its new day is one the tenant
      * already has in another row. */
    method UpdateWorkingHours(id: Id, update: UpdateWorkingHours) returns (r: Result<bool, StoreError>)
      requires Valid()
      modifies this
      ensures Valid() && nextId == old(nextId)
      ensures r == Ok(false) <==> forall w :: w in old(rows) ==> w.id != id
      ensures r.Err? ==> exists w, v :: (w in old(rows) && v in old(rows) && w.id == id && v.id != id
        && TenantDay(v) == TenantDay(ApplyUpdate(w, update)))
      ensures r != Ok(true) ==> rows == old(rows)
      ensures r == Ok(true) ==> |rows| == |old(rows)| && forall i :: 0 <= i < |rows| ==>
        rows[i] == if old(rows)[i].id == id then ApplyUpdate(old(rows)[i], update) else old(rows)[i]
    {
      match FindFirst(rows, (w: WorkingHours) => w.id == id)
      case None =>
        r := Ok(false);
      case Some(i) =>
        var updated := ApplyUpdate(rows[i], update);
        match FindFirst(rows, (v: WorkingHours) => v.id != id && TenantDay(v) == TenantDay(updated))
        case Some(k) =>
          r := Err(UniqueIndexViolation);
        case None =>
          forall k | 0 <= k < |rows| && k != i ensures TenantDay(rows[k]) != TenantDay(updated) {
            assert RowId(rows[k]) != RowId(rows[i]);
          }
          ReplaceKeepsValid(rows, nextId, i, updated);
          forall k | 0 <= k < |rows| && k != i ensures rows[k].id != id {
            assert RowId(rows[k]) != RowId(rows[i]);
          }
          rows := rows[i := updated];
          r := Ok(true);
    }

    /** DeleteWorkingHoursAsync(id): removes the row with that id, if any. */
    method DeleteWorkingHours(id: Id) returns (found: bool)
      requires Valid()
      modifies this
      ensures Valid() && nextId == old(nextId)
      ensures found <==> exists w :: w in old(rows) && w.id == id
      ensures forall w :: w in rows <==> w in old(rows) && w.id != id
      ensures |rows| == |old(rows)| - (if found then 1 else 0)
      ensures !found ==> rows == old(rows)
      ensures found ==> (exists i :: 0 <= i < |old(rows)| && old(rows)[i].id == id &&
                                     rows == old(rows)[..i] + old(rows)[i + 1..])
    {
      match FindFirst(rows, (w: WorkingHours) => w.id == id)
      case None =>
        found := false;
      case Some(i) =>
        RemoveAtDistinct(rows, RowId, i);
        RemoveAtDistinct(rows, TenantDay, i);
        rows := rows[..i] + rows[i + 1..];
        found := true;
    }

    /** DeleteWorkingHoursAsync(id, tenantId): removes the row only when both match. */
    method DeleteWorkingHoursOfTenant(id: Id, tenantId: Id) returns (found: bool)
      requires Valid()
      modifies this
      ensures Valid() && nextId == old(nextId)
      ensures found <==> exists w :: w in old(rows) && w.id == id && w.tenantId == tenantId
      ensures forall w :: w in rows <==> w in old(rows) && !(found && w.id == id)
      ensures !found ==> rows == old(rows)
      ensures found ==> (exists i :: 0 <= i < |old(rows)| && old(rows)[i].id == id &&
                                     old(rows)[i].tenantId == tenantId &&
                                     rows == old(rows)[..i] + old(rows)[i + 1..])
    {
      match FindFirst(rows, (w: WorkingHours) => w.id == id && w.tenantId == tenantId)
      case None =>
        found := false;
      case Some(i) =>
        RemoveAtDistinct(rows, RowId, i);
        RemoveAtDistinct(rows, TenantDay, i);
        rows := rows[..i] + rows[i + 1..];
        found := true;
    }

    /** DeleteWorkingHoursByTenantAsync: removes every row of the tenant, keeps every other
      * tenant's rows, and always reports success. */
    method DeleteWorkingHoursByTenant(tenantId: Id) returns (ok: bool)
      requires Valid()
      modifies this
      ensures Valid() && nextId == old(nextId) && ok
      ensures forall w :: w in rows <==> w in old(rows) && w.tenantId != tenantId
      ensures GetWorkingHoursByTenant(rows, tenantId) == []
    {
      var kept := (w: WorkingHours) => w.tenantId != tenantId;
      FilterKeepsValid(rows, nextId, kept);
      rows := Filter(rows, kept);
      ok := true;
    }

    /** CreateMultipleWorkingHoursAsync: all rows are added and their number returned, or,
      * when two of them or one of them and a stored row share a tenant and day, none are. */
    method CreateMultipleWorkingHours(batch: seq<WorkingHours>) returns (r: Result<int, StoreError>)
      requires Valid()
      requires DistinctBy(batch, RowId)
      requires forall w :: w in batch ==> w.id < nextId && forall v :: v in rows ==> v.id != w.id
      modifies this
      ensures Valid() && nextId == old(nextId)
      ensures r.Ok? <==> DistinctBy(old(rows) + batch, TenantDay)
      ensures r.Ok? ==> r.value == |batch| && rows == old(rows) + batch
      ensures r.Err? ==> rows == old(rows)
    {
      if !DistinctTenantDays(rows + batch) {
        return Err(UniqueIndexViolation);
      }
      AppendDistinct(rows, batch, RowId);
      rows := rows + batch;
      r := Ok(|batch|);
    }
  }

  /** Whether a list of rows satisfies the (TenantId, Day) index, by comparing every pair. */
  function DistinctTenantDays(rows: seq<WorkingHours>): (r: bool)
    ensures r <==> DistinctBy(rows, TenantDay)
  {
    if rows == [] then true
    else
      var rest := DistinctTenantDays(rows[1..]);
      var clash := exists k :: 1 <= k < |rows| && TenantDay(rows[k]) == TenantDay(rows[0]);
      assert DistinctBy(rows, TenantDay) <==> rest && !clash by {
        if DistinctBy(rows, TenantDay) {
          forall a, b | 0 <= a < b < |rows[1..]| ensures TenantDay(rows[1..][a]) != TenantDay(rows[1..][b]) {
            assert rows[1..][a] == rows[a + 1] && rows[1..][b] == rows[b + 1];
          }
        }
        if rest && !clash {
          forall a, b | 0 <= a < b < |rows| ensures TenantDay(rows[a]) != TenantDay(rows[b]) {
            if a > 0 {
              assert rows[a] == rows[1..][a - 1] && rows[b] == rows[1..][b - 1];
            }
          }
        }
      }
      rest && !clash
  }
}
