/** The TimeBlocks table and its repository. Queries are filters, sorts and slices over the
  * table's rows; the writes replace the rows. Guid.NewGuid is the table's fresh-id supply
  * `nextId`: every id and recurrence id in use lies below it. */
module TimeBlockRepositories {
  import opened Wrappers
  import opened Entities
  import opened Sequences

  datatype PaginationParameters = PaginationParameters(offset: int, limit: int)

  /** A page of blocks and the number of blocks the query matched before paging. */
  datatype TimeBlockPage = TimeBlockPage(timeBlocks: seq<TimeBlock>, totalCount: int)

  /** UpdateTimeBlock: each field that is present replaces the stored one. */
  datatype UpdateTimeBlock = UpdateTimeBlock(
    start: Option<int>,
    end: Option<int>,
    kind: Option<TimeBlockType>,
    reason: Option<string>)

  /** The primary key: no two rows share an id. */
  predicate UniqueIds(rows: seq<TimeBlock>)
  {
    DistinctBy(rows, BlockId)
  }

  function BlockId(b: TimeBlock): int
  {
    b.id
  }

  /** A block whose id no row uses can be put in front of the rows. */
  lemma PrependUnique(b: TimeBlock, rows: seq<TimeBlock>)
    requires UniqueIds(rows) && forall c :: c in rows ==> c.id != b.id
    ensures UniqueIds([b] + rows)
  {
    var r := [b] + rows;
    forall i, j | 0 <= i < j < |r| ensures BlockId(r[i]) != BlockId(r[j]) {
      assert r[j] == rows[j - 1];
      if i > 0 {
        assert r[i] == rows[i - 1];
      }
    }
  }

  predicate OfTenant(b: TimeBlock, tenantId: Option<Id>)
  {
    tenantId.None? || b.tenantId == tenantId.value
  }

  /** Where(p).OrderBy(StartDateTime). */
  function QuerySorted(rows: seq<TimeBlock>, p: TimeBlock -> bool): (r: seq<TimeBlock>)
    ensures forall b :: b in r <==> b in rows && p(b)
    ensures SortedBy(r, TimeBlockStart)
    ensures multiset(r) <= multiset(rows)
  {
    SortBy(Filter(rows, p), TimeBlockStart)
  }

  /** The optional tenant filter of the listing queries. */
  function TenantFilter(tenantId: Option<Id>): TimeBlock -> bool
  {
    (b: TimeBlock) => OfTenant(b, tenantId)
  }

  /** The containment filter of the date-range queries. */
  function ContainedIn(start: int, end: int, tenantId: Option<Id>): TimeBlock -> bool
  {
    (b: TimeBlock) => start <= b.start && b.end <= end && OfTenant(b, tenantId)
  }

  /** The optional tenant filter of GetTimeBlocksAsync. */
  function TenantBlocks(rows: seq<TimeBlock>, tenantId: Option<Id>): (r: seq<TimeBlock>)
    ensures forall b :: b in r <==> b in rows && OfTenant(b, tenantId)
    ensures |r| <= |rows|
  {
    var r := Filter(rows, TenantFilter(tenantId));
    assert forall b :: b in r <==> b in rows && TenantFilter(tenantId)(b);
    r
  }

  /** The tenant filter ordered by start: a sorted permutation of the filtered rows. */
  function SortedTenantBlocks(rows: seq<TimeBlock>, tenantId: Option<Id>): (r: seq<TimeBlock>)
    ensures SortedBy(r, TimeBlockStart)
    ensures multiset(r) == multiset(TenantBlocks(rows, tenantId))
    ensures |r| == |TenantBlocks(rows, tenantId)| <= |rows|
    ensures forall b :: b in r ==> b in rows && OfTenant(b, tenantId)
  {
    var query := TenantBlocks(rows, tenantId);
    var sorted := SortBy(query, TimeBlockStart);
    assert forall b :: b in sorted ==> b in query;
    sorted
  }

  /** GetTimeBlocksAsync: the optional tenant filter, counted before paging, then the
    * start-ordered slice [offset, offset + limit). */
  function GetTimeBlocks(rows: seq<TimeBlock>, parameters: PaginationParameters, tenantId: Option<Id>): (r: TimeBlockPage)
    ensures forall b :: b in r.timeBlocks ==> b in rows && OfTenant(b, tenantId)
    ensures SortedBy(r.timeBlocks, TimeBlockStart)
    ensures r.totalCount == |TenantBlocks(rows, tenantId)| <= |rows|
    ensures |r.timeBlocks| == Max(0, Min(parameters.limit, r.totalCount - Max(0, parameters.offset)))
    ensures r.timeBlocks == Page(SortedTenantBlocks(rows, tenantId), parameters.offset, parameters.limit)
  {
    var sorted := SortedTenantBlocks(rows, tenantId);
    TimeBlockPage(Page(sorted, parameters.offset, parameters.limit), |sorted|)
  }

  /** Skip(offset).Take(limit) on the sorted blocks. */
  function Page(sorted: seq<TimeBlock>, offset: int, limit: int): (page: seq<TimeBlock>)
    requires SortedBy(sorted, TimeBlockStart)
    ensures SortedBy(page, TimeBlockStart)
    ensures forall b :: b in page ==> b in sorted
    ensures |page| == Max(0, Min(limit, |sorted| - Max(0, offset)))
    ensures var lo := Min(Max(0, offset), |sorted|); lo + |page| <= |sorted| && page == sorted[lo..lo + |page|]
  {
    SliceSorted(sorted, TimeBlockStart, offset, limit);
    var page := Take(Drop(sorted, offset), limit);
    var lo := Min(Max(0, offset), |sorted|);
    assert page == sorted[lo..lo + |page|];
    page
  }

  /** GetTimeBlocksByDateRangeAsync: blocks lying wholly inside [start, end], optionally
    * of one tenant, ordered by start; the count is the number returned. */
  function GetTimeBlocksByDateRange(rows: seq<TimeBlock>, start: int, end: int, tenantId: Option<Id>): (r: TimeBlockPage)
    ensures forall b :: b in r.timeBlocks <==> b in rows && start <= b.start && b.end <= end && OfTenant(b, tenantId)
    ensures SortedBy(r.timeBlocks, TimeBlockStart)
    ensures r.totalCount == |r.timeBlocks|
  {
    var blocks := QuerySorted(rows, ContainedIn(start, end, tenantId));
    TimeBlockPage(blocks, |blocks|)
  }

  /** GetTimeBlockByIdAsync. */
  function GetTimeBlockById(rows: seq<TimeBlock>, id: Id): (r: Option<TimeBlock>)
    ensures r.Some? <==> exists b :: b in rows && b.id == id
    ensures r.Some? ==> r.value in rows && r.value.id == id
    ensures UniqueIds(rows) ==> forall i :: 0 <= i < |rows| && rows[i].id == id ==> r == Some(rows[i])
  {
    match FindFirst(rows, (b: TimeBlock) => b.id == id)
    case None => None
    case Some(i) => Some(rows[i])
  }

  /** GetTimeBlocksByTenantAsync. */
  function GetTimeBlocksByTenant(rows: seq<TimeBlock>, tenantId: Id): (r: seq<TimeBlock>)
    ensures forall b :: b in r <==> b in rows && b.tenantId == tenantId
    ensures SortedBy(r, TimeBlockStart)
  {
    QuerySorted(rows, (b: TimeBlock) => b.tenantId == tenantId)
  }

  /** GetTimeBlocksByTenantAndDateRangeAsync: the tenant's blocks that strictly overlap
    * [startDate, endDate), ordered by start. */
  function GetTimeBlocksByTenantAndDateRange(rows: seq<TimeBlock>, tenantId: Id, startDate: int, endDate: int): (r: seq<TimeBlock>)
    ensures forall b :: b in r <==> b in rows && b.tenantId == tenantId && b.start < endDate && b.end > startDate
    ensures SortedBy(r, TimeBlockStart)
  {
    QuerySorted(rows, (b: TimeBlock) => b.tenantId == tenantId && b.start < endDate && b.end > startDate)
  }

  /** A non-empty block contained in a range also overlaps it: the containment query
    * returns a subset of the overlap query. */
  lemma ContainedBlocksOverlap(rows: seq<TimeBlock>, tenantId: Id, start: int, end: int)
    ensures forall b :: b in GetTimeBlocksByDateRange(rows, start, end, Some(tenantId)).timeBlocks && b.start < b.end ==>
      b in GetTimeBlocksByTenantAndDateRange(rows, tenantId, start, end)
  {
  }

  /** GetTimeBlocksByRecurrenceIdAsync: the tenant's members of one group, ordered by start. */
  function GetTimeBlocksByRecurrenceId(rows: seq<TimeBlock>, recurrenceId: Id, tenantId: Id): (r: seq<TimeBlock>)
    ensures forall b :: b in r <==> b in rows && b.recurrenceId == Some(recurrenceId) && b.tenantId == tenantId
    ensures SortedBy(r, TimeBlockStart)
  {
    QuerySorted(rows, InGroup(recurrenceId, tenantId))
  }

  /** The filter of the group query. */
  function InGroup(recurrenceId: Id, tenantId: Id): TimeBlock -> bool
  {
    (b: TimeBlock) => b.recurrenceId == Some(recurrenceId) && b.tenantId == tenantId
  }

  /** The group query finds nothing in a table that holds no member of the group. */
  lemma NoGroupMembers(rows: seq<TimeBlock>, recurrenceId: Id, tenantId: Id)
    requires forall b :: b in rows ==> !(b.recurrenceId == Some(recurrenceId) && b.tenantId == tenantId)
    ensures GetTimeBlocksByRecurrenceId(rows, recurrenceId, tenantId) == []
  {
    FilterNone(rows, InGroup(recurrenceId, tenantId));
  }

  /** The field assignments of UpdateTimeBlockAsync. */
  function ApplyUpdate(b: TimeBlock, update: UpdateTimeBlock): (r: TimeBlock)
    ensures r.id == b.id && r.tenantId == b.tenantId && r.recurrenceId == b.recurrenceId
    ensures r.start == update.start.GetOr(b.start) && r.end == update.end.GetOr(b.end)
    ensures r.kind == update.kind.GetOr(b.kind)
    ensures r.reason == if update.reason.Some? then update.reason else b.reason
  {
    var b := if update.start.Some? then b.(start := update.start.value) else b;
    var b := if update.end.Some? then b.(end := update.end.value) else b;
    var b := if update.kind.Some? then b.(kind := update.kind.value) else b;
    if update.reason.Some? then b.(reason := update.reason) else b
  }

  /** Applying the same update twice changes nothing more; an empty update changes nothing. */
  lemma ApplyUpdateIdempotent(b: TimeBlock, update: UpdateTimeBlock)
    ensures ApplyUpdate(ApplyUpdate(b, update), update) == ApplyUpdate(b, update)
    ensures update == UpdateTimeBlock(None, None, None, None) ==> ApplyUpdate(b, update) == b
  {
  }

  /** The table invariant: a primary key, and every id in use drawn from the supply. */
  predicate ValidRows(rows: seq<TimeBlock>, nextId: nat)
  {
    UniqueIds(rows)
    && forall b :: b in rows ==> b.id < nextId && (b.recurrenceId.Some? ==> b.recurrenceId.value < nextId)
  }

  /** Dropping rows keeps the table invariant. */
  lemma FilterKeepsValid(rows: seq<TimeBlock>, nextId: nat, p: TimeBlock -> bool)
    requires ValidRows(rows, nextId)
    ensures ValidRows(Filter(rows, p), nextId)
  {
    FilterDistinctBy(rows, p, BlockId);
  }

  /** The rows a range delete removes are those the range query lists, the rows it keeps
    * are the rest, and the range query finds nothing among the kept rows. */
  lemma DeleteRangeSplits(rows: seq<TimeBlock>, nextId: nat, start: int, end: int, tenantId: Id)
    requires ValidRows(rows, nextId)
    ensures var doomed := ContainedIn(start, end, Some(tenantId));
      var kept := Filter(rows, Not(doomed));
      ValidRows(kept, nextId)
      && (forall b :: b in kept <==> b in rows && !(b.tenantId == tenantId && start <= b.start && b.end <= end))
      && |Filter(rows, doomed)| + |kept| == |rows|
      && |GetTimeBlocksByDateRange(rows, start, end, Some(tenantId)).timeBlocks| == |Filter(rows, doomed)|
      && GetTimeBlocksByDateRange(kept, start, end, Some(tenantId)).timeBlocks == []
  {
    var doomed := ContainedIn(start, end, Some(tenantId));
    FilterSplit(rows, doomed, Not(doomed));
    FilterKeepsValid(rows, nextId, Not(doomed));
  }

  class TimeBlockRepository {
    var rows: seq<TimeBlock>
    var nextId: nat

    ghost predicate Valid()
      reads this
    {
      ValidRows(rows, nextId)
    }

    constructor()
      ensures Valid() && rows == [] && nextId == 0
    {
      rows := [];
      nextId := 0;
    }

    /** Guid.NewGuid: an id no row uses, as id or as recurrence id. */
    method NewGuid() returns (id: Id)
      requires Valid()
      modifies this
      ensures Valid() && rows == old(rows)
      ensures id == old(nextId) && nextId == old(nextId) + 1
      ensures forall b :: b in rows ==> b.id != id && b.recurrenceId != Some(id)
    {
      id := nextId;
      nextId := nextId + 1;
    }

    /** CreateTimeBlockAsync: the block is stored under a fresh id. */
    method CreateTimeBlock(block: TimeBlock) returns (created: TimeBlock)
      requires Valid()
      requires block.recurrenceId.Some? ==> block.recurrenceId.value < nextId
      modifies this
      ensures Valid()
      ensures created == block.(id := old(nextId))
      ensures rows == old(rows) + [created]
      ensures nextId == old(nextId) + 1
    {
      created := block.(id := nextId);
      rows := rows + [created];
      nextId := nextId + 1;
    }

    /** UpdateTimeBlockAsync: false and no change for an unknown id; otherwise the row
      * with that id takes the present fields of the update. */
    method UpdateTimeBlock(id: Id, update: UpdateTimeBlock) returns (found: bool)
      requires Valid()
      modifies this
      ensures Valid() && nextId == old(nextId)
      ensures found <==> exists b :: b in old(rows) && b.id == id
      ensures !found ==> rows == old(rows)
      ensures |rows| == |old(rows)|
      ensures forall i :: 0 <= i < |rows| ==>
        rows[i] == if old(rows)[i].id == id then ApplyUpdate(old(rows)[i], update) else old(rows)[i]
    {
      match FindFirst(rows, (b: TimeBlock) => b.id == id)
      case None =>
        found := false;
      case Some(i) =>
        rows := rows[i := ApplyUpdate(rows[i], update)];
        found := true;
    }

    /** DeleteTimeBlockAsync(id): removes the row with that id, if any. */
    method DeleteTimeBlock(id: Id) returns (found: bool)
      requires Valid()
      modifies this
      ensures Valid() && nextId == old(nextId)
      ensures found <==> exists b :: b in old(rows) && b.id == id
      ensures forall b :: b in rows <==> b in old(rows) && b.id != id
      ensures |rows| == |old(rows)| - (if found then 1 else 0)
      ensures !found ==> rows == old(rows)
      ensures found ==> (exists i :: 0 <= i < |old(rows)| && old(rows)[i].id == id &&
                                     rows == old(rows)[..i] + old(rows)[i + 1..])
    {
      match FindFirst(rows, (b: TimeBlock) => b.id == id)
      case None =>
        found := false;
      case Some(i) =>
        RemoveAtDistinct(rows, BlockId, i);
        rows := rows[..i] + rows[i + 1..];
        found := true;
    }

    /** DeleteTimeBlockAsync(id, tenantId): removes the row only when both id and tenant match. */
    method DeleteTimeBlockOfTenant(id: Id, tenantId: Id) returns (found: bool)
      requires Valid()
      modifies this
      ensures Valid() && nextId == old(nextId)
      ensures found <==> exists b :: b in old(rows) && b.id == id && b.tenantId == tenantId
      ensures forall b :: b in rows <==> b in old(rows) && !(found && b.id == id)
      ensures !found ==> rows == old(rows)
      ensures |rows| == |old(rows)| - (if found then 1 else 0)
      ensures found ==> (exists i :: 0 <= i < |old(rows)| && old(rows)[i].id == id &&
                                     old(rows)[i].tenantId == tenantId &&
                                     rows == old(rows)[..i] + old(rows)[i + 1..])
    {
      match FindFirst(rows, (b: TimeBlock) => b.id == id && b.tenantId == tenantId)
      case None =>
        found := false;
      case Some(i) =>
        RemoveAtDistinct(rows, BlockId, i);
        rows := rows[..i] + rows[i + 1..];
        found := true;
    }

    /** DeleteTimeBlocksByDateRangeAsync: removes the tenant's blocks lying wholly inside
      * [start, end] and returns how many there were. */
    method DeleteTimeBlocksByDateRange(start: int, end: int, tenantId: Id) returns (count: int)
      requires Valid()
      modifies this
      ensures Valid() && nextId == old(nextId)
      ensures forall b :: b in rows <==> b in old(rows) && !(b.tenantId == tenantId && start <= b.start && b.end <= end)
      ensures count == |old(rows)| - |rows|
      ensures count == |GetTimeBlocksByDateRange(old(rows), start, end, Some(tenantId)).timeBlocks|
      ensures GetTimeBlocksByDateRange(rows, start, end, Some(tenantId)).timeBlocks == []
    {
      var doomed := ContainedIn(start, end, Some(tenantId));
      DeleteRangeSplits(rows, nextId, start, end, tenantId);
      var kept := Filter(rows, Not(doomed));
      count := |Filter(rows, doomed)|;
      assert count == |rows| - |kept|;
      rows := kept;
    }

    /** CreateMultipleTimeBlocksAsync: the blocks, which carry ids drawn from the supply,
      * are appended. */
    method CreateMultipleTimeBlocks(blocks: seq<TimeBlock>)
      requires Valid()
      requires UniqueIds(blocks)
      requires forall b :: b in blocks ==> b.id < nextId && (b.recurrenceId.Some? ==> b.recurrenceId.value < nextId)
      requires forall b, c :: b in blocks && c in rows ==> b.id != c.id
      modifies this
      ensures Valid() && nextId == old(nextId)
      ensures rows == old(rows) + blocks
    {
      var combined := rows + blocks;
      AppendDistinct(rows, blocks, BlockId);
      rows := combined;
    }

    /** DeleteMultipleTimeBlocksAsync: removes exactly the rows whose id is listed. */
    method DeleteMultipleTimeBlocks(ids: seq<Id>)
      requires Valid()
      modifies this
      ensures Valid() && nextId == old(nextId)
      ensures forall b :: b in rows <==> b in old(rows) && b.id !in ids
      ensures ids == [] ==> rows == old(rows)
    {
      if |ids| == 0 {
        return;
      }
      var kept := (b: TimeBlock) => b.id !in ids;
      FilterKeepsValid(rows, nextId, kept);
      rows := Filter(rows, kept);
    }
  }
}
