/** The recurrence service: it turns a pattern into the follow-on blocks of a recurrence
  * group and stores them, and it deletes or regenerates a whole group. The group id is
  * drawn from the same fresh-id supply as the block ids. */
module RecurrenceServices {
  import opened Wrappers
  import opened Calendar
  import opened Entities
  import opened Sequences
  import opened RecurrencePatterns
  import opened RecurrenceExpansion
  import opened TimeBlockRepositories

  /** CreateTimeBlockInstance: a member of the group `masterId`. */
  function TimeBlockInstance(id: Id, start: int, end: int, masterId: Id, tenantId: Id,
                             kind: TimeBlockType, reason: Option<string>): TimeBlock
  {
    TimeBlock(id, tenantId, start, end, kind, reason, Some(masterId))
  }

  /** One block per start, in order, each lasting `duration`, with ids handed out one
    * after another from `firstId`. */
  function {:induction false} Instances(starts: seq<int>, duration: int, firstId: Id, masterId: Id, tenantId: Id,
                                        kind: TimeBlockType, reason: Option<string>): (r: seq<TimeBlock>)
    ensures |r| == |starts|
    decreases |starts|
  {
    if starts == [] then []
    else
      [TimeBlockInstance(firstId, starts[0], starts[0] + duration, masterId, tenantId, kind, reason)]
      + Instances(starts[1..], duration, firstId + 1, masterId, tenantId, kind, reason)
  }

  /** The i-th block is built from the i-th start and takes the i-th id of the range. */
  lemma {:induction false} InstancesAt(starts: seq<int>, duration: int, firstId: Id, masterId: Id, tenantId: Id,
                                       kind: TimeBlockType, reason: Option<string>)
    ensures var r := Instances(starts, duration, firstId, masterId, tenantId, kind, reason);
      forall i :: 0 <= i < |r| ==>
        r[i] == TimeBlockInstance(firstId + i, starts[i], starts[i] + duration, masterId, tenantId, kind, reason)
    decreases |starts|
  {
    if starts != [] {
      InstancesAt(starts[1..], duration, firstId + 1, masterId, tenantId, kind, reason);
      var r := Instances(starts, duration, firstId, masterId, tenantId, kind, reason);
      var rest := Instances(starts[1..], duration, firstId + 1, masterId, tenantId, kind, reason);
      forall i | 1 <= i < |r|
        ensures r[i] == TimeBlockInstance(firstId + i, starts[i], starts[i] + duration, masterId, tenantId, kind, reason)
      {
        assert r[i] == rest[i - 1] && starts[1..][i - 1] == starts[i];
      }
    }
  }

  /** The blocks GenerateRecurringTimeBlocksAsync builds, given the first id the supply
    * hands out. */
  function GeneratedBlocks(pattern: RecurrencePattern, baseStart: int, baseEnd: int, firstId: Id,
                           masterId: Id, tenantId: Id, kind: TimeBlockType, reason: Option<string>): seq<TimeBlock>
    requires baseStart >= 0 && pattern.interval >= 1
  {
    Instances(OccurrenceStarts(pattern, baseStart), baseEnd - baseStart, firstId, masterId, tenantId, kind, reason)
  }

  /** The blocks built from a list of starts: each lasts `duration`, belongs to the group,
    * the tenant, the type and the reason given, starts at one of the starts, and takes an
    * id in the handed-out range, no two the same; sorted starts give blocks sorted by
    * start. */
  lemma InstancesShape(starts: seq<int>, duration: int, firstId: Id, masterId: Id, tenantId: Id,
                       kind: TimeBlockType, reason: Option<string>)
    ensures var r := Instances(starts, duration, firstId, masterId, tenantId, kind, reason);
      (forall b :: b in r ==>
        b.end - b.start == duration
        && b.recurrenceId == Some(masterId) && b.tenantId == tenantId && b.kind == kind && b.reason == reason
        && b.start in starts && firstId <= b.id < firstId + |r|)
      && UniqueIds(r)
    ensures (forall i, j :: 0 <= i < j < |starts| ==> starts[i] <= starts[j]) ==>
      SortedBy(Instances(starts, duration, firstId, masterId, tenantId, kind, reason), TimeBlockStart)
  {
    var r := Instances(starts, duration, firstId, masterId, tenantId, kind, reason);
    InstancesAt(starts, duration, firstId, masterId, tenantId, kind, reason);
    forall b | b in r
      ensures b.start in starts && firstId <= b.id < firstId + |r|
    {
      var i :| 0 <= i < |r| && r[i] == b;
    }
  }

  /** Every generated block lasts as long as the base block, belongs to the group, the
    * tenant, the type and the reason given, starts at the base time of day within the end
    * bound, and takes the next unused id; the blocks are ordered by start; their number
    * is bounded by MaxOccurrences - 1 (one base-week block may still appear for a weekly
    * pattern with MaxOccurrences 1 or less). */
  lemma GeneratedBlocksShape(pattern: RecurrencePattern, baseStart: int, baseEnd: int, firstId: Id,
                             masterId: Id, tenantId: Id, kind: TimeBlockType, reason: Option<string>)
    requires baseStart >= 0 && pattern.interval >= 1
    ensures var r := GeneratedBlocks(pattern, baseStart, baseEnd, firstId, masterId, tenantId, kind, reason);
      (forall b :: b in r ==>
        b.end - b.start == baseEnd - baseStart
        && b.recurrenceId == Some(masterId) && b.tenantId == tenantId && b.kind == kind && b.reason == reason
        && b.start <= EffectiveEndDate(pattern, baseStart) && TimeOf(b.start) == TimeOf(baseStart)
        && firstId <= b.id < firstId + |r|)
      && UniqueIds(r)
      && SortedBy(r, TimeBlockStart)
      && (pattern.maxOccurrences.Some? ==>
            |r| <= Max(if pattern.HasDaysOfWeek() then 1 else 0, pattern.maxOccurrences.value - 1))
  {
    GeneratedBlocksWithin(pattern, baseStart, baseEnd, firstId, masterId, tenantId, kind, reason);
    GeneratedBlocksOrdered(pattern, baseStart, baseEnd, firstId, masterId, tenantId, kind, reason);
  }

  /** Every generated block carries the group's data, lies within the bound at the base
    * time of day, and has an id in the handed-out range. */
  lemma GeneratedBlocksWithin(pattern: RecurrencePattern, baseStart: int, baseEnd: int, firstId: Id,
                              masterId: Id, tenantId: Id, kind: TimeBlockType, reason: Option<string>)
    requires baseStart >= 0 && pattern.interval >= 1
    ensures var r := GeneratedBlocks(pattern, baseStart, baseEnd, firstId, masterId, tenantId, kind, reason);
      forall b :: b in r ==>
        b.end - b.start == baseEnd - baseStart
        && b.recurrenceId == Some(masterId) && b.tenantId == tenantId && b.kind == kind && b.reason == reason
        && b.start <= EffectiveEndDate(pattern, baseStart) && TimeOf(b.start) == TimeOf(baseStart)
        && firstId <= b.id < firstId + |r|
  {
    var starts := OccurrenceStarts(pattern, baseStart);
    assert GeneratedBlocks(pattern, baseStart, baseEnd, firstId, masterId, tenantId, kind, reason) == Instances(starts, baseEnd - baseStart, firstId, masterId, tenantId, kind, reason);
    OccurrenceStartsShape(pattern, baseStart);
    InstancesWithin(starts, baseEnd - baseStart, firstId, masterId, tenantId, kind, reason,
                    EffectiveEndDate(pattern, baseStart), TimeOf(baseStart));
  }

  /** The generated blocks have distinct ids, are ordered by start, and are bounded in
    * number by the cap. */
  lemma GeneratedBlocksOrdered(pattern: RecurrencePattern, baseStart: int, baseEnd: int, firstId: Id,
                               masterId: Id, tenantId: Id, kind: TimeBlockType, reason: Option<string>)
    requires baseStart >= 0 && pattern.interval >= 1
    ensures var r := GeneratedBlocks(pattern, baseStart, baseEnd, firstId, masterId, tenantId, kind, reason);
      UniqueIds(r) && SortedBy(r, TimeBlockStart)
      && (pattern.maxOccurrences.Some? ==>
            |r| <= Max(if pattern.HasDaysOfWeek() then 1 else 0, pattern.maxOccurrences.value - 1))
  {
    var starts := OccurrenceStarts(pattern, baseStart);
    assert GeneratedBlocks(pattern, baseStart, baseEnd, firstId, masterId, tenantId, kind, reason) == Instances(starts, baseEnd - baseStart, firstId, masterId, tenantId, kind, reason);
    OccurrenceStartsShape(pattern, baseStart);
    InstancesShape(starts, baseEnd - baseStart, firstId, masterId, tenantId, kind, reason);
  }

  /** Starts that all lie at or before `bound` at time of day `timeOfDay` give blocks that
    * do too, each with the group's data and an id in the handed-out range. */
  lemma InstancesWithin(starts: seq<int>, duration: int, firstId: Id, masterId: Id, tenantId: Id,
                        kind: TimeBlockType, reason: Option<string>, bound: int, timeOfDay: int)
    requires forall x :: x in starts ==> x <= bound && TimeOf(x) == timeOfDay
    ensures var r := Instances(starts, duration, firstId, masterId, tenantId, kind, reason);
      forall b :: b in r ==>
        b.end - b.start == duration
        && b.recurrenceId == Some(masterId) && b.tenantId == tenantId && b.kind == kind && b.reason == reason
        && b.start <= bound && TimeOf(b.start) == timeOfDay
        && firstId <= b.id < firstId + |r|
  {
    var r := Instances(starts, duration, firstId, masterId, tenantId, kind, reason);
    InstancesAt(starts, duration, firstId, masterId, tenantId, kind, reason);
    forall b | b in r
      ensures b.end - b.start == duration
        && b.recurrenceId == Some(masterId) && b.tenantId == tenantId && b.kind == kind && b.reason == reason
        && b.start <= bound && TimeOf(b.start) == timeOfDay
        && firstId <= b.id < firstId + |r|
    {
      var i :| 0 <= i < |r| && r[i] == b;
      assert starts[i] in starts;
    }
  }

  /** Without a daily bound the follow-on blocks never start at or before the base: the
    * base itself is not emitted again. */
  lemma GeneratedAfterBase(pattern: RecurrencePattern, baseStart: int, baseEnd: int, firstId: Id,
                           masterId: Id, tenantId: Id, kind: TimeBlockType, reason: Option<string>)
    requires baseStart >= 0 && pattern.interval >= 1
    requires pattern.HasDaysOfWeek() ==> forall d :: d in pattern.daysOfWeek.value ==> d >= 0
    ensures forall b :: b in GeneratedBlocks(pattern, baseStart, baseEnd, firstId, masterId, tenantId, kind, reason) ==>
      b.start > baseStart
  {
    OccurrenceStartsShape(pattern, baseStart);
    InstancesShape(OccurrenceStarts(pattern, baseStart), baseEnd - baseStart, firstId, masterId, tenantId, kind, reason);
  }

  /** The generated blocks are the instances of the expanded starts. */
  lemma GeneratedFrom(pattern: RecurrencePattern, baseStart: int, baseEnd: int, starts: seq<int>, firstId: Id,
                      masterId: Id, tenantId: Id, kind: TimeBlockType, reason: Option<string>)
    requires baseStart >= 0 && pattern.interval >= 1
    requires starts == OccurrenceStarts(pattern, baseStart)
    ensures GeneratedBlocks(pattern, baseStart, baseEnd, firstId, masterId, tenantId, kind, reason)
         == Instances(starts, baseEnd - baseStart, firstId, masterId, tenantId, kind, reason)
  {
  }

  /** The blocks are determined by their starts, duration, first id and group data. */
  lemma InstancesUnique(blocks: seq<TimeBlock>, starts: seq<int>, duration: int, firstId: Id, masterId: Id,
                        tenantId: Id, kind: TimeBlockType, reason: Option<string>)
    requires |blocks| == |starts|
    requires forall k :: 0 <= k < |blocks| ==>
      blocks[k] == TimeBlockInstance(firstId + k, starts[k], starts[k] + duration, masterId, tenantId, kind, reason)
    ensures blocks == Instances(starts, duration, firstId, masterId, tenantId, kind, reason)
  {
    InstancesAt(starts, duration, firstId, masterId, tenantId, kind, reason);
  }

  /** Two rows of a table with a primary key that share an id are the same row. */
  lemma SameIdSameRow(rows: seq<TimeBlock>, a: TimeBlock, b: TimeBlock)
    requires UniqueIds(rows) && a in rows && b in rows && a.id == b.id
    ensures a == b
  {
    var i :| 0 <= i < |rows| && rows[i] == a;
    var j :| 0 <= j < |rows| && rows[j] == b;
    assert BlockId(rows[i]) == BlockId(rows[j]);
    assert i == j;
  }

  /** The ids of a list of blocks, in order. */
  function Ids(blocks: seq<TimeBlock>): (ids: seq<Id>)
    ensures |ids| == |blocks|
    ensures forall id :: id in ids <==> exists b :: b in blocks && b.id == id
  {
    if blocks == [] then [] else [blocks[0].id] + Ids(blocks[1..])
  }

  /** The loop of GenerateRecurringTimeBlocksAsync: one block per start, each with an id
    * drawn from the supply; nothing is stored yet. */
  method BuildInstances(repository: TimeBlockRepository, starts: seq<int>, duration: int, masterId: Id,
                        tenantId: Id, kind: TimeBlockType, reason: Option<string>)
      returns (timeBlocks: seq<TimeBlock>)
    requires repository.Valid()
    modifies repository
    ensures repository.Valid() && repository.rows == old(repository.rows)
    ensures repository.nextId == old(repository.nextId) + |starts|
    ensures timeBlocks == Instances(starts, duration, old(repository.nextId), masterId, tenantId, kind, reason)
  {
    ghost var firstId := repository.nextId;
    timeBlocks := [];
    var i := 0;
    while i < |starts|
      invariant 0 <= i <= |starts|
      invariant repository.Valid() && repository.rows == old(repository.rows)
      invariant repository.nextId == firstId + i
      invariant |timeBlocks| == i
      invariant forall k :: 0 <= k < i ==>
        timeBlocks[k] == TimeBlockInstance(firstId + k, starts[k], starts[k] + duration, masterId, tenantId, kind, reason)
    {
      var id := repository.NewGuid();
      timeBlocks := timeBlocks + [TimeBlockInstance(id, starts[i], starts[i] + duration, masterId, tenantId, kind, reason)];
      i := i + 1;
    }
    InstancesUnique(timeBlocks, starts, duration, firstId, masterId, tenantId, kind, reason);
  }

  /** The date expansion and the block building of GenerateRecurringTimeBlocksAsync. */
  method ExpandInstances(repository: TimeBlockRepository, pattern: RecurrencePattern,
                         baseStart: int, baseEnd: int, masterId: Id, tenantId: Id,
                         kind: TimeBlockType, reason: Option<string>)
      returns (timeBlocks: seq<TimeBlock>)
    requires repository.Valid()
    requires baseStart >= 0 && pattern.interval >= 1
    modifies repository
    ensures repository.Valid() && repository.rows == old(repository.rows)
    ensures timeBlocks == GeneratedBlocks(pattern, baseStart, baseEnd, old(repository.nextId), masterId, tenantId, kind, reason)
    ensures repository.nextId == old(repository.nextId) + |timeBlocks|
  {
    var starts := ExpandStarts(pattern, baseStart);
    ghost var firstId := repository.nextId;
    timeBlocks := BuildInstances(repository, starts, baseEnd - baseStart, masterId, tenantId, kind, reason);
    GeneratedFrom(pattern, baseStart, baseEnd, starts, firstId, masterId, tenantId, kind, reason);
  }

  /** GenerateRecurringTimeBlocksAsync: expands the pattern, builds one block per start,
    * each with a fresh id, and stores them all when there is at least one. */
  method GenerateRecurringTimeBlocks(repository: TimeBlockRepository, pattern: RecurrencePattern,
                                     baseStart: int, baseEnd: int, masterId: Id, tenantId: Id,
                                     kind: TimeBlockType, reason: Option<string>)
      returns (timeBlocks: seq<TimeBlock>)
    requires repository.Valid()
    requires baseStart >= 0 && pattern.interval >= 1
    requires masterId < repository.nextId
    modifies repository
    ensures repository.Valid()
    ensures timeBlocks == GeneratedBlocks(pattern, baseStart, baseEnd, old(repository.nextId), masterId, tenantId, kind, reason)
    ensures repository.rows == old(repository.rows) + timeBlocks
    ensures repository.nextId == old(repository.nextId) + |timeBlocks|
  {
    ghost var firstId := repository.nextId;
    timeBlocks := ExpandInstances(repository, pattern, baseStart, baseEnd, masterId, tenantId, kind, reason);
    assert UniqueIds(timeBlocks)
      && (forall b :: b in timeBlocks ==> b.id < repository.nextId && b.recurrenceId == Some(masterId))
      && (forall b, c :: b in timeBlocks && c in repository.rows ==> b.id != c.id)
    by {
      GeneratedBlocksShape(pattern, baseStart, baseEnd, firstId, masterId, tenantId, kind, reason);
    }
    if |timeBlocks| != 0 {
      repository.CreateMultipleTimeBlocks(timeBlocks);
    }
  }

  /** DeleteRecurringTimeBlocksAsync: removes exactly the tenant's members of the group
    * (the master block included, since it carries the group id) and nothing else. */
  method DeleteRecurringTimeBlocks(repository: TimeBlockRepository, masterId: Id, tenantId: Id)
    requires repository.Valid()
    modifies repository
    ensures repository.Valid() && repository.nextId == old(repository.nextId)
    ensures forall b :: b in repository.rows <==>
      b in old(repository.rows) && !(b.recurrenceId == Some(masterId) && b.tenantId == tenantId)
    ensures GetTimeBlocksByRecurrenceId(repository.rows, masterId, tenantId) == []
  {
    var existingBlocks := GetTimeBlocksByRecurrenceId(repository.rows, masterId, tenantId);
    if |existingBlocks| != 0 {
      ghost var before := repository.rows;
      var ids := Ids(existingBlocks);
      repository.DeleteMultipleTimeBlocks(ids);
      forall b | b in before
        ensures b.id in ids <==> b.recurrenceId == Some(masterId) && b.tenantId == tenantId
      {
        if b.id in ids {
          var g :| g in existingBlocks && g.id == b.id;
          SameIdSameRow(before, g, b);
        }
      }
    }
    NoGroupMembers(repository.rows, masterId, tenantId);
  }

  /** UpdateRecurringTimeBlocksAsync: the group's blocks are deleted and the pattern is
    * expanded again from the given base; the base block itself is not recreated. */
  method UpdateRecurringTimeBlocks(repository: TimeBlockRepository, masterId: Id, newPattern: RecurrencePattern,
                                   baseStart: int, baseEnd: int, tenantId: Id,
                                   kind: TimeBlockType, reason: Option<string>)
      returns (timeBlocks: seq<TimeBlock>)
    requires repository.Valid()
    requires baseStart >= 0 && newPattern.interval >= 1
    requires masterId < repository.nextId
    modifies repository
    ensures repository.Valid()
    ensures timeBlocks == GeneratedBlocks(newPattern, baseStart, baseEnd, old(repository.nextId), masterId, tenantId, kind, reason)
    ensures forall b :: b in repository.rows <==>
      (b in old(repository.rows) && !(b.recurrenceId == Some(masterId) && b.tenantId == tenantId)) || b in timeBlocks
    ensures forall b :: b in GetTimeBlocksByRecurrenceId(repository.rows, masterId, tenantId) <==> b in timeBlocks
  {
    DeleteRecurringTimeBlocks(repository, masterId, tenantId);
    ghost var kept := repository.rows;
    timeBlocks := GenerateRecurringTimeBlocks(repository, newPattern, baseStart, baseEnd, masterId, tenantId, kind, reason);
    GeneratedBlocksShape(newPattern, baseStart, baseEnd, old(repository.nextId), masterId, tenantId, kind, reason);
    forall b | b in GetTimeBlocksByRecurrenceId(repository.rows, masterId, tenantId)
      ensures b in timeBlocks
    {
      assert b !in kept;
    }
  }
}
