# Availability service — a Dafny model

This project models the core of the availability service of a booking platform. The service keeps four tables:

- each provider's (tenant's) **working hours**, one row per weekday;
- **time blocks**: vacations, breaks and custom unavailable periods, some of them members of a recurrence group;
- a local copy of **bookings**, mirrored from booking events;
- a local copy of **tenants**, mirrored from tenant events and extended with scheduling settings: a time zone and buffer minutes before and after each booking.

Over these tables the model covers the following:

- **The recurrence expander.** It turns a base time block and a daily, weekly or monthly pattern into the follow-on blocks of a recurrence group. It also deletes and regenerates whole groups.
- **The recurrence-pattern validator and converter** of the time-block controller, the time-block type parser, and the create and patch flows for time blocks.
- **The availability calculator.** For each day in a span it takes a working window, subtracts busy periods (time blocks, and bookings widened by buffers), then merges what is left.
- **The conflict detector** behind the point check "is this slot available".
- **The working-hours rules:** creating one day's hours, and replacing a week from a schedule with its free-day summary.
- **The tenant-settings rules:** buffer limits of 0..480 minutes, full update, patch, reset and create.
- **The repositories** as in-memory tables, with their filters, orderings and writes.
- **The event handlers** that mirror tenant and booking events into the local tables.
- **The small pure pieces:** the `RecurrencePattern` value and its factories, and the case-insensitive `StringEnum` check.

Modelling conventions:

- **Time.** An instant is an integer number of seconds since 0001-01-01T00:00:00, the origin of `DateTime`. A time of day (`TimeOnly`, or `DateTime.TimeOfDay`) is a number of seconds below 86400. Module `Calendar` gives:
  - the proleptic Gregorian civil date of an instant;
  - `DaysInMonth` with leap years;
  - `DayOfWeek`, numbered as `System.DayOfWeek` with 0 = Sunday;
  - `AddDays`, and an `AddMonths` that clamps the day of the month.
- **Tables.** Each table is a class:
  - its `rows` field is a sequence, except the tenant table, which is a map keyed by tenant id;
  - its `nextId` counter is the supply of fresh ids (`Guid.NewGuid`);
  - a `Valid()` predicate holds the keys: every id is unique, drawn from the supply, and (for working hours) unique per (tenant, day).
- **Queries** are functions over the rows. **Writes** are methods that reassign them.
- **The clock** ("now", "today") is a parameter. So is the tenant id of the calling provider.
- **The host's time-zone database** is a predicate parameter, `knownZone`.
- **Exceptions** become `Result`/`Option` values. Each exception has its own error constructor.

Modules: `Wrappers`, `Calendar`, `Text`, `Sequences`, `Entities`, `RecurrencePatterns`, `StringEnum`, `Intervals`, `TimeBlockRepositories`, `WorkingHoursRepositories`, `BookingRepositories`, `TenantRepositories`, `RecurrenceExpansion`, `RecurrenceServices`, `AvailabilityServices`, `TimeBlockControllers`, `WorkingHoursControllers`, `TenantSettingsServices`, `BookingEvents`, `TenantEvents`.

## Model

| member | source | states |
|---|---|---|
| Calendar.DayOfWeek | src/AvailabilityService.Api/Services/RecurrenceService.cs:36 | The weekday of an instant is a `System.DayOfWeek` number in 0..6. |
| Calendar.DaysInMonth | src/AvailabilityService.Api/Services/RecurrenceService.cs:182 | A month has 28..31 days. February has 29 exactly in a leap year. Any other month has 30 exactly when it is April, June, September or November. |
| Calendar.AddMonths | src/AvailabilityService.Api/Services/RecurrenceService.cs:142 | `AddMonths(t, k)` lies k months later, at the same time of day. Its day is the original day clamped to that month's length. |
| Calendar.AddMonthsIsLater | src/AvailabilityService.Api/Services/RecurrenceService.cs:142 | Adding at least one month moves an instant strictly forward, so the monthly cursor always advances. |
| Calendar.MakeInstant | src/AvailabilityService.Api/Services/RecurrenceService.cs:183-189 | `new DateTime(y, m, d, time)` gives an instant whose civil date and time of day are the ones given. |
| RecurrencePatterns.NewPattern | src/AvailabilityService.Database/Entities/RecurrencePattern.cs:8-14 | A new pattern has Interval 1, no DaysOfWeek (null) and an empty DaysOfMonth, so neither selector flag holds. |
| RecurrencePatterns.DailyPattern | src/AvailabilityService.Database/Entities/RecurrencePattern.cs:24-25 | The daily factory sets Frequency Daily and no selectors; both `HasDaysOfWeek` and `HasDaysOfMonth` are false. |
| RecurrencePatterns.WeeklyPattern | src/AvailabilityService.Database/Entities/RecurrencePattern.cs:27-28 | The weekly factory stores the given days as they are; `HasDaysOfWeek` holds exactly when they are not empty. |
| RecurrencePatterns.Weekdays | src/AvailabilityService.Database/Entities/RecurrencePattern.cs:30-31 | Weekly on Monday through Friday (1..5). |
| RecurrencePatterns.Weekends | src/AvailabilityService.Database/Entities/RecurrencePattern.cs:33-34 | Weekly on Saturday and Sunday (6, 0). |
| RecurrencePatterns.MonthlyDays | src/AvailabilityService.Database/Entities/RecurrencePattern.cs:36-37 | `Monthly(int[])` stores the array as given. |
| RecurrencePatterns.MonthlyDay | src/AvailabilityService.Database/Entities/RecurrencePattern.cs:39-40 | `Monthly(int)` stores a one-element DaysOfMonth, so `HasDaysOfMonth` holds. |
| StringEnum.Create | src/AvailabilityService.Api/Attributes/StringEnumAttribute.cs:12-13 | A null list is refused. Otherwise the default message is "Invalid value. Allowed values are: " followed by the values joined by ", ". |
| StringEnum.WithErrorMessage | src/AvailabilityService.Api/Attributes/StringEnumAttribute.cs:13 | A named ErrorMessage argument replaces the default message and keeps the allowed values. |
| StringEnum.IsValid | src/AvailabilityService.Api/Attributes/StringEnumAttribute.cs:18-29 | Null passes. A non-string fails with "Value must be a string.". A string passes exactly when some allowed value equals it ignoring case; otherwise it fails with the attribute's message. |
| StringEnum.ContainsIgnoreCase | src/AvailabilityService.Api/Attributes/StringEnumAttribute.cs:28 | Holds exactly when some value has the same lower-case spelling as the string. |
| StringEnum.IsValidIgnoresCase | src/AvailabilityService.Api/Attributes/StringEnumAttribute.cs:28 | Two strings with the same case-folded spelling are accepted or refused alike. |
| Intervals.CalculateOverlap | src/AvailabilityService.Api/Services/AvailabilityService.cs:196-216 | No overlap for disjoint ranges or for zero-width contact. Otherwise the result is [max of starts, min of ends]: it is non-empty and lies inside both ranges. |
| Intervals.OverlapSymmetric | src/AvailabilityService.Api/Services/AvailabilityService.cs:196-216 | The overlap does not depend on the order of the two ranges. |
| Intervals.OverlapNoneIff | src/AvailabilityService.Api/Services/AvailabilityService.cs:205-208 | For non-empty ranges there is no overlap exactly when one ends at or before the other's start. |
| Intervals.SubtractOneMeaning | src/AvailabilityService.Api/Services/AvailabilityService.cs:94-110 | One free range minus one busy period keeps exactly the free instants outside the busy period. Each piece lies inside the free range and does not overlap the busy period. An untouched range passes through as it is; every split piece is non-empty. |
| Intervals.SubtractCovers | src/AvailabilityService.Api/Services/AvailabilityService.cs:90-114 | Subtracting one busy period from the free list removes exactly that period's instants. |
| Intervals.SubtractShape | src/AvailabilityService.Api/Services/AvailabilityService.cs:90-114 | Every piece left by one subtraction lies inside a free range it came from and overlaps no part of the busy period. It is either that range unchanged or non-empty. |
| Intervals.SubtractDisjoint | src/AvailabilityService.Api/Services/AvailabilityService.cs:97-100 | A busy period that overlaps no free range leaves the list as it is. |
| Intervals.SubtractKeepsUntouched | src/AvailabilityService.Api/Services/AvailabilityService.cs:97-100 | A free range that the busy period does not overlap survives unchanged. |
| Intervals.SubtractAllCovers | src/AvailabilityService.Api/Services/AvailabilityService.cs:88-116 | After every busy period is subtracted, an instant is free exactly when it was free before and no busy period holds it. |
| Intervals.SubtractAllShape | src/AvailabilityService.Api/Services/AvailabilityService.cs:88-116 | Every remaining range lies inside an original range and overlaps no busy period. It is either an original range or non-empty. |
| Intervals.SubtractAllKeepsUntouched | src/AvailabilityService.Api/Services/AvailabilityService.cs:88-116 | A free range that no busy period overlaps is still in the result. |
| Intervals.SubtractBusyPeriod | src/AvailabilityService.Api/Services/AvailabilityService.cs:90-115 | The loop over the free ranges for one busy period computes the one-period subtraction. |
| Intervals.MergeRangesCovers | src/AvailabilityService.Api/Services/AvailabilityService.cs:119-145 | Merging covers exactly the instants its input covers. |
| Intervals.MergeRangesShape | src/AvailabilityService.Api/Services/AvailabilityService.cs:119-145 | Merging non-empty ranges gives non-empty ranges, sorted by start. Consecutive ranges are separated by a gap, with neither overlap nor contact. There are never more ranges than were given. |
| Intervals.MergeFromSeparated | src/AvailabilityService.Api/Services/AvailabilityService.cs:127-140 | Ranges that are already separated pass through the fold unchanged. |
| Intervals.MergeRangesIdempotent | src/AvailabilityService.Api/Services/AvailabilityService.cs:119-145 | Merging a merged list changes nothing. |
| Intervals.MergeOverlapping | src/AvailabilityService.Api/Services/AvailabilityService.cs:119-145 | The merge loop (sort by start, then fold with a mutable current range) computes the merge. |
| AvailabilityServices.WholeMinutes | src/AvailabilityService.Api/Services/AvailabilityService.cs:49-52 | The time of day rebuilt from Hour and Minute is a whole minute, at most the original and less than a minute before it. |
| AvailabilityServices.RowForDay | src/AvailabilityService.Api/Services/AvailabilityService.cs:37 | `FirstOrDefault` by weekday: none exactly when no row has that day; otherwise the first row that has it. |
| AvailabilityServices.WorkingWindow | src/AvailabilityService.Api/Services/AvailabilityService.cs:39-53 | The base window lies on the day. It runs 00:00:00–23:59:59 when the weekday has no row or the row starts where it ends. Otherwise it is the row's hours cut to whole minutes. |
| AvailabilityServices.BlockPeriods | src/AvailabilityService.Api/Services/AvailabilityService.cs:56-63 | The block periods of a day are exactly the periods of the blocks that start on that date. |
| AvailabilityServices.BookingPeriods | src/AvailabilityService.Api/Services/AvailabilityService.cs:66-74 | The booking periods of a day are exactly the periods of the pending or confirmed bookings that start on that date. |
| AvailabilityServices.WithBuffers | src/AvailabilityService.Api/Services/AvailabilityService.cs:77-84 | Each booking period is widened by BufferBefore minutes earlier and BufferAfter minutes later, one for one. |
| AvailabilityServices.BusyPeriodsMeaning | src/AvailabilityService.Api/Services/AvailabilityService.cs:56-86 | An instant is busy on a day exactly when a block starting that day holds it, or a busy booking starting that day holds it once widened by the buffers. |
| AvailabilityServices.BusyPeriodHasSource | src/AvailabilityService.Api/Services/AvailabilityService.cs:56-86 | A busy period holding an instant comes from a block or a busy booking of that day. |
| AvailabilityServices.BlockMakesBusy | src/AvailabilityService.Api/Services/AvailabilityService.cs:56-63 | A block of the day holding an instant makes that instant busy. |
| AvailabilityServices.BookingMakesBusy | src/AvailabilityService.Api/Services/AvailabilityService.cs:66-84 | A busy booking of the day whose widened period holds an instant makes that instant busy. |
| AvailabilityServices.CollectBusyPeriods | src/AvailabilityService.Api/Services/AvailabilityService.cs:56-86 | The three collecting loops compute the blocks' periods followed by the widened booking periods. |
| AvailabilityServices.DayRangesMeaning | src/AvailabilityService.Api/Services/AvailabilityService.cs:35-145 | A day's free ranges cover exactly the window's instants that no busy period covers. When the window is not empty, they are non-empty, inside the window, sorted by start and separated. |
| AvailabilityServices.CoversSingle | src/AvailabilityService.Api/Services/AvailabilityService.cs:88-90 | A single range covers exactly its own instants; the free list starts as the window alone. |
| AvailabilityServices.CoveredRangeWithin | src/AvailabilityService.Api/Services/AvailabilityService.cs:88-116 | A non-empty merged range whose instants all lie in the window lies inside the window. |
| AvailabilityServices.AvailableOnDay | src/AvailabilityService.Api/Services/AvailabilityService.cs:35-146 | The per-day loop (subtract each busy period in turn, then merge) computes the day's free ranges. |
| AvailabilityServices.RangesFromCovers | src/AvailabilityService.Api/Services/AvailabilityService.cs:30-147 | Over the days from a start date through a last date, an instant is covered exactly when it is free on one of those days. |
| AvailabilityServices.MidnightsApart | src/AvailabilityService.Api/Services/AvailabilityService.cs:33 | Two different midnights are at least one day apart, so each day of the span is visited once. |
| AvailabilityServices.AvailableRangesMeaning | src/AvailabilityService.Api/Services/AvailabilityService.cs:17-160 | The response covers exactly the instants free on some day from startDate.Date through endDate.Date, and it is sorted by start. |
| AvailabilityServices.CollectRanges | src/AvailabilityService.Api/Services/AvailabilityService.cs:30-147 | The day loop appends each day's free ranges in turn, day after day. |
| AvailabilityServices.RangesFromStep | src/AvailabilityService.Api/Services/AvailabilityService.cs:33-147 | Appending one day's ranges advances the span by one day. |
| AvailabilityServices.GetAvailableRanges | src/AvailabilityService.Api/Services/AvailabilityService.cs:17-160 | Not found exactly for an unknown tenant. Otherwise the result is the sorted free ranges of every day, computed from the tenant's working hours, the blocks overlapping the span and the busy bookings touching it. |
| AvailabilityServices.RowConflicts | src/AvailabilityService.Api/Services/AvailabilityService.cs:249-272 | A row raises at most two conflicts, both of kind WorkingHours: one before its start and one after its end. |
| AvailabilityServices.RowConflictsMeaning | src/AvailabilityService.Api/Services/AvailabilityService.cs:249-272 | A row raises nothing exactly when the request lies inside the row's window. An instant of the request is flagged exactly when it lies outside the window. |
| AvailabilityServices.DayRowsConflicts | src/AvailabilityService.Api/Services/AvailabilityService.cs:247-273 | Rows are checked one after another; each conflict has the WorkingHours kind. |
| AvailabilityServices.DayRowsConflictsMeaning | src/AvailabilityService.Api/Services/AvailabilityService.cs:247-273 | The day's rows raise nothing exactly when each raises nothing. An instant is flagged exactly when some row flags it. |
| AvailabilityServices.BlockConflicts | src/AvailabilityService.Api/Services/AvailabilityService.cs:278-291 | One TimeBlock conflict per block with a non-empty overlap with the widened request, in order. |
| AvailabilityServices.BlockConflictsMeaning | src/AvailabilityService.Api/Services/AvailabilityService.cs:278-291 | A time-block conflict is exactly the overlap of the widened request with one of the blocks. |
| AvailabilityServices.BufferConflicts | src/AvailabilityService.Api/Services/AvailabilityService.cs:294-313 | Only BufferTime conflicts; a cancelled booking raises none; never the Booking kind. |
| AvailabilityServices.BufferConflictsMeaning | src/AvailabilityService.Api/Services/AvailabilityService.cs:294-313 | A buffer conflict is exactly the overlap of the widened request with the widened period of a booking that is not cancelled. |
| AvailabilityServices.WorkingHoursConflictsMeaning | src/AvailabilityService.Api/Services/AvailabilityService.cs:241-275 | With no row for the weekday, the tenant is open around the clock and there are no conflicts. Otherwise an instant of the unwidened request is flagged exactly when some row of that day leaves it outside its window. |
| AvailabilityServices.TenantConflicts | src/AvailabilityService.Api/Services/AvailabilityService.cs:230-316 | Conflicts come in order: working hours, then time blocks, then bookings. |
| AvailabilityServices.HoursConflictIff | src/AvailabilityService.Api/Services/AvailabilityService.cs:241-275 | The working-hours part reports something exactly when some row of the tenant for the request's weekday does not hold the whole request. |
| AvailabilityServices.BlockConflictIff | src/AvailabilityService.Api/Services/AvailabilityService.cs:278-291 | The time-block part reports something exactly when some block of the tenant shares an instant with the widened request. |
| AvailabilityServices.BlockConflictHasBlock | src/AvailabilityService.Api/Services/AvailabilityService.cs:278-291 | Every time-block conflict comes from one of the tenant's blocks that shares an instant with the widened request. |
| AvailabilityServices.BlockInQueryRaises | src/AvailabilityService.Api/Services/AvailabilityService.cs:282-289 | A listed block that shares an instant with the widened request raises a conflict. |
| AvailabilityServices.BufferConflictIff | src/AvailabilityService.Api/Services/AvailabilityService.cs:294-313 | The booking part reports something exactly when a booking returned by the range query has a widened period sharing an instant with the widened request. |
| AvailabilityServices.TenantConflictsIff | src/AvailabilityService.Api/Services/AvailabilityService.cs:230-316 | A request has a conflict exactly when one of these holds: a working-hours row of its day does not hold it; a block shares an instant with it once widened; or a busy booking returned by the range query does. |
| AvailabilityServices.BeforeBufferBeyondQuery | src/AvailabilityService.Api/Services/AvailabilityService.cs:294-296 | The booking query uses the widened request, not the booking's own widened period. So a booking at 00:25–00:50 raises no conflict for a request at 00:00–00:10 with 10-minute buffers, although the two buffers meet. The same booking at 00:20 raises one. |
| AvailabilityServices.CollectWorkingHoursConflicts | src/AvailabilityService.Api/Services/AvailabilityService.cs:247-274 | The loop over the day's rows computes the rows' conflicts. |
| AvailabilityServices.CheckRow | src/AvailabilityService.Api/Services/AvailabilityService.cs:249-272 | The loop body computes one row's conflicts. |
| AvailabilityServices.CollectBlockConflicts | src/AvailabilityService.Api/Services/AvailabilityService.cs:282-290 | The time-block loop computes the block conflicts. |
| AvailabilityServices.CollectBufferConflicts | src/AvailabilityService.Api/Services/AvailabilityService.cs:298-312 | The booking loop skips cancelled bookings and computes the buffer conflicts. |
| AvailabilityServices.DetectAllConflicts | src/AvailabilityService.Api/Services/AvailabilityService.cs:230-316 | The result is the tenant's conflicts, read from the repositories with the widened request. |
| AvailabilityServices.IsTimeSlotAvailable | src/AvailabilityService.Api/Services/AvailabilityService.cs:162-194 | An unknown tenant gets one WorkingHours conflict spanning the request and is unavailable. Otherwise the conflicts are detected with the tenant's buffers. The slot is available exactly when the tenant exists and there is no conflict. |
| TimeBlockRepositories.PrependUnique | src/AvailabilityService.Database/Repositories/Implementation/TimeBlockRepository.cs:80-86 | A block whose id no row uses can join the rows with the primary key kept. |
| TimeBlockRepositories.QuerySorted | src/AvailabilityService.Database/Repositories/Implementation/TimeBlockRepository.cs:60-78 | `Where(p).OrderBy(start)` returns exactly the rows satisfying p, sorted by start, as a permutation of the filtered rows. |
| TimeBlockRepositories.GetTimeBlocks | src/AvailabilityService.Database/Repositories/Implementation/TimeBlockRepository.cs:11-31 | The count is taken over all of the tenant's blocks before paging. The page holds only the tenant's blocks, is sorted by start, has length max(0, min(limit, count − max(0, offset))) and is the Page of the start-sorted tenant blocks. |
| TimeBlockRepositories.TenantBlocks | src/AvailabilityService.Database/Repositories/Implementation/TimeBlockRepository.cs:13-20 | A block is kept exactly when it is a row of the table and belongs to the requested tenant (or no tenant is given). |
| TimeBlockRepositories.SortedTenantBlocks | src/AvailabilityService.Database/Repositories/Implementation/TimeBlockRepository.cs:13-25 | The tenant's blocks ordered by start: a start-sorted permutation of the filtered rows. |
| TimeBlockRepositories.Page | src/AvailabilityService.Database/Repositories/Implementation/TimeBlockRepository.cs:24-28 | Skip(offset).Take(limit) on a start-sorted list is its slice from min(max(0, offset), count), of length max(0, min(limit, count − max(0, offset))), and stays sorted. |
| TimeBlockRepositories.GetTimeBlocksByDateRange | src/AvailabilityService.Database/Repositories/Implementation/TimeBlockRepository.cs:33-51 | Returns the blocks lying wholly inside [start, end], optionally of one tenant, sorted by start. The count equals the number returned. |
| TimeBlockRepositories.GetTimeBlockById | src/AvailabilityService.Database/Repositories/Implementation/TimeBlockRepository.cs:53-58 | Returns the row with that id, or none when no row has it. |
| TimeBlockRepositories.GetTimeBlocksByTenant | src/AvailabilityService.Database/Repositories/Implementation/TimeBlockRepository.cs:60-67 | Returns exactly the tenant's blocks, sorted by start. |
| TimeBlockRepositories.GetTimeBlocksByTenantAndDateRange | src/AvailabilityService.Database/Repositories/Implementation/TimeBlockRepository.cs:69-78 | Returns exactly the tenant's blocks with start < endDate and end > startDate, sorted by start. |
| TimeBlockRepositories.ContainedBlocksOverlap | src/AvailabilityService.Database/Repositories/Implementation/TimeBlockRepository.cs:33-78 | A non-empty block that the containment query returns also strictly overlaps the range. |
| TimeBlockRepositories.GetTimeBlocksByRecurrenceId | src/AvailabilityService.Database/Repositories/Implementation/TimeBlockRepository.cs:154-161 | Returns exactly the tenant's blocks carrying that recurrence id, sorted by start. |
| TimeBlockRepositories.NoGroupMembers | src/AvailabilityService.Database/Repositories/Implementation/TimeBlockRepository.cs:154-161 | In a table holding no member of the group, the group query returns nothing. |
| TimeBlockRepositories.ApplyUpdate | src/AvailabilityService.Database/Repositories/Implementation/TimeBlockRepository.cs:93-103 | Each field that is present replaces the stored one. Absent fields and the id, tenant and recurrence id are kept. |
| TimeBlockRepositories.ApplyUpdateIdempotent | src/AvailabilityService.Database/Repositories/Implementation/TimeBlockRepository.cs:88-110 | Applying an update twice is applying it once. An empty update changes nothing. |
| TimeBlockRepositories.FilterKeepsValid | src/AvailabilityService.Database/Repositories/Implementation/TimeBlockRepository.cs:112-152 | Removing rows keeps the table invariant. |
| TimeBlockRepositories.DeleteRangeSplits | src/AvailabilityService.Database/Repositories/Implementation/TimeBlockRepository.cs:137-152 | A range delete removes exactly the rows the range query lists and keeps the rest, among which the query finds nothing. |
| TimeBlockRepositories.TimeBlockRepository.constructor | src/AvailabilityService.Database/Repositories/Implementation/TimeBlockRepository.cs:9 | The table starts empty and valid. |
| TimeBlockRepositories.TimeBlockRepository.NewGuid | src/AvailabilityService.Database/Repositories/Implementation/TimeBlockRepository.cs:82 | Returns an id that no row uses, as id or as recurrence id, and advances the supply. |
| TimeBlockRepositories.TimeBlockRepository.CreateTimeBlock | src/AvailabilityService.Database/Repositories/Implementation/TimeBlockRepository.cs:80-86 | Stores the block under a fresh id, appended to the rows. |
| TimeBlockRepositories.TimeBlockRepository.UpdateTimeBlock | src/AvailabilityService.Database/Repositories/Implementation/TimeBlockRepository.cs:88-110 | For an unknown id: false, with nothing changed. Otherwise the row with that id takes the present fields and no other row changes. |
| TimeBlockRepositories.TimeBlockRepository.DeleteTimeBlock | src/AvailabilityService.Database/Repositories/Implementation/TimeBlockRepository.cs:112-120 | Removes the row with the id, if any, and reports whether one was removed. The new rows are the old ones with that one position cut out. |
| TimeBlockRepositories.TimeBlockRepository.DeleteTimeBlockOfTenant | src/AvailabilityService.Database/Repositories/Implementation/TimeBlockRepository.cs:122-135 | Removes the row only when both the id and the tenant match, and reports whether one was removed. The new rows are the old ones with that one position cut out. |
| TimeBlockRepositories.TimeBlockRepository.DeleteTimeBlocksByDateRange | src/AvailabilityService.Database/Repositories/Implementation/TimeBlockRepository.cs:137-152 | Removes exactly the tenant's blocks lying wholly inside [start, end] and returns their number. Every other row stays. |
| TimeBlockRepositories.TimeBlockRepository.CreateMultipleTimeBlocks | src/AvailabilityService.Database/Repositories/Implementation/TimeBlockRepository.cs:163-169 | Appends the given blocks, which carry ids drawn from the supply. |
| TimeBlockRepositories.TimeBlockRepository.DeleteMultipleTimeBlocks | src/AvailabilityService.Database/Repositories/Implementation/TimeBlockRepository.cs:171-185 | Removes exactly the rows whose id is listed. |
| WorkingHoursRepositories.FilterKeepsValid | src/AvailabilityService.Database/Repositories/Implementation/WorkingHoursRepository.cs:69-107 | Removing rows keeps both keys and the id supply valid. |
| WorkingHoursRepositories.GetWorkingHoursById | src/AvailabilityService.Database/Repositories/Implementation/WorkingHoursRepository.cs:11-16 | Returns the row with that id, or none. |
| WorkingHoursRepositories.GetWorkingHoursByTenantAndDay | src/AvailabilityService.Database/Repositories/Implementation/WorkingHoursRepository.cs:52-57 | Returns the first row of that tenant and day, or none exactly when there is no such row. Under the unique index it is the only one. |
| WorkingHoursRepositories.DayThenStartOrder | src/AvailabilityService.Database/Repositories/Implementation/WorkingHoursRepository.cs:64-65 | The combined sort key orders by day first and by start time within a day. |
| WorkingHoursRepositories.GetWorkingHoursByTenant | src/AvailabilityService.Database/Repositories/Implementation/WorkingHoursRepository.cs:59-67 | Returns exactly the tenant's rows, ordered by day and then by start time. |
| WorkingHoursRepositories.ApplyUpdate | src/AvailabilityService.Database/Repositories/Implementation/WorkingHoursRepository.cs:33-44 | Each supplied field replaces the stored one; the others are kept. |
| WorkingHoursRepositories.ApplyUpdateIdempotent | src/AvailabilityService.Database/Repositories/Implementation/WorkingHoursRepository.cs:28-50 | Applying an update twice is applying it once. An empty update changes nothing. |
| WorkingHoursRepositories.ReplaceKeepsValid | src/AvailabilityService.Database/Repositories/Implementation/WorkingHoursRepository.cs:28-50 | Replacing a row with one that has the same id and a (tenant, day) pair no other row holds keeps the table valid. |
| WorkingHoursRepositories.DistinctTenantDays | src/AvailabilityService.Database/Repositories/Implementation/WorkingHoursRepository.cs:109-123 | Holds exactly when no two rows of the list share a tenant and day. |
| WorkingHoursRepositories.WorkingHoursRepository.constructor | src/AvailabilityService.Database/Repositories/Implementation/WorkingHoursRepository.cs:9 | The table starts empty and valid. |
| WorkingHoursRepositories.WorkingHoursRepository.NewGuid | src/AvailabilityService.Database/Repositories/Implementation/WorkingHoursRepository.cs:20 | Returns an id no row uses and advances the supply. |
| WorkingHoursRepositories.WorkingHoursRepository.CreateWorkingHours | src/AvailabilityService.Database/Repositories/Implementation/WorkingHoursRepository.cs:18-26 | Stores the row under a fresh id. The database refuses a second row for the same tenant and day, and then nothing changes. |
| WorkingHoursRepositories.WorkingHoursRepository.UpdateWorkingHours | src/AvailabilityService.Database/Repositories/Implementation/WorkingHoursRepository.cs:28-50 | For an unknown id: false, with nothing changed. Otherwise the row takes the supplied fields, unless its new day is one the tenant already has in another row. |
| WorkingHoursRepositories.WorkingHoursRepository.DeleteWorkingHours | src/AvailabilityService.Database/Repositories/Implementation/WorkingHoursRepository.cs:69-77 | Removes the row with the id, if any, and reports whether one was removed. The new rows are the old ones with that one position cut out. |
| WorkingHoursRepositories.WorkingHoursRepository.DeleteWorkingHoursOfTenant | src/AvailabilityService.Database/Repositories/Implementation/WorkingHoursRepository.cs:79-92 | Removes the row only when both the id and the tenant match, and reports whether one was removed. The new rows are the old ones with that one position cut out. |
| WorkingHoursRepositories.WorkingHoursRepository.DeleteWorkingHoursByTenant | src/AvailabilityService.Database/Repositories/Implementation/WorkingHoursRepository.cs:94-107 | Removes every row of the tenant, keeps every other tenant's rows, and always returns true. |
| WorkingHoursRepositories.WorkingHoursRepository.CreateMultipleWorkingHours | src/AvailabilityService.Database/Repositories/Implementation/WorkingHoursRepository.cs:109-123 | Appends every row and returns their number. A batch that repeats a (tenant, day) pair, or clashes with a stored row, is refused whole. |
| BookingRepositories.GetById | src/AvailabilityService.Database/Repositories/Implementation/BookingRepository.cs:9-14 | Returns the booking with that id, or none. |
| BookingRepositories.GetBookingsByTenantAndDateRange | src/AvailabilityService.Database/Repositories/Implementation/BookingRepository.cs:16-25 | Returns exactly the tenant's confirmed or pending bookings with start ≤ endDate and end ≥ startDate, in table order. |
| BookingRepositories.RangeQueryIncludesContact | src/AvailabilityService.Database/Repositories/Implementation/BookingRepository.cs:22-23 | The range is inclusive: a booking that only touches the range at one end is still returned. |
| BookingRepositories.BookingRepository.constructor | src/AvailabilityService.Database/Repositories/Implementation/BookingRepository.cs:7 | The table starts empty. |
| BookingRepositories.BookingRepository.Create | src/AvailabilityService.Database/Repositories/Implementation/BookingRepository.cs:27-32 | Appends the booking and returns it. An id already stored is refused as a duplicate key, with nothing changed. |
| BookingRepositories.BookingRepository.Update | src/AvailabilityService.Database/Repositories/Implementation/BookingRepository.cs:34-39 | Replaces the stored booking with the same id and returns the argument. The other bookings are unchanged. An unknown id fails with row-not-found and changes nothing. |
| BookingRepositories.BookingRepository.Delete | src/AvailabilityService.Database/Repositories/Implementation/BookingRepository.cs:41-45 | Removes the stored booking with that id and keeps every other booking: the new rows are the old ones with that one position cut out. An unknown id fails with row-not-found. |
| TenantRepositories.GetTenantById | src/AvailabilityService.Database/Repositories/Implementation/TenantRepository.cs:9-14 | Returns the tenant stored under the id, or none. |
| TenantRepositories.TenantRepository.constructor | src/AvailabilityService.Database/Repositories/Implementation/TenantRepository.cs:7 | The table starts empty. |
| TenantRepositories.TenantRepository.CreateTenant | src/AvailabilityService.Database/Repositories/Implementation/TenantRepository.cs:16-20 | Inserts a new key. An existing key is refused and nothing changes. |
| TenantRepositories.TenantRepository.UpdateTenant | src/AvailabilityService.Database/Repositories/Implementation/TenantRepository.cs:22-26 | Replaces the tenant stored under the same id. The others are unchanged. An unknown id fails with row-not-found and changes nothing. |
| TenantRepositories.TenantRepository.DeleteTenant | src/AvailabilityService.Database/Repositories/Implementation/TenantRepository.cs:28-38 | Removes the tenant when present. The others are unchanged. The tenant's other rows are not cascaded (see "## Left out"). |
| BookingEvents.NewBooking | src/AvailabilityService.Api/Services/BookingEventService.cs:26-38 | The new booking copies the event's id, tenant, owner, start, end and status, and is stamped now. |
| BookingEvents.BookingCreatedReplay | src/AvailabilityService.Api/Services/BookingEventService.cs:19-38 | A created event keeps every stored booking and leaves the event's booking present. Replaying it changes nothing. |
| BookingEvents.AfterBookingCancelled | src/AvailabilityService.Api/Services/BookingEventService.cs:54-64 | Cancelling maps the rows one for one, keeping their ids. |
| BookingEvents.CancelOnlyStatus | src/AvailabilityService.Api/Services/BookingEventService.cs:54-64 | Cancelling changes only the status (to Cancelled) and the stamp of the booking with that id; times and tenant stay. An unknown id changes nothing. |
| BookingEvents.CancelIdempotent | src/AvailabilityService.Api/Services/BookingEventService.cs:61-64 | Cancelling twice is cancelling once, at the later time. |
| BookingEvents.CancelledNotBusy | src/AvailabilityService.Api/Services/BookingEventService.cs:61 | A cancelled booking is not returned by any range query of the availability calculation. |
| BookingEvents.HandleBookingCreated | src/AvailabilityService.Api/Services/BookingEventService.cs:12-46 | An event for a known id is a no-op. Otherwise the new booking is appended. |
| BookingEvents.HandleBookingCancelled | src/AvailabilityService.Api/Services/BookingEventService.cs:48-72 | An event for an unknown id is a no-op. Otherwise the stored booking becomes cancelled. |
| TenantEvents.NewTenant | src/AvailabilityService.Api/Services/TenantEventService.cs:25-37 | The new tenant takes its id and business fields from the event, with no time zone, both buffers 0 and both stamps now. |
| TenantEvents.UpdatedTenant | src/AvailabilityService.Api/Services/TenantEventService.cs:62-74 | The updated tenant takes its business fields from the event. It keeps the time zone, both buffers and CreatedAt, and is stamped now. |
| TenantEvents.TenantCreatedReplay | src/AvailabilityService.Api/Services/TenantEventService.cs:18-39 | A created event keeps every stored tenant and leaves the event's tenant present. Replaying it changes nothing. |
| TenantEvents.TenantUpdatedKeepsSettings | src/AvailabilityService.Api/Services/TenantEventService.cs:55-76 | An update of an unknown tenant changes nothing. Otherwise only that tenant changes, and it keeps its local settings. Replaying the update gives the same tenant apart from the stamp. |
| TenantEvents.HandleTenantCreated | src/AvailabilityService.Api/Services/TenantEventService.cs:12-47 | An event for an existing id is a no-op. Otherwise the new tenant is inserted. |
| TenantEvents.HandleTenantUpdated | src/AvailabilityService.Api/Services/TenantEventService.cs:49-84 | An event for an unknown id is a no-op. Otherwise the tenant is replaced by its updated form. |
| RecurrenceExpansion.EffectiveEndDate | src/AvailabilityService.Api/Services/RecurrenceService.cs:249-256 | The end bound is EndDate when given. Otherwise it is the base start plus 730 days (365 · 2), not two calendar years. |
| RecurrenceExpansion.DefaultEndShift | src/AvailabilityService.Api/Services/RecurrenceService.cs:249-256 | Without EndDate the bound keeps the base time of day and falls two weekdays after the base weekday, as 730 days is 104 weeks and 2 days. |
| RecurrenceExpansion.AdjustedCap | src/AvailabilityService.Api/Services/RecurrenceService.cs:29 | The cap is MaxOccurrences − 1 when MaxOccurrences is given, and none otherwise. |
| RecurrenceExpansion.DailyFromClosedForm | src/AvailabilityService.Api/Services/RecurrenceService.cs:157-165 | The k-th element of the daily stream is the cursor plus k intervals. Every element is within the bound, and one more interval would pass it. |
| RecurrenceExpansion.DailyStarts | src/AvailabilityService.Api/Services/RecurrenceService.cs:154-166 | The daily loop produces the capped daily stream that starts one interval after the base. |
| RecurrenceExpansion.FirstWeekStart | src/AvailabilityService.Api/Services/RecurrenceService.cs:65 | The first later week starts on the next Sunday at the base time of day. This is 1..7 days after the base, whatever the Interval. |
| RecurrenceExpansion.BaseWeekStarts | src/AvailabilityService.Api/Services/RecurrenceService.cs:36-59 | The base-week loop produces the selected days after the base weekday that fall within the bound. It stops as soon as the cap is reached, and adds at least one before testing. |
| RecurrenceExpansion.LaterWeekStarts | src/AvailabilityService.Api/Services/RecurrenceService.cs:61-93 | The later-weeks loop produces the later weeks' dates, week after week, under what is left of the cap. |
| RecurrenceExpansion.WeekPass | src/AvailabilityService.Api/Services/RecurrenceService.cs:69-86 | One week's pass yields the first `left` of that week's in-bound dates (all of them when the cap is not reached), as a prefix of the week's dates. |
| RecurrenceExpansion.WeeklyStarts | src/AvailabilityService.Api/Services/RecurrenceService.cs:31-93 | The weekly branch produces the capped base-week dates, then the later weeks' dates under what is left of the cap. |
| RecurrenceExpansion.MonthlyOccurrenceAsWritten | src/AvailabilityService.Api/Services/RecurrenceService.cs:177-203 | As written: a positive selector names min(d, days in month); any other names days in month + d + 1. The result is none where `new DateTime` throws, which happens when that day is not in the month. |
| RecurrenceExpansion.MonthlyOccurrence | src/AvailabilityService.Api/Services/RecurrenceService.cs:177-203 | The occurrence keeps the cursor's year, month and time of day. Its day is the selector's day clamped into 1..days in month, and −1 gives the last day. Wherever the code as written does not throw, the two agree. |
| RecurrenceExpansion.SkipBaseIsSameInstant | src/AvailabilityService.Api/Services/RecurrenceService.cs:116 | Comparing date and time of day separately is comparing the instants. |
| RecurrenceExpansion.MonthStarts | src/AvailabilityService.Api/Services/RecurrenceService.cs:109-137 | The selector loop of one month produces that month's kept dates, stopping at the cap. A −31 selector uses the clamped day (see "## Left out"). |
| RecurrenceExpansion.MonthlyStarts | src/AvailabilityService.Api/Services/RecurrenceService.cs:101-153 | The monthly loop produces the capped monthly stream of clamped days. The cursor advances by AddMonths(Interval) while it is within the bound. |
| RecurrenceExpansion.ExpandStarts | src/AvailabilityService.Api/Services/RecurrenceService.cs:12-175 | The date part of the expansion computes the follow-on starts, with monthly days clamped. |
| RecurrenceExpansion.FrequencyIgnored | src/AvailabilityService.Api/Services/RecurrenceService.cs:31-166 | The follow-on starts do not depend on Frequency. The branch is chosen by the selectors alone: days of the week first, then days of the month, else daily. |
| RecurrenceExpansion.DailyOccurrences | src/AvailabilityService.Api/Services/RecurrenceService.cs:154-166 | Daily: the k-th follow-on start is the base plus (k + 1) intervals, and every start is within the bound. At most MaxOccurrences − 1 are produced, and generation stops early only at the cap. |
| RecurrenceExpansion.WeeklyVisitsShape | src/AvailabilityService.Api/Services/RecurrenceService.cs:42-91 | Every weekly date is within the bound and at the base time of day. It is either a selected day of the base week after the base weekday, or a selected day of the week that starts on the next Sunday plus a whole multiple of 7 · Interval days. With weekday numbers as selectors, every date is after the base. |
| RecurrenceExpansion.WeeklyCap | src/AvailabilityService.Api/Services/RecurrenceService.cs:49-91 | A cap below one still lets one base-week date through, and nothing more. Otherwise the weekly dates are the first `cap` of the base-week dates followed by the later weeks' dates. |
| RecurrenceExpansion.MonthsFromBounds | src/AvailabilityService.Api/Services/RecurrenceService.cs:107-146 | Every monthly date lies after the base and within the bound, at the cursor's time of day. |
| RecurrenceExpansion.MonthsFromCursor | src/AvailabilityService.Api/Services/RecurrenceService.cs:107-146 | Each monthly date is a selector's day in the month of the cursor after some number of AddMonths(Interval) steps. |
| RecurrenceExpansion.WeeklyStartsShape | src/AvailabilityService.Api/Services/RecurrenceService.cs:31-99 | The sorted weekly starts are a permutation of the visited dates and are sorted. At most MaxOccurrences − 1 are produced (at least one base-week date may appear). |
| RecurrenceExpansion.MonthlyStartsShape | src/AvailabilityService.Api/Services/RecurrenceService.cs:101-152 | The sorted monthly starts are sorted, after the base, within the bound, and at most MaxOccurrences − 1 of them. |
| RecurrenceExpansion.DailyStartsShape | src/AvailabilityService.Api/Services/RecurrenceService.cs:154-166 | The daily starts are strictly increasing, after the base, at the base time of day and within the bound. |
| RecurrenceExpansion.OccurrenceStartsShape | src/AvailabilityService.Api/Services/RecurrenceService.cs:12-175 | Every expansion's starts are sorted, within the end bound, at the base time of day, and after the base (for weekly, when the selectors are weekday numbers). There are at most MaxOccurrences − 1 of them, except that a weekly pattern may produce one base-week date when MaxOccurrences ≤ 1. |
| RecurrenceServices.Instances | src/AvailabilityService.Api/Services/RecurrenceService.cs:95-99 | One block per start: there are exactly as many blocks as starts. |
| RecurrenceServices.InstancesAt | src/AvailabilityService.Api/Services/RecurrenceService.cs:229-247 | The i-th block is built from the i-th start, lasts the duration, carries the group id, tenant, type and reason, and takes id firstId + i. |
| RecurrenceServices.InstancesWithin | src/AvailabilityService.Api/Services/RecurrenceService.cs:95-99 | When every start is within a bound and at a time of day, every block starts within that bound at that time of day, carries the group's data and has an id in the handed-out range. |
| RecurrenceServices.InstancesShape | src/AvailabilityService.Api/Services/RecurrenceService.cs:229-247 | Every built block lasts `duration`, belongs to the group, tenant, type and reason given, and starts at one of the starts. The ids are distinct and fresh. Sorted starts give blocks sorted by start. |
| RecurrenceServices.GeneratedBlocksShape | src/AvailabilityService.Api/Services/RecurrenceService.cs:12-175 | Every generated block satisfies End − Start = baseEnd − baseStart. It carries masterId, the tenant, the type and the reason, and starts at the base time of day within the end bound. The blocks are ordered by start and bounded in number by the cap. |
| RecurrenceServices.GeneratedBlocksWithin | src/AvailabilityService.Api/Services/RecurrenceService.cs:12-175 | Every generated block has the base block's duration, carries the group's data, starts at the base time of day within the end bound, and takes an id in the handed-out range. |
| RecurrenceServices.GeneratedBlocksOrdered | src/AvailabilityService.Api/Services/RecurrenceService.cs:12-175 | The generated blocks have distinct ids, are ordered by start and are bounded in number by the cap. |
| RecurrenceServices.GeneratedAfterBase | src/AvailabilityService.Api/Services/RecurrenceService.cs:113-116 | When the selectors are weekday numbers, no follow-on block starts at or before the base, so the base is never emitted again. |
| RecurrenceServices.GeneratedFrom | src/AvailabilityService.Api/Services/RecurrenceService.cs:95-165 | The generated blocks are the instances of the expanded starts. |
| RecurrenceServices.InstancesUnique | src/AvailabilityService.Api/Services/RecurrenceService.cs:95-99 | The blocks are determined by their starts, duration, first id and group data. |
| RecurrenceServices.SameIdSameRow | src/AvailabilityService.Api/Services/RecurrenceService.cs:218-227 | Two rows of the table that share an id are the same row. |
| RecurrenceServices.Ids | src/AvailabilityService.Api/Services/RecurrenceService.cs:224 | Lists the ids of the blocks, one per block, in order. |
| RecurrenceServices.BuildInstances | src/AvailabilityService.Api/Services/RecurrenceService.cs:95-165 | The building loop hands out one fresh id per start and stores nothing yet. |
| RecurrenceServices.ExpandInstances | src/AvailabilityService.Api/Services/RecurrenceService.cs:20-166 | Expansion plus building gives the generated blocks and advances the id supply by their number. |
| RecurrenceServices.GenerateRecurringTimeBlocks | src/AvailabilityService.Api/Services/RecurrenceService.cs:12-175 | The table gains exactly the generated blocks, in order, and they are returned. Monthly blocks use the clamped day. |
| RecurrenceServices.DeleteRecurringTimeBlocks | src/AvailabilityService.Api/Services/RecurrenceService.cs:218-227 | Removes exactly the tenant's rows carrying the group id, the master block included, and nothing else. |
| RecurrenceServices.UpdateRecurringTimeBlocks | src/AvailabilityService.Api/Services/RecurrenceService.cs:205-216 | The group is deleted, then regenerated from the base with the clamped monthly day. Afterwards the group's members are exactly the new follow-on blocks, and the base block is not recreated. |
| TimeBlockControllers.FrequencyOf | src/AvailabilityService.Api/Controllers/TimeBlockController.cs:491-566 | Case-insensitive: "daily", "weekly" and "monthly" map to their frequency, and every other string to none. |
| TimeBlockControllers.DayOfMonthErrorMeaning | src/AvailabilityService.Api/Controllers/TimeBlockController.cs:539-546 | A day-of-month value passes exactly when it is in 1..31, −1 or −31. |
| TimeBlockControllers.DayOfMonthErrorsMeaning | src/AvailabilityService.Api/Controllers/TimeBlockController.cs:537-547 | The loop reports one error per rejected value, and nothing exactly when every value passes. |
| TimeBlockControllers.CommonErrorsMeaning | src/AvailabilityService.Api/Controllers/TimeBlockController.cs:467-489 | Each message about Interval, the end condition, a past EndDate and MaxOccurrences is present exactly when its condition holds. |
| TimeBlockControllers.SelectorErrorsMeaning | src/AvailabilityService.Api/Controllers/TimeBlockController.cs:491-566 | Each selector message is present exactly when its condition holds. Examples: Daily with days of the week, Weekly with days of the month, Monthly with days of the week, and an unknown frequency. |
| TimeBlockControllers.WeekDayErrorsMeaning | src/AvailabilityService.Api/Controllers/TimeBlockController.cs:510-526 | For a non-null DaysOfWeek, the out-of-range, duplicate and missing-base-day messages are each present exactly when their condition holds. |
| TimeBlockControllers.MonthDayErrorsMeaning | src/AvailabilityService.Api/Controllers/TimeBlockController.cs:535-561 | The per-value messages come first. The base-day message is present exactly when the base day matches no listed value and is not the last, second-to-last or third-to-last day with −1, −2 or −3 listed. |
| TimeBlockControllers.DetailErrorsKinds | src/AvailabilityService.Api/Controllers/TimeBlockController.cs:491-566 | The selector-value checks add neither common nor selector messages. |
| TimeBlockControllers.PatternErrorsSplit | src/AvailabilityService.Api/Controllers/TimeBlockController.cs:463-570 | Every message comes from the common checks, the selector checks or the value checks, according to its kind. |
| TimeBlockControllers.PatternErrorsCommonMeaning | src/AvailabilityService.Api/Controllers/TimeBlockController.cs:463-489 | The validator reports every applicable error, not just the first. Each interval and end-condition message is present exactly when its condition holds. |
| TimeBlockControllers.PatternErrorsFrequencyMeaning | src/AvailabilityService.Api/Controllers/TimeBlockController.cs:491-566 | Each message about the frequency and the selectors it allows is present exactly when its condition holds. |
| TimeBlockControllers.PatternErrorsWeeklyMeaning | src/AvailabilityService.Api/Controllers/TimeBlockController.cs:504-527 | For a weekly pattern, the week-day messages are present exactly when their conditions hold. A null DaysOfWeek skips them. |
| TimeBlockControllers.PatternErrorsMonthlyMeaning | src/AvailabilityService.Api/Controllers/TimeBlockController.cs:529-562 | For a monthly pattern with a non-empty DaysOfMonth, the month-day messages are present exactly when their conditions hold. |
| TimeBlockControllers.CheckDaysOfMonth | src/AvailabilityService.Api/Controllers/TimeBlockController.cs:537-547 | The day-of-month loop computes the loop's messages. |
| TimeBlockControllers.CheckCommon | src/AvailabilityService.Api/Controllers/TimeBlockController.cs:465-489 | The first checks append the common messages in order. |
| TimeBlockControllers.CheckFrequency | src/AvailabilityService.Api/Controllers/TimeBlockController.cs:491-567 | The switch appends the frequency messages in order. |
| TimeBlockControllers.CheckDaysOfWeek | src/AvailabilityService.Api/Controllers/TimeBlockController.cs:510-526 | The days-of-week loop produces exactly the weekday messages of the pattern (WeekDayErrors). |
| TimeBlockControllers.CheckMonthDays | src/AvailabilityService.Api/Controllers/TimeBlockController.cs:535-561 | The days-of-month loop produces exactly the day-of-month messages of the pattern (MonthDayErrors). |
| TimeBlockControllers.ValidateRecurrencePattern | src/AvailabilityService.Api/Controllers/TimeBlockController.cs:463-570 | Returns every applicable message, in the order the checks run. |
| TimeBlockControllers.ConvertToRecurrencePattern | src/AvailabilityService.Api/Controllers/TimeBlockController.cs:572-614 | An unknown frequency throws. Interval defaults to 1 and the end condition is copied. Weekly with no days gets [base weekday]. Given DaysOfMonth are copied, and Monthly with none gets [base day]. Daily keeps no selectors. |
| TimeBlockControllers.AcceptedPatternConverts | src/AvailabilityService.Api/Controllers/TimeBlockController.cs:463-614 | A pattern the validator accepts converts without throwing, to one with interval ≥ 1 and exactly one end condition. Daily has no selectors. Weekly has distinct days in 0..6 that include the base weekday. Monthly has accepted day values and no week days. |
| TimeBlockControllers.MinusThirtyOneAcceptedThenThrows | src/AvailabilityService.Api/Controllers/TimeBlockController.cs:539-546 | The validator accepts a monthly pattern on [31, −31] from 0001-01-31, but the expansion as written throws in February (see Findings). |
| TimeBlockControllers.ParseTimeBlockType | src/AvailabilityService.Api/Controllers/TimeBlockController.cs:616-632 | Case-insensitive: "vacation", "break" and "custom" parse to their type, and every other string is an invalid-type error. |
| TimeBlockControllers.TypeNameLower | src/AvailabilityService.Api/Controllers/TimeBlockController.cs:618-622 | The lower-case spelling of each type's name is the switch label. |
| TimeBlockControllers.ParseTimeBlockTypeNames | src/AvailabilityService.Api/Controllers/TimeBlockController.cs:616-632 | A string parses to a type exactly when it equals that type's name ignoring case. |
| TimeBlockControllers.AcceptedRequestStorable | src/AvailabilityService.Api/Controllers/TimeBlockController.cs:161-202 | A request that passes the checks can be stored. In particular, the unknown-frequency throw of the converter is unreachable from create. |
| TimeBlockControllers.GroupBlocksShape | src/AvailabilityService.Api/Controllers/TimeBlockController.cs:191-220 | Every row of a recurring create carries the group id, and no row takes it as its id. The rows share tenant, type, reason and duration, and have distinct fresh ids. |
| TimeBlockControllers.CreatedBlocksShape | src/AvailabilityService.Api/Controllers/TimeBlockController.cs:191-220 | The first created row is the requested block. Every row belongs to the tenant, with the requested type, reason and duration. A recurrence id exists exactly when a pattern is given, and then the master and every generated block carry it. |
| TimeBlockControllers.StoreGroup | src/AvailabilityService.Api/Controllers/TimeBlockController.cs:193-220 | Stores the master block carrying the group id, then the generated blocks (monthly days clamped). totalCreated is their number. |
| TimeBlockControllers.StoreTimeBlock | src/AvailabilityService.Api/Controllers/TimeBlockController.cs:179-220 | The table gains exactly the created rows, and totalCreated = 1 + the number generated (monthly days clamped). An unparsable type is refused with nothing stored. |
| TimeBlockControllers.CreateTimeBlock | src/AvailabilityService.Api/Controllers/TimeBlockController.cs:153-237 | Start ≥ end, a start date before today and an end date before today are refused in that order, as is an invalid pattern. A refused request leaves the table as it was. Otherwise the table gains the created rows, with monthly days clamped. |
| TimeBlockControllers.PatchTimesErrorAsWritten | src/AvailabilityService.Api/Controllers/TimeBlockController.cs:272-299 | As written: both times must be in order. A lone start or end time always fails, because comparing a TimeOnly with a TimeSpan throws (see Findings). |
| TimeBlockControllers.PatchTimesError | src/AvailabilityService.Api/Controllers/TimeBlockController.cs:272-299 | As intended: both times must be in order, a lone end must be after the stored start's time of day, and a lone start before the stored end's. |
| TimeBlockControllers.PatchedBlockMeaning | src/AvailabilityService.Api/Controllers/TimeBlockController.cs:310-338 | A patched block keeps its id, tenant, group and dates. Its times of day are the requested ones where given, and its type and reason are replaced where given. |
| TimeBlockControllers.PatchedBlockIdempotent | src/AvailabilityService.Api/Controllers/TimeBlockController.cs:310-340 | Patching a block twice with the same request is patching it once. |
| TimeBlockControllers.PatchKeepsOrder | src/AvailabilityService.Api/Controllers/TimeBlockController.cs:272-320 | Under the intended checks, a same-day block that passes stays in order: start before end. |
| TimeBlockControllers.LoneEndTimeRejectedAsWritten | src/AvailabilityService.Api/Controllers/TimeBlockController.cs:280-288 | A valid lone end time is refused as written, and accepted by the intended check (see Findings). |
| TimeBlockControllers.PatchedRows | src/AvailabilityService.Api/Controllers/TimeBlockController.cs:322-350 | Patching keeps the row count and every id. |
| TimeBlockControllers.PatchedRowsMeaning | src/AvailabilityService.Api/Controllers/TimeBlockController.cs:322-350 | A patch patches each target against its own dates and leaves every other row as it was. The targets are the group under editPattern, otherwise the block alone. It keeps the table invariant and every id, tenant and group. Applying it again changes nothing more. |
| TimeBlockControllers.PatchGroupStep | src/AvailabilityService.Api/Controllers/TimeBlockController.cs:326-341 | One pass of the group loop patches that member's row and leaves the others as they were. |
| TimeBlockControllers.PatchGroupDone | src/AvailabilityService.Api/Controllers/TimeBlockController.cs:326-341 | After the whole group has been visited, the table is the patched table. |
| TimeBlockControllers.PatchMember | src/AvailabilityService.Api/Controllers/TimeBlockController.cs:328-340 | Updates the k-th group member against its own dates. |
| TimeBlockControllers.PatchGroup | src/AvailabilityService.Api/Controllers/TimeBlockController.cs:322-342 | The loop over the group's blocks yields the patched table. |
| TimeBlockControllers.PatchTimeBlock | src/AvailabilityService.Api/Controllers/TimeBlockController.cs:252-372 | Refuses an unknown id (not found), another tenant's block, failing time checks and an invalid type, in that order, with the table unchanged. Otherwise the targets are patched and the patched block is returned. |
| TimeBlockControllers.ApplyPatch | src/AvailabilityService.Api/Controllers/TimeBlockController.cs:310-356 | Once the checks pass, the write succeeds: the targets (the whole group when editing the pattern, else the one block) are patched, nothing else changes, and the re-read returns the patched block. |
| TimeBlockControllers.PatchSingle | src/AvailabilityService.Api/Controllers/TimeBlockController.cs:343-350 | Patching one block that is not edited as a pattern succeeds and replaces exactly that row with its patched version. |
| WorkingHoursControllers.CreateWorkingHours | src/AvailabilityService.Api/Controllers/WorkingHoursController.cs:106-160 | Within the model's independent tables, refused exactly when start ≥ end (checked first) or the tenant already has a row for the day. Otherwise the new row has MaxConcurrentBookings defaulting to 1, is appended, and is then the tenant's row for that day. |
| WorkingHoursControllers.EntryErrorsMeaning | src/AvailabilityService.Api/Controllers/WorkingHoursController.cs:186-194 | An entry adds no error exactly when it is accepted: a working entry has both times, and given times are in order. It adds at most one error per check. |
| WorkingHoursControllers.ScheduleErrorsMeaning | src/AvailabilityService.Api/Controllers/WorkingHoursController.cs:182-201 | All entries' errors are reported together. There are none exactly when every entry is accepted, and each error belongs to some entry. |
| WorkingHoursControllers.ValidateSchedule | src/AvailabilityService.Api/Controllers/WorkingHoursController.cs:182-195 | The validation loop computes the schedule's errors. |
| WorkingHoursControllers.ScheduleRowsKeys | src/AvailabilityService.Api/Controllers/WorkingHoursController.cs:205-230 | Row k is the tenant's row for created day k, with id firstId + k. |
| WorkingHoursControllers.ScheduleRowsFromEntries | src/AvailabilityService.Api/Controllers/WorkingHoursController.cs:208-230 | Every row carries the times and capacity (default 1) of a working entry that lists its day. |
| WorkingHoursControllers.ScheduleRowsCoverEntries | src/AvailabilityService.Api/Controllers/WorkingHoursController.cs:208-230 | Every day listed by a working entry gets a row with that entry's times. Work-free entries yield nothing. |
| WorkingHoursControllers.AcceptedScheduleRowsInOrder | src/AvailabilityService.Api/Controllers/WorkingHoursController.cs:186-230 | The rows of an accepted schedule all start before they end. |
| WorkingHoursControllers.CreatedDaysMeaning | src/AvailabilityService.Api/Controllers/WorkingHoursController.cs:206-227 | A day is created exactly when some working entry lists it. |
| WorkingHoursControllers.FreeDaysFrom | src/AvailabilityService.Api/Controllers/WorkingHoursController.cs:239-242 | Lists the weekdays from a start day to Saturday that got no row, in enum order. |
| WorkingHoursControllers.FreeDays | src/AvailabilityService.Api/Controllers/WorkingHoursController.cs:239-242 | A day is free exactly when it is in 0..6 and was not created. The list is strictly increasing. |
| WorkingHoursControllers.FreeDaysOfSchedule | src/AvailabilityService.Api/Controllers/WorkingHoursController.cs:232-242 | The free days are the weekdays no working entry lists. Together with the created days they cover the week. |
| WorkingHoursControllers.BatchKeepsIndex | src/AvailabilityService.Api/Controllers/WorkingHoursController.cs:203-232 | Inserting the new rows next to the other tenants' rows keeps the unique (tenant, day) index exactly when no day repeats. |
| WorkingHoursControllers.ExpandEntry | src/AvailabilityService.Api/Controllers/WorkingHoursController.cs:210-229 | The inner loop hands out one fresh id and one row per listed day. |
| WorkingHoursControllers.ExpandSchedule | src/AvailabilityService.Api/Controllers/WorkingHoursController.cs:205-230 | The outer loop computes the rows and the created days of every entry, in request order. |
| WorkingHoursControllers.CreateWeeklySchedule | src/AvailabilityService.Api/Controllers/WorkingHoursController.cs:174-244 | An invalid schedule is refused with all its errors and nothing changes. A valid one deletes all the tenant's rows, then inserts one row per listed day. The response gives the number of rows, the created days and FreeDays. A repeated day breaks the unique index after the delete. |
| WorkingHoursControllers.ReplaceSchedule | src/AvailabilityService.Api/Controllers/WorkingHoursController.cs:203-244 | For an accepted schedule: the tenant's rows are deleted, and the batch of one row per listed day is inserted unless a day repeats. A repeat leaves the tenant without rows and reports the store failure. |
| TenantSettingsServices.BufferError | src/AvailabilityService.Api/Services/TenantSettingsService.cs:28-38 | A negative value is refused first, then one above 480. |
| TenantSettingsServices.OptionalBufferError | src/AvailabilityService.Api/Services/TenantSettingsService.cs:28-38 | An absent value passes. A given one is checked. |
| TenantSettingsServices.ZoneError | src/AvailabilityService.Api/Services/TenantSettingsService.cs:109-119 | A null or empty zone is not looked up. Any other must be known to the host. |
| TenantSettingsServices.GetBufferSettings | src/AvailabilityService.Api/Services/TenantSettingsService.cs:17-21 | Not found for an unknown tenant. Otherwise the tenant's two buffers. |
| TenantSettingsServices.GetTenantSettings | src/AvailabilityService.Api/Services/TenantSettingsService.cs:78-99 | Not found for an unknown tenant. Otherwise the tenant's settings as stored. |
| TenantSettingsServices.BufferUpdateErrorMeaning | src/AvailabilityService.Api/Services/TenantSettingsService.cs:28-50 | A buffer update passes exactly when something is supplied and every supplied value is in 0..480. |
| TenantSettingsServices.WithBuffers | src/AvailabilityService.Api/Services/TenantSettingsService.cs:58-69 | Only the supplied buffers are written. |
| TenantSettingsServices.WithBuffersInRange | src/AvailabilityService.Api/Services/TenantSettingsService.cs:58-69 | An accepted update keeps in-range buffers in range. Repeating it changes nothing more. |
| TenantSettingsServices.UpdateBufferSettings | src/AvailabilityService.Api/Services/TenantSettingsService.cs:23-76 | The checks run before the lookup. On success only the supplied buffers and UpdatedAt change, and the resulting pair is returned. |
| TenantSettingsServices.CreateTenantSettings | src/AvailabilityService.Api/Services/TenantSettingsService.cs:101-153 | An existing tenant is refused, then an unknown zone. Otherwise the tenant is stored with zone "UTC" and buffers 0 as defaults. |
| TenantSettingsServices.CreatedSettingsDefaults | src/AvailabilityService.Api/Services/TenantSettingsService.cs:121-133 | A created tenant has the request's fields, the zone (or "UTC"), the given buffers or 0, and both stamps now. |
| TenantSettingsServices.SettingsUpdateErrorMeaning | src/AvailabilityService.Api/Services/TenantSettingsService.cs:163-182 | A full update passes exactly when both buffers are in 0..480 and the zone is usable. A negative buffer is reported before a too large one. |
| TenantSettingsServices.UpdatedSettingsOverwrites | src/AvailabilityService.Api/Services/TenantSettingsService.cs:184-190 | A full update overwrites every field, a null zone included. Only the id and CreatedAt survive. |
| TenantSettingsServices.UpdateTenantSettings | src/AvailabilityService.Api/Services/TenantSettingsService.cs:155-211 | An unknown tenant is not found, checked first. Then come the checks. On success every field is replaced. |
| TenantSettingsServices.PatchErrorMeaning | src/AvailabilityService.Api/Services/TenantSettingsService.cs:221-258 | A patch passes exactly when it names something, its buffers are in 0..480 and its zone is usable. An empty patch is refused first. |
| TenantSettingsServices.PatchedSettingsMeaning | src/AvailabilityService.Api/Services/TenantSettingsService.cs:260-273 | A patch changes exactly the fields it names, plus UpdatedAt. Patching twice is patching once. In-range buffers stay in range. |
| TenantSettingsServices.PatchTenantSettings | src/AvailabilityService.Api/Services/TenantSettingsService.cs:213-294 | An unknown tenant is not found, checked first. Then come the checks. On success only the named fields and UpdatedAt change. |
| TenantSettingsServices.ResetIsZeroUpdate | src/AvailabilityService.Api/Services/TenantSettingsService.cs:304-307 | A reset is the accepted buffer update that supplies 0 for both buffers, with UpdatedAt stamped at the same time as that update would stamp it. Resetting twice is resetting once. |
| TenantSettingsServices.ResetBufferSettings | src/AvailabilityService.Api/Services/TenantSettingsService.cs:296-310 | An unknown tenant is not found. Otherwise both buffers become 0 and UpdatedAt becomes the save time, which the DbContext stamps on every modified tenant. Nothing else changes. |

## Left out

- **Transport, authorisation and error mapping.** Provider and customer role checks, `GetTenantId`, response envelopes, HTTP status codes and logging are left out. The tenant id of the caller is a parameter.
- **Request-shape checks done by the framework.** These are the DataAnnotations ranges and lengths on request types, and the 31-day range check of the availability endpoint.
- **Time-block endpoints that are only reads or plain deletes.** These are `GetTimeBlocks`, `GetTimeBlockById`, `DeleteTimeBlock` and `DeleteTimeBlocksByDateRange` in the time-block controller. They are modelled only through the repository operations they call.
- **The other working-hours endpoints.** The GET, update, patch and delete endpoints of the working-hours controller are not part of this model. The repository operations behind them are.
- **Persistence mechanics.** The transactions of `SaveChangesAsync` are left out. Only tenants keep CreatedAt and UpdatedAt, and every write of a tenant sets UpdatedAt to the time parameter `now`, as the DbContext's stamping does. The stamps on working hours and time blocks are not modelled, and only bookings are stamped on events.
- **Time.** Sub-second ticks, `DateTime.Kind`, time zones and the year-9999 bound of `DateTime` are not modelled. Instants are whole seconds from year 1 with no upper bound.
- **Time-zone lookup.** `TimeZoneInfo.FindSystemTimeZoneById` is the predicate `knownZone`.
- **Case folding.** `ToLowerInvariant` and `OrdinalIgnoreCase` fold ASCII letters only.
- **Days of the week.** They are numbers (0 = Sunday), so the response's day names are numbers too.
- **Conflict decoration.** `ConflictInfo.OverlapMinutes` and `Description` (floating point and message text) are not modelled. A conflict keeps its kind and span.
- **Validation messages.** These are constructors of error datatypes, not strings.
- **Booking owner.** Bookings have a single owner field; the entity calls it `CustomerId` and the event handler `OwnerId`.
- RecurrenceServices.GenerateRecurringTimeBlocks: requires an interval of at least 1 and a base start in year 1 or later. The validator rejects smaller intervals before any expansion. With interval 0 and no cap, the source's daily loop would not end.
- RecurrenceServices.GeneratedAfterBase: states "after the base" only when the week-day selectors are numbers 0..6. A converted pattern always has such selectors, but the expander does not check them.
- **Foreign keys.** Rows of working hours, time blocks and bookings must reference a stored tenant and are deleted with it (ON DELETE CASCADE in the entity configurations). The model's tables are independent. Inserts for an unknown tenant succeed, and `DeleteTenant` removes only the tenant. The source instead raises a database error, which the booking event handler rethrows.
- WorkingHoursControllers.CreateWorkingHours: also succeeds for a tenant id that is not stored, because the foreign key to tenants is not modelled. The same holds for `CreateMultipleWorkingHours`, the time-block creates, `BookingRepository.Create` and `HandleBookingCreated`.
- TenantRepositories.TenantRepository.DeleteTenant: does not cascade to the tenant's working hours, time blocks and bookings.
- RecurrenceExpansion.MonthStarts: a selector whose computed day falls outside the month is clamped into the month. Only −31 passes the validator, and it yields the first day of a month shorter than 31 days. 0, −29 and −30 in February, and values below −31, are other such selectors. The source's `new DateTime` throws for all of them, ending the request (see "## Findings"). Where the source does not throw, `MonthlyOccurrence` is proved equal to the formula as written (`MonthlyOccurrenceAsWritten`).
- RecurrenceExpansion.MonthlyStarts: uses the clamped day of `MonthStarts`. Where the source throws, this stream has dates the source never produces.
- RecurrenceExpansion.ExpandStarts: the monthly branch uses the clamped day. For a selector whose day falls outside the month (only −31 passes the validator), the source's expansion throws instead of returning starts.
- RecurrenceServices.GenerateRecurringTimeBlocks: with a monthly selector whose day falls outside the month (only −31 passes the validator), the model stores clamped blocks. The source throws before saving any generated block.
- RecurrenceServices.UpdateRecurringTimeBlocks: with a −31 monthly selector and a short month, the source throws after the group's delete. The group is then gone and nothing is regenerated. The model regenerates clamped blocks.
- TimeBlockControllers.StoreGroup: with a −31 monthly selector and a short month, the source has already saved the master block when the expansion throws. Only the master stays stored and the request fails. The model stores the master and the clamped blocks.
- TimeBlockControllers.StoreTimeBlock: totalCreated and the stored rows include clamped monthly blocks where the source stores only the master and fails.
- TimeBlockControllers.CreateTimeBlock: a −31 monthly request succeeds with clamped blocks where the source stores the master and answers with an internal error. Also, the Guid of the group is drawn before the type is parsed. An unknown type then fails with the group id drawn but unused; this is unobservable in the table.
- TimeBlockControllers.PatchTimeBlock: the patch flow uses the intended time checks (`PatchTimesError`). The checks as written are modelled by `PatchTimesErrorAsWritten`.

## Findings

| source | as written | input that shows it | evidently intended | confidence | as-written member | corrected member |
|---|---|---|---|---|---|---|
| src/AvailabilityService.Api/Services/RecurrenceService.cs:191-201 with src/AvailabilityService.Api/Controllers/TimeBlockController.cs:539-546 | A selector d ≤ 0 names day (days in month + d + 1), and `new DateTime` throws when that is below 1. The validator accepts −31, which falls below 1 in every month shorter than 31 days. | Monthly pattern on DaysOfMonth [31, −31] with MaxOccurrences 3 and base 0001-01-31. The validator reports no error, January yields no follow-on date, and February computes day −2. | −31 names the first day of every month: the day is clamped into 1..days in month. | not executed | TimeBlockControllers.MinusThirtyOneAcceptedThenThrows | RecurrenceExpansion.MonthlyOccurrence |
| src/AvailabilityService.Api/Controllers/TimeBlockController.cs:280-298 | A lone end (or start) time is compared with the stored block's `TimeOfDay`, a `TimeSpan`, through `TimeOnly.CompareTo(object)`. This throws for any argument that is not a `TimeOnly`, so every lone-time patch fails as an internal error. | A 09:00–10:00 block on day 0 and a patch that only sets EndTime 11:00. | A lone end must come after the stored start's time of day, and a lone start before the stored end's. | not executed | TimeBlockControllers.LoneEndTimeRejectedAsWritten | TimeBlockControllers.PatchKeepsOrder |
