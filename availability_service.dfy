/** The availability service: the free ranges of a tenant over a span of days, and the
  * conflicts that make one requested slot unavailable. The repository reads are the
  * query functions of the repository modules applied to the tables' rows. */
module AvailabilityServices {
  import opened Wrappers
  import opened Calendar
  import opened Entities
  import opened Sequences
  import opened Intervals
  import TB = TimeBlockRepositories
  import WH = WorkingHoursRepositories
  import BR = BookingRepositories
  import TR = TenantRepositories

  /** GetAvailableRangesAsync throws KeyNotFoundException for an unknown tenant. */
  datatype AvailabilityError = TenantNotFound

  // ---- the base window of a day ----

  /** new DateTime(y, m, d, t.Hour, t.Minute, 0): the seconds of a time of day dropped. */
  function WholeMinutes(tod: TimeOfDay): (r: TimeOfDay)
    ensures r % SecondsPerMinute == 0 && r <= tod < r + SecondsPerMinute
  {
    tod - tod % SecondsPerMinute
  }

  /** The instant of a time of day, cut to whole minutes, on the day starting at `date`. */
  function AtMinute(date: int, tod: TimeOfDay): int
  {
    date + WholeMinutes(tod)
  }

  /** FirstOrDefault(wh => wh.Day == day). */
  function RowForDay(hours: seq<WorkingHours>, day: int): (r: Option<WorkingHours>)
    ensures r.None? <==> forall w :: w in hours ==> w.day != day
    ensures r.Some? ==> r.value in hours && r.value.day == day
    ensures r.Some? ==> exists i :: 0 <= i < |hours| && hours[i] == r.value && forall j :: 0 <= j < i ==> hours[j].day != day
  {
    match FindFirst(hours, OnDay(day))
    case None => None
    case Some(i) => Some(hours[i])
  }

  function OnDay(day: int): WorkingHours -> bool
  {
    (w: WorkingHours) => w.day == day
  }

  /** The base window of the day starting at `date`: the whole day from 00:00:00 to
    * 23:59:59 when the weekday has no row or its row starts where it ends, otherwise the
    * row's hours cut to whole minutes. */
  function WorkingWindow(date: int, row: Option<WorkingHours>): (r: Range)
    requires date % SecondsPerDay == 0
    ensures DateOf(r.start) == date && DateOf(r.end) == date
    ensures row.None? || row.value.startTime == row.value.endTime ==>
      TimeOf(r.start) == 0 && TimeOf(r.end) == SecondsPerDay - 1
    ensures row.Some? && row.value.startTime != row.value.endTime ==>
      TimeOf(r.start) == WholeMinutes(row.value.startTime) && TimeOf(r.end) == WholeMinutes(row.value.endTime)
  {
    SplitInstant(date, 0);
    SplitInstant(date, SecondsPerDay - 1);
    if row.None? || row.value.startTime == row.value.endTime then
      Range(date, date + (SecondsPerDay - 1))
    else
      SplitInstant(date, WholeMinutes(row.value.startTime));
      SplitInstant(date, WholeMinutes(row.value.endTime));
      Range(AtMinute(date, row.value.startTime), AtMinute(date, row.value.endTime))
  }

  // ---- the busy periods of a day ----

  /** The periods of the time blocks that start on the day `date`, in order. */
  function BlockPeriods(blocks: seq<TimeBlock>, date: int): (r: seq<Range>)
    ensures forall p :: p in r <==> exists b :: b in blocks && DateOf(b.start) == date && p == Range(b.start, b.end)
    decreases |blocks|
  {
    if blocks == [] then []
    else
      var init := blocks[..|blocks| - 1];
      var last := blocks[|blocks| - 1];
      assert blocks == init + [last];
      BlockPeriods(init, date) + (if DateOf(last.start) == date then [Range(last.start, last.end)] else [])
  }

  /** The periods of the pending or confirmed bookings that start on the day `date`. */
  function BookingPeriods(bookings: seq<Booking>, date: int): (r: seq<Range>)
    ensures forall p :: p in r <==>
      exists b :: b in bookings && BR.IsBusy(b.status) && DateOf(b.start) == date && p == Range(b.start, b.end)
    decreases |bookings|
  {
    if bookings == [] then []
    else
      var init := bookings[..|bookings| - 1];
      var last := bookings[|bookings| - 1];
      assert bookings == init + [last];
      BookingPeriods(init, date)
      + (if BR.IsBusy(last.status) && DateOf(last.start) == date then [Range(last.start, last.end)] else [])
  }

  /** A booking period widened by the tenant's buffers. */
  function Padded(p: Range, bufferBefore: int, bufferAfter: int): Range
  {
    Range(AddMinutes(p.start, -bufferBefore), AddMinutes(p.end, bufferAfter))
  }

  /** Every period widened by the buffers, in order. */
  function WithBuffers(periods: seq<Range>, bufferBefore: int, bufferAfter: int): (r: seq<Range>)
    ensures |r| == |periods|
    ensures forall p :: p in r <==> exists q :: q in periods && p == Padded(q, bufferBefore, bufferAfter)
    decreases |periods|
  {
    if periods == [] then []
    else
      var init := periods[..|periods| - 1];
      var last := periods[|periods| - 1];
      assert periods == init + [last];
      WithBuffers(init, bufferBefore, bufferAfter) + [Padded(last, bufferBefore, bufferAfter)]
  }

  /** The busy periods of a day: its time blocks, then its bookings widened by the buffers. */
  function BusyPeriods(blocks: seq<TimeBlock>, bookings: seq<Booking>, date: int, bufferBefore: int, bufferAfter: int): seq<Range>
  {
    BlockPeriods(blocks, date) + WithBuffers(BookingPeriods(bookings, date), bufferBefore, bufferAfter)
  }

  /** An instant is busy on a day exactly when a block starting that day covers it, or a
    * pending or confirmed booking starting that day covers it once widened by the
    * buffers. */
  lemma BusyPeriodsMeaning(blocks: seq<TimeBlock>, bookings: seq<Booking>, date: int, bufferBefore: int, bufferAfter: int, t: int)
    ensures (exists j :: 0 <= j < |BusyPeriods(blocks, bookings, date, bufferBefore, bufferAfter)|
               && Contains(BusyPeriods(blocks, bookings, date, bufferBefore, bufferAfter)[j], t))
      <==> ((exists b :: b in blocks && DateOf(b.start) == date && b.start <= t < b.end)
            || (exists b :: b in bookings && BR.IsBusy(b.status) && DateOf(b.start) == date
                  && AddMinutes(b.start, -bufferBefore) <= t < AddMinutes(b.end, bufferAfter)))
  {
    if exists j :: 0 <= j < |BusyPeriods(blocks, bookings, date, bufferBefore, bufferAfter)|
         && Contains(BusyPeriods(blocks, bookings, date, bufferBefore, bufferAfter)[j], t) {
      BusyPeriodHasSource(blocks, bookings, date, bufferBefore, bufferAfter, t);
    }
    if exists b :: b in blocks && DateOf(b.start) == date && b.start <= t < b.end {
      var b :| b in blocks && DateOf(b.start) == date && b.start <= t < b.end;
      BlockMakesBusy(blocks, bookings, date, bufferBefore, bufferAfter, b, t);
    }
    if exists b :: b in bookings && BR.IsBusy(b.status) && DateOf(b.start) == date
         && AddMinutes(b.start, -bufferBefore) <= t < AddMinutes(b.end, bufferAfter) {
      var b :| b in bookings && BR.IsBusy(b.status) && DateOf(b.start) == date
         && AddMinutes(b.start, -bufferBefore) <= t < AddMinutes(b.end, bufferAfter);
      BookingMakesBusy(blocks, bookings, date, bufferBefore, bufferAfter, b, t);
    }
  }

  /** A busy period holding `t` comes from a block or from a busy booking of the day. */
  lemma BusyPeriodHasSource(blocks: seq<TimeBlock>, bookings: seq<Booking>, date: int, bufferBefore: int, bufferAfter: int, t: int)
    requires exists j :: 0 <= j < |BusyPeriods(blocks, bookings, date, bufferBefore, bufferAfter)|
               && Contains(BusyPeriods(blocks, bookings, date, bufferBefore, bufferAfter)[j], t)
    ensures (exists b :: b in blocks && DateOf(b.start) == date && b.start <= t < b.end)
            || (exists b :: b in bookings && BR.IsBusy(b.status) && DateOf(b.start) == date
                  && AddMinutes(b.start, -bufferBefore) <= t < AddMinutes(b.end, bufferAfter))
  {
    var busy := BusyPeriods(blocks, bookings, date, bufferBefore, bufferAfter);
    var blockPart := BlockPeriods(blocks, date);
    var bookingPart := WithBuffers(BookingPeriods(bookings, date), bufferBefore, bufferAfter);
    var j :| 0 <= j < |busy| && Contains(busy[j], t);
    if j < |blockPart| {
      assert busy[j] in blockPart;
    } else {
      assert busy[j] in bookingPart;
      var q :| q in BookingPeriods(bookings, date) && busy[j] == Padded(q, bufferBefore, bufferAfter);
    }
  }

  /** A block of the day holding `t` makes `t` busy. */
  lemma BlockMakesBusy(blocks: seq<TimeBlock>, bookings: seq<Booking>, date: int, bufferBefore: int, bufferAfter: int,
                       b: TimeBlock, t: int)
    requires b in blocks && DateOf(b.start) == date && b.start <= t < b.end
    ensures exists j :: 0 <= j < |BusyPeriods(blocks, bookings, date, bufferBefore, bufferAfter)|
              && Contains(BusyPeriods(blocks, bookings, date, bufferBefore, bufferAfter)[j], t)
  {
    var busy := BusyPeriods(blocks, bookings, date, bufferBefore, bufferAfter);
    var blockPart := BlockPeriods(blocks, date);
    var p := Range(b.start, b.end);
    assert p in blockPart;
    var j :| 0 <= j < |blockPart| && blockPart[j] == p;
    assert busy[j] == p;
  }

  /** A busy booking of the day whose padded period holds `t` makes `t` busy. */
  lemma BookingMakesBusy(blocks: seq<TimeBlock>, bookings: seq<Booking>, date: int, bufferBefore: int, bufferAfter: int,
                         b: Booking, t: int)
    requires b in bookings && BR.IsBusy(b.status) && DateOf(b.start) == date
    requires AddMinutes(b.start, -bufferBefore) <= t < AddMinutes(b.end, bufferAfter)
    ensures exists j :: 0 <= j < |BusyPeriods(blocks, bookings, date, bufferBefore, bufferAfter)|
              && Contains(BusyPeriods(blocks, bookings, date, bufferBefore, bufferAfter)[j], t)
  {
    var busy := BusyPeriods(blocks, bookings, date, bufferBefore, bufferAfter);
    var blockPart := BlockPeriods(blocks, date);
    var bookingPart := WithBuffers(BookingPeriods(bookings, date), bufferBefore, bufferAfter);
    var p := Padded(Range(b.start, b.end), bufferBefore, bufferAfter);
    assert Range(b.start, b.end) in BookingPeriods(bookings, date);
    assert p in bookingPart;
    var j :| 0 <= j < |bookingPart| && bookingPart[j] == p;
    assert busy[|blockPart| + j] == p;
  }

  /** The loops that collect a day's busy periods. */
  method CollectBusyPeriods(blocks: seq<TimeBlock>, bookings: seq<Booking>, date: int, bufferBefore: int, bufferAfter: int)
      returns (busyPeriods: seq<Range>)
    ensures busyPeriods == BusyPeriods(blocks, bookings, date, bufferBefore, bufferAfter)
  {
    var timeBlockPeriods := [];
    var i := 0;
    while i < |blocks|
      invariant 0 <= i <= |blocks|
      invariant timeBlockPeriods == BlockPeriods(blocks[..i], date)
    {
      assert blocks[..i + 1][..i] == blocks[..i];
      if DateOf(blocks[i].start) == date {
        timeBlockPeriods := timeBlockPeriods + [Range(blocks[i].start, blocks[i].end)];
      }
      i := i + 1;
    }
    assert blocks[..i] == blocks;
    var bookingPeriods := [];
    i := 0;
    while i < |bookings|
      invariant 0 <= i <= |bookings|
      invariant bookingPeriods == BookingPeriods(bookings[..i], date)
    {
      assert bookings[..i + 1][..i] == bookings[..i];
      if (bookings[i].status == Confirmed || bookings[i].status == Pending) && DateOf(bookings[i].start) == date {
        bookingPeriods := bookingPeriods + [Range(bookings[i].start, bookings[i].end)];
      }
      i := i + 1;
    }
    assert bookings[..i] == bookings;
    var bookingPeriodsWithBuffers := [];
    i := 0;
    while i < |bookingPeriods|
      invariant 0 <= i <= |bookingPeriods|
      invariant bookingPeriodsWithBuffers == WithBuffers(bookingPeriods[..i], bufferBefore, bufferAfter)
    {
      assert bookingPeriods[..i + 1][..i] == bookingPeriods[..i];
      var period := bookingPeriods[i];
      bookingPeriodsWithBuffers := bookingPeriodsWithBuffers
        + [Range(AddMinutes(period.start, -bufferBefore), AddMinutes(period.end, bufferAfter))];
      i := i + 1;
    }
    assert bookingPeriods[..i] == bookingPeriods;
    busyPeriods := timeBlockPeriods + bookingPeriodsWithBuffers;
  }

  // ---- one day ----

  /** The free ranges of the day starting at `date`: the base window minus every busy
    * period, then merged. */
  function DayRanges(date: int, hours: seq<WorkingHours>, blocks: seq<TimeBlock>, bookings: seq<Booking>,
                     bufferBefore: int, bufferAfter: int): seq<Range>
    requires date % SecondsPerDay == 0
  {
    var window := WorkingWindow(date, RowForDay(hours, DayOfWeek(date)));
    MergeRanges(SubtractAll([window], BusyPeriods(blocks, bookings, date, bufferBefore, bufferAfter)))
  }

  /** A day's free ranges cover exactly the instants of its base window that no busy
    * period covers; when the window is not empty they are non-empty, lie inside the
    * window, are sorted by start and are separated by gaps. */
  lemma DayRangesMeaning(date: int, hours: seq<WorkingHours>, blocks: seq<TimeBlock>, bookings: seq<Booking>,
                         bufferBefore: int, bufferAfter: int)
    requires date % SecondsPerDay == 0
    ensures var window := WorkingWindow(date, RowForDay(hours, DayOfWeek(date)));
      var busy := BusyPeriods(blocks, bookings, date, bufferBefore, bufferAfter);
      forall t :: Covers(DayRanges(date, hours, blocks, bookings, bufferBefore, bufferAfter), t) <==>
        Contains(window, t) && forall j :: 0 <= j < |busy| ==> !Contains(busy[j], t)
    ensures var window := WorkingWindow(date, RowForDay(hours, DayOfWeek(date)));
      var m := DayRanges(date, hours, blocks, bookings, bufferBefore, bufferAfter);
      NonEmpty(window) ==>
        AllNonEmpty(m) && Separated(m) && SortedBy(m, Start) && forall r :: r in m ==> Within(r, window)
  {
    var window := WorkingWindow(date, RowForDay(hours, DayOfWeek(date)));
    var busy := BusyPeriods(blocks, bookings, date, bufferBefore, bufferAfter);
    var free := SubtractAll([window], busy);
    var m := MergeRanges(free);
    forall t
      ensures Covers(m, t) <==> Contains(window, t) && forall j :: 0 <= j < |busy| ==> !Contains(busy[j], t)
    {
      MergeRangesCovers(free, t);
      SubtractAllCovers([window], busy, t);
      CoversSingle(window, t);
    }
    if NonEmpty(window) {
      SubtractAllShape([window], busy);
      assert AllNonEmpty(free) by {
        forall i | 0 <= i < |free| ensures NonEmpty(free[i]) {
          assert free[i] in free;
        }
      }
      MergeRangesShape(free);
      forall r | r in m
        ensures Within(r, window)
      {
        CoveredRangeWithin(m, r, window);
      }
    }
  }

  /** A single range covers exactly its own instants. */
  lemma CoversSingle(r: Range, t: int)
    ensures Covers([r], t) <==> Contains(r, t)
  {
    if Contains(r, t) {
      assert [r][0] == r;
    }
  }

  /** A non-empty member of a list of ranges, every instant of which lies in a window,
    * lies inside that window. */
  lemma CoveredRangeWithin(m: seq<Range>, r: Range, window: Range)
    requires r in m && NonEmpty(r)
    requires forall t :: Covers(m, t) ==> Contains(window, t)
    ensures Within(r, window)
  {
    var i :| 0 <= i < |m| && m[i] == r;
    assert Contains(m[i], r.start) && Contains(m[i], r.end - 1);
    assert Covers(m, r.start) && Covers(m, r.end - 1);
  }

  /** The subtraction loop of one day: each busy period is taken out of the free ranges
    * in turn, then the rest is merged. */
  method AvailableOnDay(date: int, hours: seq<WorkingHours>, blocks: seq<TimeBlock>, bookings: seq<Booking>,
                        bufferBefore: int, bufferAfter: int) returns (mergedRanges: seq<Range>)
    requires date % SecondsPerDay == 0
    ensures mergedRanges == DayRanges(date, hours, blocks, bookings, bufferBefore, bufferAfter)
  {
    var window := WorkingWindow(date, RowForDay(hours, DayOfWeek(date)));
    var busyPeriods := CollectBusyPeriods(blocks, bookings, date, bufferBefore, bufferAfter);
    var availableRanges := [window];
    var k := 0;
    while k < |busyPeriods|
      invariant 0 <= k <= |busyPeriods|
      invariant SubtractAll(availableRanges, busyPeriods[k..]) == SubtractAll([window], busyPeriods)
    {
      assert busyPeriods[k..][0] == busyPeriods[k] && busyPeriods[k..][1..] == busyPeriods[k + 1..];
      availableRanges := SubtractBusyPeriod(availableRanges, busyPeriods[k]);
      k := k + 1;
    }
    assert busyPeriods[k..] == [];
    mergedRanges := MergeOverlapping(availableRanges);
  }

  // ---- the span of days ----

  /** The free ranges of every day from `date` through `lastDate`, day after day. */
  function RangesFrom(date: int, lastDate: int, hours: seq<WorkingHours>, blocks: seq<TimeBlock>, bookings: seq<Booking>,
                      bufferBefore: int, bufferAfter: int): seq<Range>
    requires date % SecondsPerDay == 0
    decreases lastDate - date
  {
    if date > lastDate then []
    else
      DayRanges(date, hours, blocks, bookings, bufferBefore, bufferAfter)
      + RangesFrom(AddDays(date, 1), lastDate, hours, blocks, bookings, bufferBefore, bufferAfter)
  }

  /** The response of GetAvailableRangesAsync for a known tenant: every day's free ranges,
    * sorted by start. */
  function AvailableRanges(tenant: Tenant, hours: seq<WorkingHours>, blocks: seq<TimeBlock>, bookings: seq<Booking>,
                           startDate: int, endDate: int): seq<Range>
  {
    SortBy(RangesFrom(DateOf(startDate), DateOf(endDate), hours, blocks, bookings,
                      tenant.bufferBeforeMinutes, tenant.bufferAfterMinutes), Start)
  }

  /** `t` is covered by the free ranges of the day starting at `day`. */
  predicate FreeOnDay(day: int, hours: seq<WorkingHours>, blocks: seq<TimeBlock>, bookings: seq<Booking>,
                      bufferBefore: int, bufferAfter: int, t: int)
  {
    day % SecondsPerDay == 0 && Covers(DayRanges(day, hours, blocks, bookings, bufferBefore, bufferAfter), t)
  }

  /** An instant is covered by the days from `date` through `lastDate` exactly when it is
    * free on one of those days. */
  lemma {:induction false} RangesFromCovers(date: int, lastDate: int, hours: seq<WorkingHours>, blocks: seq<TimeBlock>,
                                            bookings: seq<Booking>, bufferBefore: int, bufferAfter: int, t: int)
    requires date % SecondsPerDay == 0
    ensures Covers(RangesFrom(date, lastDate, hours, blocks, bookings, bufferBefore, bufferAfter), t) <==>
      exists day :: date <= day <= lastDate && FreeOnDay(day, hours, blocks, bookings, bufferBefore, bufferAfter, t)
    decreases lastDate - date
  {
    if date <= lastDate {
      var next := AddDays(date, 1);
      var today := DayRanges(date, hours, blocks, bookings, bufferBefore, bufferAfter);
      var later := RangesFrom(next, lastDate, hours, blocks, bookings, bufferBefore, bufferAfter);
      assert RangesFrom(date, lastDate, hours, blocks, bookings, bufferBefore, bufferAfter) == today + later;
      CoversAppend(today, later, t);
      RangesFromCovers(next, lastDate, hours, blocks, bookings, bufferBefore, bufferAfter, t);
      if Covers(today, t) {
        assert FreeOnDay(date, hours, blocks, bookings, bufferBefore, bufferAfter, t);
      }
      if exists day :: date <= day <= lastDate && FreeOnDay(day, hours, blocks, bookings, bufferBefore, bufferAfter, t) {
        var day :| date <= day <= lastDate && FreeOnDay(day, hours, blocks, bookings, bufferBefore, bufferAfter, t);
        if day != date {
          MidnightsApart(date, day);
          assert next <= day <= lastDate;
          assert Covers(later, t);
        } else {
          assert Covers(today, t);
        }
      }
    }
  }

  /** Two different midnights are at least a day apart. */
  lemma MidnightsApart(a: int, b: int)
    requires a % SecondsPerDay == 0 && b % SecondsPerDay == 0 && a < b
    ensures a + SecondsPerDay <= b
  {
  }

  /** The response covers exactly the instants that are free on one of the days from the
    * start date through the end date, and its ranges are sorted by start. */
  lemma AvailableRangesMeaning(tenant: Tenant, hours: seq<WorkingHours>, blocks: seq<TimeBlock>, bookings: seq<Booking>,
                               startDate: int, endDate: int, t: int)
    ensures SortedBy(AvailableRanges(tenant, hours, blocks, bookings, startDate, endDate), Start)
    ensures Covers(AvailableRanges(tenant, hours, blocks, bookings, startDate, endDate), t) <==>
      exists day :: DateOf(startDate) <= day <= DateOf(endDate)
        && FreeOnDay(day, hours, blocks, bookings, tenant.bufferBeforeMinutes, tenant.bufferAfterMinutes, t)
  {
    var all := RangesFrom(DateOf(startDate), DateOf(endDate), hours, blocks, bookings,
                          tenant.bufferBeforeMinutes, tenant.bufferAfterMinutes);
    assert Covers(AvailableRanges(tenant, hours, blocks, bookings, startDate, endDate), t) <==> Covers(all, t) by {
      CoversSame(SortBy(all, Start), all, t);
    }
    RangesFromCovers(DateOf(startDate), DateOf(endDate), hours, blocks, bookings,
                     tenant.bufferBeforeMinutes, tenant.bufferAfterMinutes, t);
  }

  /** The loop over the days of the span, each day's free ranges appended in turn. */
  method CollectRanges(firstDate: int, lastDate: int, hours: seq<WorkingHours>, blocks: seq<TimeBlock>,
                       bookings: seq<Booking>, bufferBefore: int, bufferAfter: int) returns (ranges: seq<Range>)
    requires firstDate % SecondsPerDay == 0
    ensures ranges == RangesFrom(firstDate, lastDate, hours, blocks, bookings, bufferBefore, bufferAfter)
  {
    ranges := [];
    var date := firstDate;
    EmptyPrefix(RangesFrom(firstDate, lastDate, hours, blocks, bookings, bufferBefore, bufferAfter));
    while date <= lastDate
      invariant date % SecondsPerDay == 0
      invariant ranges + RangesFrom(date, lastDate, hours, blocks, bookings, bufferBefore, bufferAfter)
             == RangesFrom(firstDate, lastDate, hours, blocks, bookings, bufferBefore, bufferAfter)
      decreases lastDate - date
    {
      var dayRanges := AvailableOnDay(date, hours, blocks, bookings, bufferBefore, bufferAfter);
      RangesFromStep(date, lastDate, hours, blocks, bookings, bufferBefore, bufferAfter, ranges, dayRanges);
      ranges := ranges + dayRanges;
      AddDaysShift(date, 1);
      date := AddDays(date, 1);
    }
  }

  /** Nothing collected yet: the whole span is still to come. */
  lemma EmptyPrefix<T>(s: seq<T>)
    ensures [] + s == s
  {
  }

  /** One day of the loop: appending a day's ranges moves the rest of the span on by a day. */
  lemma RangesFromStep(date: int, lastDate: int, hours: seq<WorkingHours>, blocks: seq<TimeBlock>,
                       bookings: seq<Booking>, bufferBefore: int, bufferAfter: int, done: seq<Range>, day: seq<Range>)
    requires date % SecondsPerDay == 0 && date <= lastDate
    requires day == DayRanges(date, hours, blocks, bookings, bufferBefore, bufferAfter)
    ensures done + RangesFrom(date, lastDate, hours, blocks, bookings, bufferBefore, bufferAfter)
         == (done + day) + RangesFrom(AddDays(date, 1), lastDate, hours, blocks, bookings, bufferBefore, bufferAfter)
  {
    var later := RangesFrom(AddDays(date, 1), lastDate, hours, blocks, bookings, bufferBefore, bufferAfter);
    assert RangesFrom(date, lastDate, hours, blocks, bookings, bufferBefore, bufferAfter) == day + later;
    AppendAssoc(done, day, later);
  }

  /** GetAvailableRangesAsync: not found for an unknown tenant; otherwise the tenant's
    * working hours, the time blocks overlapping the span and the busy bookings touching
    * it are read once, and the free ranges of each day are collected and sorted. */
  method GetAvailableRanges(tenants: map<Id, Tenant>, hoursRows: seq<WorkingHours>, blockRows: seq<TimeBlock>,
                            bookingRows: seq<Booking>, tenantId: Id, startDate: int, endDate: int)
      returns (r: Result<seq<Range>, AvailabilityError>)
    ensures r.Err? <==> tenantId !in tenants
    ensures r.Err? ==> r.error == TenantNotFound
    ensures r.Ok? ==> r.value == AvailableRanges(tenants[tenantId], WH.GetWorkingHoursByTenant(hoursRows, tenantId),
      TB.GetTimeBlocksByTenantAndDateRange(blockRows, tenantId, startDate, endDate),
      BR.GetBookingsByTenantAndDateRange(bookingRows, tenantId, startDate, endDate), startDate, endDate)
  {
    var found := TR.GetTenantById(tenants, tenantId);
    if found.None? {
      return Err(TenantNotFound);
    }
    var tenant := found.value;
    var workingHours := WH.GetWorkingHoursByTenant(hoursRows, tenantId);
    var timeBlocks := TB.GetTimeBlocksByTenantAndDateRange(blockRows, tenantId, startDate, endDate);
    var bookings := BR.GetBookingsByTenantAndDateRange(bookingRows, tenantId, startDate, endDate);
    var ranges := CollectRanges(DateOf(startDate), DateOf(endDate), workingHours, timeBlocks, bookings,
                                tenant.bufferBeforeMinutes, tenant.bufferAfterMinutes);
    return Ok(SortBy(ranges, Start));
  }

  // ---- conflicts of one requested slot ----

  /** ConflictType. The constructors carry a suffix because the entity datatypes already
    * own the names TimeBlock, WorkingHours and Booking. */
  datatype ConflictType = TimeBlockConflict | WorkingHoursConflict | BookingConflict | BufferTimeConflict

  /** ConflictInfo: what kind of conflict, and the span it covers. */
  datatype ConflictInfo = ConflictInfo(kind: ConflictType, overlapStart: int, overlapEnd: int)

  /** AvailabilityCheckResult. */
  datatype AvailabilityCheckResult = AvailabilityCheckResult(isAvailable: bool, conflicts: seq<ConflictInfo>)

  function Span(c: ConflictInfo): Range
  {
    Range(c.overlapStart, c.overlapEnd)
  }

  /** Some conflict of `cs` spans the instant `t`. */
  predicate Flags(cs: seq<ConflictInfo>, t: int)
  {
    exists c :: c in cs && Contains(Span(c), t)
  }

  /** The requested slot widened by the tenant's buffers. */
  function FullRange(startTime: int, endTime: int, bufferBefore: int, bufferAfter: int): Range
  {
    Range(AddMinutes(startTime, -bufferBefore), AddMinutes(endTime, bufferAfter))
  }

  /** The working window of a row on the day of `startTime`, cut to whole minutes. */
  function RowWindow(row: WorkingHours, startTime: int): Range
  {
    Range(AtMinute(DateOf(startTime), row.startTime), AtMinute(DateOf(startTime), row.endTime))
  }

  /** The conflicts one working-hours row raises: the time before its start, and the time
    * after its end, each when the request reaches there. */
  function RowConflicts(row: WorkingHours, startTime: int, endTime: int): (r: seq<ConflictInfo>)
    ensures forall c :: c in r ==> c.kind == WorkingHoursConflict && NonEmpty(Span(c))
  {
    var window := RowWindow(row, startTime);
    (if startTime < window.start then [ConflictInfo(WorkingHoursConflict, startTime, window.start)] else [])
    + (if endTime > window.end then [ConflictInfo(WorkingHoursConflict, window.end, endTime)] else [])
  }

  /** A row raises nothing exactly when the request lies inside its window; an instant of
    * the request is flagged exactly when it lies outside the window. */
  lemma RowConflictsMeaning(row: WorkingHours, startTime: int, endTime: int)
    ensures var window := RowWindow(row, startTime);
      RowConflicts(row, startTime, endTime) == [] <==> window.start <= startTime && endTime <= window.end
    ensures forall t :: startTime <= t < endTime ==>
      (Flags(RowConflicts(row, startTime, endTime), t) <==> !Contains(RowWindow(row, startTime), t))
  {
    var window := RowWindow(row, startTime);
    var r := RowConflicts(row, startTime, endTime);
    forall t | startTime <= t < endTime
      ensures Flags(r, t) <==> !Contains(window, t)
    {
      if t < window.start {
        assert ConflictInfo(WorkingHoursConflict, startTime, window.start) in r;
      } else if t >= window.end {
        assert ConflictInfo(WorkingHoursConflict, window.end, endTime) in r;
      }
    }
  }

  /** The working-hours conflicts of the rows of one day, row after row. */
  function DayRowsConflicts(rows: seq<WorkingHours>, startTime: int, endTime: int): (r: seq<ConflictInfo>)
    ensures forall c :: c in r ==> c.kind == WorkingHoursConflict && NonEmpty(Span(c))
  {
    if rows == [] then []
    else DayRowsConflicts(rows[..|rows| - 1], startTime, endTime) + RowConflicts(rows[|rows| - 1], startTime, endTime)
  }

  /** The rows of one day raise nothing exactly when each of them raises nothing; an
    * instant is flagged exactly when one of the rows flags it. */
  lemma {:induction false} DayRowsConflictsMeaning(rows: seq<WorkingHours>, startTime: int, endTime: int, t: int)
    ensures DayRowsConflicts(rows, startTime, endTime) == [] <==>
      forall w :: w in rows ==> RowConflicts(w, startTime, endTime) == []
    ensures Flags(DayRowsConflicts(rows, startTime, endTime), t) <==>
      exists w :: w in rows && Flags(RowConflicts(w, startTime, endTime), t)
  {
    if rows != [] {
      var init, last := rows[..|rows| - 1], rows[|rows| - 1];
      assert rows == init + [last];
      DayRowsConflictsMeaning(init, startTime, endTime, t);
      var a, b := DayRowsConflicts(init, startTime, endTime), RowConflicts(last, startTime, endTime);
      assert Flags(a + b, t) <==> Flags(a, t) || Flags(b, t) by {
        if Flags(a + b, t) {
          var c :| c in a + b && Contains(Span(c), t);
          assert c in a || c in b;
        }
        if Flags(a, t) {
          var c :| c in a && Contains(Span(c), t);
          assert c in a + b;
        }
        if Flags(b, t) {
          var c :| c in b && Contains(Span(c), t);
          assert c in a + b;
        }
      }
      if exists w :: w in rows && Flags(RowConflicts(w, startTime, endTime), t) {
        var w :| w in rows && Flags(RowConflicts(w, startTime, endTime), t);
        assert w in init || w == last;
      }
      if forall w :: w in rows ==> RowConflicts(w, startTime, endTime) == [] {
        assert last in rows;
      }
    }
  }

  /** The working-hours check of DetectAllConflictsAsync: the rows for the day of week of
    * `startTime`, each checked on its own. */
  function WorkingHoursConflicts(hours: seq<WorkingHours>, startTime: int, endTime: int): seq<ConflictInfo>
  {
    DayRowsConflicts(Filter(hours, OnDay(DayOfWeek(startTime))), startTime, endTime)
  }

  /** A time block's own period. */
  function BlockRange(b: TimeBlock): Range
  {
    Range(b.start, b.end)
  }

  /** The time-block check: the overlap of the widened request with each block, in order. */
  function BlockConflicts(blocks: seq<TimeBlock>, full: Range): (r: seq<ConflictInfo>)
    ensures |r| <= |blocks|
    ensures forall c :: c in r ==> c.kind == TimeBlockConflict && NonEmpty(Span(c)) && Within(Span(c), full)
  {
    if blocks == [] then []
    else
      var rest := BlockConflicts(blocks[..|blocks| - 1], full);
      match CalculateOverlap(full, BlockRange(blocks[|blocks| - 1]))
      case None => rest
      case Some(o) => rest + [ConflictInfo(TimeBlockConflict, o.start, o.end)]
  }

  /** A time-block conflict is exactly the overlap of the widened request with one of the
    * blocks. */
  lemma {:induction false} BlockConflictsMeaning(blocks: seq<TimeBlock>, full: Range)
    ensures forall c :: c in BlockConflicts(blocks, full) <==>
      c.kind == TimeBlockConflict && exists b :: b in blocks && CalculateOverlap(full, BlockRange(b)) == Some(Span(c))
  {
    if blocks != [] {
      var init, last := blocks[..|blocks| - 1], blocks[|blocks| - 1];
      assert blocks == init + [last];
      BlockConflictsMeaning(init, full);
      forall c: ConflictInfo | c.kind == TimeBlockConflict && exists b :: b in blocks && CalculateOverlap(full, BlockRange(b)) == Some(Span(c))
        ensures c in BlockConflicts(blocks, full)
      {
        var b :| b in blocks && CalculateOverlap(full, BlockRange(b)) == Some(Span(c));
        if b != last {
          assert b in init;
        }
      }
    }
  }

  /** A booking's period widened by the buffers. */
  function Reserved(b: Booking, bufferBefore: int, bufferAfter: int): Range
  {
    Padded(Range(b.start, b.end), bufferBefore, bufferAfter)
  }

  /** The booking `b` is not cancelled and its reserved period overlaps `full` in exactly
    * the span of `c`. */
  predicate BookingHit(b: Booking, full: Range, bufferBefore: int, bufferAfter: int, c: ConflictInfo)
  {
    b.status != Cancelled && CalculateOverlap(full, Reserved(b, bufferBefore, bufferAfter)) == Some(Span(c))
  }

  /** The booking check: bookings not cancelled, each with its reserved period widened by
    * the same buffers, overlapped with the widened request. */
  function BufferConflicts(bookings: seq<Booking>, full: Range, bufferBefore: int, bufferAfter: int): (r: seq<ConflictInfo>)
    ensures |r| <= |bookings|
    ensures forall c :: c in r ==> c.kind == BufferTimeConflict && NonEmpty(Span(c)) && Within(Span(c), full)
  {
    if bookings == [] then []
    else
      var rest := BufferConflicts(bookings[..|bookings| - 1], full, bufferBefore, bufferAfter);
      var b := bookings[|bookings| - 1];
      if b.status == Cancelled then rest
      else
        match CalculateOverlap(full, Reserved(b, bufferBefore, bufferAfter))
        case None => rest
        case Some(o) => rest + [ConflictInfo(BufferTimeConflict, o.start, o.end)]
  }

  /** A buffer conflict is exactly the overlap of the widened request with the reserved
    * period of one booking that is not cancelled. */
  lemma {:induction false} BufferConflictsMeaning(bookings: seq<Booking>, full: Range, bufferBefore: int, bufferAfter: int)
    ensures forall c :: c in BufferConflicts(bookings, full, bufferBefore, bufferAfter) <==>
      c.kind == BufferTimeConflict && exists b :: b in bookings && BookingHit(b, full, bufferBefore, bufferAfter, c)
  {
    if bookings != [] {
      var init, last := bookings[..|bookings| - 1], bookings[|bookings| - 1];
      assert bookings == init + [last];
      BufferConflictsMeaning(init, full, bufferBefore, bufferAfter);
      forall c: ConflictInfo | c.kind == BufferTimeConflict && exists b :: b in bookings && BookingHit(b, full, bufferBefore, bufferAfter, c)
        ensures c in BufferConflicts(bookings, full, bufferBefore, bufferAfter)
      {
        var b :| b in bookings && BookingHit(b, full, bufferBefore, bufferAfter, c);
        if b != last {
          assert b in init;
        }
      }
      forall c | c in BufferConflicts(bookings, full, bufferBefore, bufferAfter)
        ensures exists b :: b in bookings && BookingHit(b, full, bufferBefore, bufferAfter, c)
      {
        if c in BufferConflicts(init, full, bufferBefore, bufferAfter) {
          var b :| b in init && BookingHit(b, full, bufferBefore, bufferAfter, c);
          assert b in bookings;
        } else {
          assert BookingHit(last, full, bufferBefore, bufferAfter, c);
        }
      }
    }
  }

  /** The working-hours check over all the tenant's rows: with no row for the day the
    * tenant is open around the clock; otherwise an instant of the request is flagged
    * exactly when some row of that day leaves it outside its window. */
  lemma WorkingHoursConflictsMeaning(hours: seq<WorkingHours>, startTime: int, endTime: int)
    ensures (forall w :: w in hours ==> w.day != DayOfWeek(startTime)) ==>
      WorkingHoursConflicts(hours, startTime, endTime) == []
    ensures WorkingHoursConflicts(hours, startTime, endTime) == [] <==>
      forall w :: w in hours && w.day == DayOfWeek(startTime) ==> RowConflicts(w, startTime, endTime) == []
    ensures forall t :: startTime <= t < endTime ==>
      (Flags(WorkingHoursConflicts(hours, startTime, endTime), t) <==>
       exists w :: w in hours && w.day == DayOfWeek(startTime) && !Contains(RowWindow(w, startTime), t))
  {
    var rows := Filter(hours, OnDay(DayOfWeek(startTime)));
    DayRowsConflictsMeaning(rows, startTime, endTime, startTime);
    if forall w :: w in hours ==> w.day != DayOfWeek(startTime) {
      FilterNone(hours, OnDay(DayOfWeek(startTime)));
    }
    forall t | startTime <= t < endTime
      ensures Flags(WorkingHoursConflicts(hours, startTime, endTime), t) <==>
        exists w :: w in hours && w.day == DayOfWeek(startTime) && !Contains(RowWindow(w, startTime), t)
    {
      DayRowsConflictsMeaning(rows, startTime, endTime, t);
      forall w | w in rows
        ensures Flags(RowConflicts(w, startTime, endTime), t) <==> !Contains(RowWindow(w, startTime), t)
      {
        RowConflictsMeaning(w, startTime, endTime);
      }
    }
  }

  /** Every conflict DetectAllConflictsAsync reports for a tenant, in its order: working
    * hours, then time blocks, then bookings. */
  function TenantConflicts(hoursRows: seq<WorkingHours>, blockRows: seq<TimeBlock>, bookingRows: seq<Booking>,
                           tenantId: Id, startTime: int, endTime: int, bufferBefore: int, bufferAfter: int)
      : (r: seq<ConflictInfo>)
    ensures forall c :: c in r ==> c.kind != BookingConflict && NonEmpty(Span(c))
    ensures forall c :: c in r && c.kind != WorkingHoursConflict ==>
      Within(Span(c), FullRange(startTime, endTime, bufferBefore, bufferAfter))
  {
    var full := FullRange(startTime, endTime, bufferBefore, bufferAfter);
    WorkingHoursConflicts(WH.GetWorkingHoursByTenant(hoursRows, tenantId), startTime, endTime)
    + BlockConflicts(TB.GetTimeBlocksByTenantAndDateRange(blockRows, tenantId, full.start, full.end), full)
    + BufferConflicts(BR.GetBookingsByTenantAndDateRange(bookingRows, tenantId, full.start, full.end), full,
                      bufferBefore, bufferAfter)
  }

  /** Some working-hours row of the tenant for the day of the request does not hold the
    * whole request. */
  predicate OutsideWorkingHours(hoursRows: seq<WorkingHours>, tenantId: Id, startTime: int, endTime: int)
  {
    exists w :: w in hoursRows && w.tenantId == tenantId && w.day == DayOfWeek(startTime)
      && !(RowWindow(w, startTime).start <= startTime && endTime <= RowWindow(w, startTime).end)
  }

  /** Some time block of the tenant shares an instant with the widened request. */
  ghost predicate BlockedByTimeBlock(blockRows: seq<TimeBlock>, tenantId: Id, full: Range)
  {
    exists b, t :: b in blockRows && b.tenantId == tenantId && Contains(full, t) && Contains(BlockRange(b), t)
  }

  /** Some busy booking of the tenant that the inclusive range query returns has a
    * reserved period sharing an instant with the widened request. */
  ghost predicate BlockedByBooking(bookingRows: seq<Booking>, tenantId: Id, full: Range, bufferBefore: int, bufferAfter: int)
  {
    exists b, t :: b in bookingRows && b.tenantId == tenantId && BR.IsBusy(b.status)
      && b.start <= full.end && b.end >= full.start
      && Contains(full, t) && Contains(Reserved(b, bufferBefore, bufferAfter), t)
  }

  /** The working-hours part reports something exactly when a row of the day does not
    * hold the request. */
  lemma HoursConflictIff(hoursRows: seq<WorkingHours>, tenantId: Id, startTime: int, endTime: int)
    ensures WorkingHoursConflicts(WH.GetWorkingHoursByTenant(hoursRows, tenantId), startTime, endTime) != [] <==>
      OutsideWorkingHours(hoursRows, tenantId, startTime, endTime)
  {
    var hours := WH.GetWorkingHoursByTenant(hoursRows, tenantId);
    WorkingHoursConflictsMeaning(hours, startTime, endTime);
    forall w | w in hours
      ensures RowConflicts(w, startTime, endTime) == [] <==>
        RowWindow(w, startTime).start <= startTime && endTime <= RowWindow(w, startTime).end
    {
      RowConflictsMeaning(w, startTime, endTime);
    }
  }

  /** The time-block part reports something exactly when a block of the tenant shares an
    * instant with the widened request. */
  lemma BlockConflictIff(blockRows: seq<TimeBlock>, tenantId: Id, full: Range)
    ensures BlockConflicts(TB.GetTimeBlocksByTenantAndDateRange(blockRows, tenantId, full.start, full.end), full) != [] <==>
      BlockedByTimeBlock(blockRows, tenantId, full)
  {
    var q := TB.GetTimeBlocksByTenantAndDateRange(blockRows, tenantId, full.start, full.end);
    if BlockedByTimeBlock(blockRows, tenantId, full) {
      var b, t :| b in blockRows && b.tenantId == tenantId && Contains(full, t) && Contains(BlockRange(b), t);
      assert b in q;
      BlockInQueryRaises(q, full, b, t);
    }
    if BlockConflicts(q, full) != [] {
      BlockConflictHasBlock(blockRows, tenantId, full);
    }
  }

  /** A time-block conflict comes from a block of the tenant sharing an instant with the
    * widened request. */
  lemma BlockConflictHasBlock(blockRows: seq<TimeBlock>, tenantId: Id, full: Range)
    requires BlockConflicts(TB.GetTimeBlocksByTenantAndDateRange(blockRows, tenantId, full.start, full.end), full) != []
    ensures BlockedByTimeBlock(blockRows, tenantId, full)
  {
    var q := TB.GetTimeBlocksByTenantAndDateRange(blockRows, tenantId, full.start, full.end);
    var r := BlockConflicts(q, full);
    BlockConflictsMeaning(q, full);
    var c := r[0];
    assert c in r;
    var b :| b in q && CalculateOverlap(full, BlockRange(b)) == Some(Span(c));
    assert Contains(full, c.overlapStart) && Contains(BlockRange(b), c.overlapStart);
  }

  /** A block of the list sharing an instant with the widened request raises a conflict. */
  lemma BlockInQueryRaises(blocks: seq<TimeBlock>, full: Range, b: TimeBlock, t: int)
    requires b in blocks && Contains(full, t) && Contains(BlockRange(b), t)
    ensures BlockConflicts(blocks, full) != []
  {
    var o := CalculateOverlap(full, BlockRange(b));
    assert o.Some?;
    var c := ConflictInfo(TimeBlockConflict, o.value.start, o.value.end);
    assert CalculateOverlap(full, BlockRange(b)) == Some(Span(c));
    BlockConflictsMeaning(blocks, full);
    assert c in BlockConflicts(blocks, full);
  }

  /** The booking part reports something exactly when a booking the range query returns
    * has a reserved period sharing an instant with the widened request. */
  lemma BufferConflictIff(bookingRows: seq<Booking>, tenantId: Id, full: Range, bufferBefore: int, bufferAfter: int)
    ensures BufferConflicts(BR.GetBookingsByTenantAndDateRange(bookingRows, tenantId, full.start, full.end), full,
                            bufferBefore, bufferAfter) != [] <==>
      BlockedByBooking(bookingRows, tenantId, full, bufferBefore, bufferAfter)
  {
    var q := BR.GetBookingsByTenantAndDateRange(bookingRows, tenantId, full.start, full.end);
    var r := BufferConflicts(q, full, bufferBefore, bufferAfter);
    BufferConflictsMeaning(q, full, bufferBefore, bufferAfter);
    if r != [] {
      var c := r[0];
      assert c in r;
      var b :| b in q && BookingHit(b, full, bufferBefore, bufferAfter, c);
      assert Contains(full, c.overlapStart) && Contains(Reserved(b, bufferBefore, bufferAfter), c.overlapStart);
    }
    if BlockedByBooking(bookingRows, tenantId, full, bufferBefore, bufferAfter) {
      var b, t :| b in bookingRows && b.tenantId == tenantId && BR.IsBusy(b.status)
        && b.start <= full.end && b.end >= full.start
        && Contains(full, t) && Contains(Reserved(b, bufferBefore, bufferAfter), t);
      assert b in q;
      var o := CalculateOverlap(full, Reserved(b, bufferBefore, bufferAfter));
      assert o.Some?;
      assert BookingHit(b, full, bufferBefore, bufferAfter, ConflictInfo(BufferTimeConflict, o.value.start, o.value.end));
      assert ConflictInfo(BufferTimeConflict, o.value.start, o.value.end) in r;
    }
  }

  /** A request of a tenant has a conflict exactly when a working-hours row of its day does
    * not hold it, a time block shares an instant with it widened by the buffers, or the
    * reserved period of a busy booking returned by the range query does. */
  lemma TenantConflictsIff(hoursRows: seq<WorkingHours>, blockRows: seq<TimeBlock>, bookingRows: seq<Booking>,
                           tenantId: Id, startTime: int, endTime: int, bufferBefore: int, bufferAfter: int)
    ensures var full := FullRange(startTime, endTime, bufferBefore, bufferAfter);
      TenantConflicts(hoursRows, blockRows, bookingRows, tenantId, startTime, endTime, bufferBefore, bufferAfter) != [] <==>
        OutsideWorkingHours(hoursRows, tenantId, startTime, endTime)
        || BlockedByTimeBlock(blockRows, tenantId, full)
        || BlockedByBooking(bookingRows, tenantId, full, bufferBefore, bufferAfter)
  {
    var full := FullRange(startTime, endTime, bufferBefore, bufferAfter);
    HoursConflictIff(hoursRows, tenantId, startTime, endTime);
    BlockConflictIff(blockRows, tenantId, full);
    BufferConflictIff(bookingRows, tenantId, full, bufferBefore, bufferAfter);
  }

  /** A busy booking that starts after the widened request ends is left out by the range
    * query even when its own before-buffer reaches back into the request's after-buffer:
    * a booking at 00:25-00:50 with 10-minute buffers raises no conflict for a request at
    * 00:00-00:10, while the same booking moved to 00:20 does. */
  lemma BeforeBufferBeyondQuery()
    ensures var late := Booking(1, 0, 0, 1500, 3000, Confirmed, 0, 0);
      var full := FullRange(0, 600, 10, 10);
      Contains(full, 1000) && Contains(Reserved(late, 10, 10), 1000)
      && TenantConflicts([], [], [late], 0, 0, 600, 10, 10) == []
    ensures var near := Booking(1, 0, 0, 1200, 3000, Confirmed, 0, 0);
      TenantConflicts([], [], [near], 0, 0, 600, 10, 10) == [ConflictInfo(BufferTimeConflict, 600, 1200)]
  {
    var late := Booking(1, 0, 0, 1500, 3000, Confirmed, 0, 0);
    var near := Booking(1, 0, 0, 1200, 3000, Confirmed, 0, 0);
    var full := FullRange(0, 600, 10, 10);
    assert WH.GetWorkingHoursByTenant([], 0) == [];
    assert TB.GetTimeBlocksByTenantAndDateRange([], 0, full.start, full.end) == [];
    var q := BR.GetBookingsByTenantAndDateRange([late], 0, full.start, full.end);
    assert late !in q;
  }

  // ---- the collecting loops ----

  /** The working-hours loop over the rows of one day. */
  method CollectWorkingHoursConflicts(dayRows: seq<WorkingHours>, startTime: int, endTime: int)
      returns (conflicts: seq<ConflictInfo>)
    ensures conflicts == DayRowsConflicts(dayRows, startTime, endTime)
  {
    conflicts := [];
    var i := 0;
    while i < |dayRows|
      invariant 0 <= i <= |dayRows|
      invariant conflicts == DayRowsConflicts(dayRows[..i], startTime, endTime)
    {
      assert dayRows[..i + 1][..i] == dayRows[..i];
      var found := CheckRow(dayRows[i], startTime, endTime);
      conflicts := conflicts + found;
      i := i + 1;
    }
    assert dayRows[..i] == dayRows;
  }

  /** The body of the working-hours loop: the row's start and end on the request's date,
    * and a conflict before the start and one after the end when the request reaches there. */
  method CheckRow(row: WorkingHours, startTime: int, endTime: int) returns (found: seq<ConflictInfo>)
    ensures found == RowConflicts(row, startTime, endTime)
  {
    var dayWorkingStart := AtMinute(DateOf(startTime), row.startTime);
    var dayWorkingEnd := AtMinute(DateOf(startTime), row.endTime);
    found := [];
    if startTime < dayWorkingStart {
      found := found + [ConflictInfo(WorkingHoursConflict, startTime, dayWorkingStart)];
    }
    if endTime > dayWorkingEnd {
      found := found + [ConflictInfo(WorkingHoursConflict, dayWorkingEnd, endTime)];
    }
  }

  /** The time-block loop. */
  method CollectBlockConflicts(blocks: seq<TimeBlock>, full: Range) returns (conflicts: seq<ConflictInfo>)
    ensures conflicts == BlockConflicts(blocks, full)
  {
    conflicts := [];
    var i := 0;
    while i < |blocks|
      invariant 0 <= i <= |blocks|
      invariant conflicts == BlockConflicts(blocks[..i], full)
    {
      assert blocks[..i + 1][..i] == blocks[..i];
      var overlap := CalculateOverlap(full, BlockRange(blocks[i]));
      if overlap.Some? {
        conflicts := conflicts + [ConflictInfo(TimeBlockConflict, overlap.value.start, overlap.value.end)];
      }
      i := i + 1;
    }
    assert blocks[..i] == blocks;
  }

  /** The booking loop, skipping cancelled bookings. */
  method CollectBufferConflicts(bookings: seq<Booking>, full: Range, bufferBefore: int, bufferAfter: int)
      returns (conflicts: seq<ConflictInfo>)
    ensures conflicts == BufferConflicts(bookings, full, bufferBefore, bufferAfter)
  {
    conflicts := [];
    var i := 0;
    while i < |bookings|
      invariant 0 <= i <= |bookings|
      invariant conflicts == BufferConflicts(bookings[..i], full, bufferBefore, bufferAfter)
    {
      assert bookings[..i + 1][..i] == bookings[..i];
      if bookings[i].status != Cancelled {
        var overlap := CalculateOverlap(full, Reserved(bookings[i], bufferBefore, bufferAfter));
        if overlap.Some? {
          conflicts := conflicts + [ConflictInfo(BufferTimeConflict, overlap.value.start, overlap.value.end)];
        }
      }
      i := i + 1;
    }
    assert bookings[..i] == bookings;
  }

  /** DetectAllConflictsAsync: the tenant's working hours of the request's day, the time
    * blocks and busy bookings the range queries return for the widened request. */
  method DetectAllConflicts(hoursRows: seq<WorkingHours>, blockRows: seq<TimeBlock>, bookingRows: seq<Booking>,
                            tenantId: Id, startTime: int, endTime: int, bufferBefore: int, bufferAfter: int)
      returns (conflicts: seq<ConflictInfo>)
    ensures conflicts == TenantConflicts(hoursRows, blockRows, bookingRows, tenantId, startTime, endTime,
                                         bufferBefore, bufferAfter)
  {
    var full := FullRange(startTime, endTime, bufferBefore, bufferAfter);
    var workingHours := WH.GetWorkingHoursByTenant(hoursRows, tenantId);
    var workingHoursForDays := Filter(workingHours, OnDay(DayOfWeek(startTime)));
    var hourConflicts := CollectWorkingHoursConflicts(workingHoursForDays, startTime, endTime);
    var timeBlocks := TB.GetTimeBlocksByTenantAndDateRange(blockRows, tenantId, full.start, full.end);
    var blockConflicts := CollectBlockConflicts(timeBlocks, full);
    var bookings := BR.GetBookingsByTenantAndDateRange(bookingRows, tenantId, full.start, full.end);
    var bufferConflicts := CollectBufferConflicts(bookings, full, bufferBefore, bufferAfter);
    conflicts := hourConflicts + blockConflicts + bufferConflicts;
  }

  /** IsTimeSlotAvailableAsync: an unknown tenant is reported as one working-hours conflict
    * over the whole request; otherwise the slot is available exactly when no conflict is
    * detected with the tenant's buffers. */
  method IsTimeSlotAvailable(tenants: map<Id, Tenant>, hoursRows: seq<WorkingHours>, blockRows: seq<TimeBlock>,
                             bookingRows: seq<Booking>, tenantId: Id, startTime: int, endTime: int)
      returns (result: AvailabilityCheckResult)
    ensures tenantId !in tenants ==>
      result == AvailabilityCheckResult(false, [ConflictInfo(WorkingHoursConflict, startTime, endTime)])
    ensures tenantId in tenants ==>
      result.conflicts == TenantConflicts(hoursRows, blockRows, bookingRows, tenantId, startTime, endTime,
                                          tenants[tenantId].bufferBeforeMinutes, tenants[tenantId].bufferAfterMinutes)
    ensures result.isAvailable <==> tenantId in tenants && result.conflicts == []
  {
    var found := TR.GetTenantById(tenants, tenantId);
    if found.None? {
      return AvailabilityCheckResult(false, [ConflictInfo(WorkingHoursConflict, startTime, endTime)]);
    }
    var tenant := found.value;
    var conflicts := DetectAllConflicts(hoursRows, blockRows, bookingRows, tenantId, startTime, endTime,
                                        tenant.bufferBeforeMinutes, tenant.bufferAfterMinutes);
    return AvailabilityCheckResult(|conflicts| == 0, conflicts);
  }
}
