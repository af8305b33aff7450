/** The date arithmetic of the recurrence expander: from a base occurrence and a pattern,
  * the start instants of the follow-on occurrences. Each branch is a loop over a counter
  * and a cursor, proved against a recursive stream of the instants it visits; a cap
  * then keeps a prefix of that stream. */
module RecurrenceExpansion {
  import opened Wrappers
  import opened Calendar
  import opened Sequences
  import opened RecurrencePatterns

  /** The horizon used when a pattern has no end date: 365 * 2 days, not two calendar years. */
  const DefaultWindowDays: int := 365 * 2

  /** GetEffectiveEndDate. */
  function EffectiveEndDate(pattern: RecurrencePattern, startDate: int): (r: int)
    ensures pattern.endDate.Some? ==> r == pattern.endDate.value
    ensures pattern.endDate.None? ==> r == startDate + 730 * SecondsPerDay
  {
    if pattern.endDate.Some? then pattern.endDate.value
    else AddDays(startDate, DefaultWindowDays)
  }

  /** The default end is two years of days on: the same time of day, two weekdays on. */
  lemma DefaultEndShift(pattern: RecurrencePattern, startDate: int)
    requires pattern.endDate.None?
    ensures TimeOf(EffectiveEndDate(pattern, startDate)) == TimeOf(startDate)
    ensures DayOfWeek(EffectiveEndDate(pattern, startDate)) == (DayOfWeek(startDate) + 2) % 7
  {
    AddDaysShift(startDate, DefaultWindowDays);
  }

  /** MaxOccurrences - 1: the base block counts as the first occurrence. */
  function AdjustedCap(pattern: RecurrencePattern): (cap: Option<int>)
    ensures cap.Some? <==> pattern.maxOccurrences.Some?
    ensures cap.Some? ==> cap.value == pattern.maxOccurrences.value - 1
  {
    if pattern.maxOccurrences.Some? then Some(pattern.maxOccurrences.value - 1) else None
  }

  /** The stopping test applied after each added occurrence. */
  predicate Reached(cap: Option<int>, total: int)
  {
    cap.Some? && total >= cap.value
  }

  /** The first `cap` elements, or everything without a cap. */
  function Capped<T>(s: seq<T>, cap: Option<int>): seq<T>
  {
    if cap.None? then s else Take(s, cap.value)
  }

  /** A loop that stops when its stream is exhausted or its cap is reached has produced
    * the capped stream. */
  lemma CapStop<T>(done: seq<T>, rest: seq<T>, cap: Option<int>)
    requires rest == [] || Reached(cap, |done|)
    requires cap.Some? ==> |done| <= Max(0, cap.value)
    ensures Capped(done + rest, cap) == done
  {
    if cap.Some? && cap.value > 0 {
      TakePrefix(done, rest, cap.value);
    }
  }

  /** The cap after n occurrences have been used up. */
  function Remaining(cap: Option<int>, n: int): (r: Option<int>)
    ensures forall total :: Reached(r, total) <==> Reached(cap, n + total)
  {
    if cap.None? then None else Some(cap.value - n)
  }

  /** A prefix shorter than the cap is kept whole, and the cap goes on counting in the
    * rest. */
  lemma CappedAppend<T>(a: seq<T>, b: seq<T>, cap: Option<int>)
    requires cap.Some? ==> |a| < cap.value
    ensures Capped(a + b, cap) == a + Capped(b, Remaining(cap, |a|))
  {
    if cap.Some? {
      var n := cap.value;
      if n - |a| < |b| {
        assert (a + b)[..n] == a + b[..n - |a|];
      }
    }
  }

  // ---------------------------------------------------------------------------------
  // Daily

  /** The daily stream: `current`, then every `interval` days, while not after `end`. */
  function DailyFrom(current: int, end: int, interval: int): seq<int>
    requires interval >= 1
    decreases end - current
  {
    if current > end then [] else [current] + DailyFrom(AddDays(current, interval), end, interval)
  }

  /** The k-th element of the daily stream is `current` plus k intervals, every element is
    * within the bound, and one more interval would pass it. */
  lemma {:induction false} DailyFromClosedForm(current: int, end: int, interval: int)
    requires interval >= 1
    ensures forall k :: 0 <= k < |DailyFrom(current, end, interval)| ==>
      DailyFrom(current, end, interval)[k] == current + k * interval * SecondsPerDay
    ensures forall x :: x in DailyFrom(current, end, interval) ==> current <= x <= end
    ensures current + |DailyFrom(current, end, interval)| * interval * SecondsPerDay > end
    decreases end - current
  {
    var s := DailyFrom(current, end, interval);
    if current <= end {
      var next := AddDays(current, interval);
      var t := DailyFrom(next, end, interval);
      DailyFromClosedForm(next, end, interval);
      assert s == [current] + t;
      forall k | 0 < k < |s|
        ensures s[k] == current + k * interval * SecondsPerDay
      {
        assert s[k] == t[k - 1];
        assert (k - 1) * interval * SecondsPerDay + interval * SecondsPerDay == k * interval * SecondsPerDay;
      }
      assert |t| * interval * SecondsPerDay + interval * SecondsPerDay == |s| * interval * SecondsPerDay;
    }
  }

  /** The daily branch: starts `interval` days after the base and steps by `interval`
    * days while within the bound and below the cap. */
  method DailyStarts(baseStart: int, end: int, interval: int, cap: Option<int>) returns (starts: seq<int>)
    requires interval >= 1
    ensures starts == Capped(DailyFrom(AddDays(baseStart, interval), end, interval), cap)
  {
    var total := 0;
    var currentStart := AddDays(baseStart, interval);
    starts := [];
    while currentStart <= end && !Reached(cap, total)
      invariant starts + DailyFrom(currentStart, end, interval) == DailyFrom(AddDays(baseStart, interval), end, interval)
      invariant total == |starts|
      invariant cap.Some? ==> total <= Max(0, cap.value)
      decreases end - currentStart
    {
      assert DailyFrom(currentStart, end, interval) == [currentStart] + DailyFrom(AddDays(currentStart, interval), end, interval);
      starts := starts + [currentStart];
      total := total + 1;
      currentStart := AddDays(currentStart, interval);
    }
    CapStop(starts, DailyFrom(currentStart, end, interval), cap);
  }

  // ---------------------------------------------------------------------------------
  // Weekly

  /** A selected day in the base week: the base date moved to that weekday, at the base
    * time of day; only days after the base weekday and within the bound are visited. */
  function BaseWeekTargets(days: seq<int>, baseStart: int, end: int): seq<int>
  {
    if days == [] then []
    else
      var target := AddDays(DateOf(baseStart), days[0] - DayOfWeek(baseStart)) + TimeOf(baseStart);
      (if days[0] > DayOfWeek(baseStart) && target <= end then [target] else [])
      + BaseWeekTargets(days[1..], baseStart, end)
  }

  /** A selected day in the week of `nextWeekStart`: the Sunday of that week plus `day`
    * days, at the time of day of `nextWeekStart`. */
  function WeekTarget(nextWeekStart: int, day: int): int
  {
    AddDays(AddDays(DateOf(nextWeekStart), -DayOfWeek(nextWeekStart)), day) + TimeOf(nextWeekStart)
  }

  /** The selected days of one later week that are within the bound. */
  function WeekTargets(days: seq<int>, nextWeekStart: int, end: int): seq<int>
  {
    if days == [] then []
    else
      var target := WeekTarget(nextWeekStart, days[0]);
      (if target <= end then [target] else []) + WeekTargets(days[1..], nextWeekStart, end)
  }

  /** The later weeks: `nextWeekStart`, then every 7 * interval days, while not after `end`. */
  function WeeksFrom(days: seq<int>, nextWeekStart: int, end: int, interval: int): seq<int>
    requires interval >= 1
    decreases end - nextWeekStart
  {
    if nextWeekStart > end then []
    else WeekTargets(days, nextWeekStart, end) + WeeksFrom(days, AddDays(nextWeekStart, 7 * interval), end, interval)
  }

  /** The first week after the base week: the next Sunday, at the base time of day. */
  function FirstWeekStart(baseStart: int): (r: int)
    ensures r == AddDays(baseStart, 7 - DayOfWeek(baseStart))
    ensures DayOfWeek(r) == 0 && TimeOf(r) == TimeOf(baseStart)
    ensures baseStart < r <= AddDays(baseStart, 7)
  {
    AddDaysShift(baseStart, 7 - DayOfWeek(baseStart));
    AddDays(DateOf(baseStart), 7 - DayOfWeek(baseStart)) + TimeOf(baseStart)
  }

  /** A cap of at least one: the base-week loop adds before it tests the cap. */
  function AtLeastOne(cap: Option<int>): Option<int>
  {
    if cap.None? then None else Some(Max(1, cap.value))
  }

  /** The weekly branch before sorting: the base week's later days, capped (at least one
    * of them is kept), then, unless the cap is reached, the later weeks under what is
    * left of the cap. */
  function WeeklyVisits(days: seq<int>, baseStart: int, end: int, interval: int, cap: Option<int>): seq<int>
    requires interval >= 1
  {
    var first := Capped(BaseWeekTargets(days, baseStart, end), AtLeastOne(cap));
    if Reached(cap, |first|) then first
    else first + Capped(WeeksFrom(days, FirstWeekStart(baseStart), end, interval), Remaining(cap, |first|))
  }

  /** One step of the base-week pass. */
  lemma BaseWeekStep(days: seq<int>, i: int, baseStart: int, end: int)
    requires 0 <= i < |days|
    ensures var target := AddDays(DateOf(baseStart), days[i] - DayOfWeek(baseStart)) + TimeOf(baseStart);
      BaseWeekTargets(days[i..], baseStart, end)
      == (if days[i] > DayOfWeek(baseStart) && target <= end then [target] else []) + BaseWeekTargets(days[i + 1..], baseStart, end)
  {
    assert days[i..][1..] == days[i + 1..];
  }

  /** One step of the pass over a later week. */
  lemma WeekStep(days: seq<int>, j: int, nextWeekStart: int, end: int)
    requires 0 <= j < |days|
    ensures WeekTargets(days[j..], nextWeekStart, end)
      == (if WeekTarget(nextWeekStart, days[j]) <= end then [WeekTarget(nextWeekStart, days[j])] else [])
         + WeekTargets(days[j + 1..], nextWeekStart, end)
  {
    assert days[j..][1..] == days[j + 1..];
  }

  /** The base-week pass of the weekly branch: the selected days after the base weekday,
    * stopping as soon as the cap is reached. */
  method BaseWeekStarts(days: seq<int>, baseStart: int, end: int, cap: Option<int>) returns (dates: seq<int>)
    ensures dates == Capped(BaseWeekTargets(days, baseStart, end), AtLeastOne(cap))
  {
    dates := [];
    var total := 0;
    var masterDayOfWeek := DayOfWeek(baseStart);
    ghost var rest := BaseWeekTargets(days, baseStart, end);
    var i := 0;
    while i < |days|
      invariant 0 <= i <= |days|
      invariant rest == BaseWeekTargets(days[i..], baseStart, end)
      invariant dates + rest == BaseWeekTargets(days, baseStart, end)
      invariant total == |dates|
      invariant total == 0 || !Reached(cap, total)
      invariant cap.Some? ==> total <= Max(1, cap.value)
    {
      BaseWeekStep(days, i, baseStart, end);
      ghost var step := rest;
      rest := BaseWeekTargets(days[i + 1..], baseStart, end);
      var targetDay := days[i];
      if targetDay > masterDayOfWeek {
        var targetDateTime := AddDays(DateOf(baseStart), targetDay - masterDayOfWeek) + TimeOf(baseStart);
        if targetDateTime <= end {
          assert step == [targetDateTime] + rest;
          AppendAssoc(dates, [targetDateTime], rest);
          dates := dates + [targetDateTime];
          total := total + 1;
          if Reached(cap, total) {
            break;
          }
        } else {
          assert step == [] + rest;
        }
      } else {
        assert step == [] + rest;
      }
      i := i + 1;
    }
    CapStop(dates, rest, AtLeastOne(cap));
  }

  /** Moving a prefix of the next piece over to the done side keeps the whole. */
  lemma PrefixRegroup<T>(done: seq<T>, taken: seq<T>, piece: seq<T>, later: seq<T>)
    requires taken <= piece
    ensures done + (piece + later) == (done + taken) + (piece[|taken|..] + later)
  {
    assert piece == taken + piece[|taken|..];
  }

  /** One later week: its selected days in turn, stopping as soon as `left` is reached. It
    * yields a prefix of the week's targets, all of them unless the cap stopped it. */
  method WeekPass(days: seq<int>, weekStart: int, end: int, left: Option<int>) returns (week: seq<int>)
    requires !Reached(left, 0)
    ensures week == Capped(WeekTargets(days, weekStart, end), left)
    ensures week <= WeekTargets(days, weekStart, end)
    ensures !Reached(left, |week|) ==> week == WeekTargets(days, weekStart, end)
    ensures left.Some? ==> |week| <= left.value
  {
    week := [];
    ghost var weekRest := WeekTargets(days, weekStart, end);
    var j := 0;
    while j < |days|
      invariant 0 <= j <= |days|
      invariant weekRest == WeekTargets(days[j..], weekStart, end)
      invariant week + weekRest == WeekTargets(days, weekStart, end)
      invariant !Reached(left, |week|)
    {
      WeekStep(days, j, weekStart, end);
      weekRest := WeekTargets(days[j + 1..], weekStart, end);
      var targetDateTime := WeekTarget(weekStart, days[j]);
      if targetDateTime <= end {
        AppendAssoc(week, [targetDateTime], weekRest);
        week := week + [targetDateTime];
        if Reached(left, |week|) {
          break;
        }
      }
      j := j + 1;
    }
    CapStop(week, weekRest, left);
  }

  /** The later-weeks pass of the weekly branch: week after week from `nextWeekStart`,
    * each selected day in turn, until the bound or the cap. `total` occurrences have
    * been produced before it starts. */
  method LaterWeekStarts(days: seq<int>, nextWeekStart: int, end: int, interval: int, cap: Option<int>, total: int)
    returns (dates: seq<int>)
    requires interval >= 1
    requires !Reached(cap, total)
    ensures dates == Capped(WeeksFrom(days, nextWeekStart, end, interval), Remaining(cap, total))
  {
    var remaining := Remaining(cap, total);
    dates := [];
    var count := 0;
    var weekStart := nextWeekStart;
    while weekStart <= end && !Reached(remaining, count)
      invariant dates + WeeksFrom(days, weekStart, end, interval) == WeeksFrom(days, nextWeekStart, end, interval)
      invariant count == |dates|
      invariant !Reached(remaining, count)
      invariant remaining.Some? ==> count <= remaining.value
      decreases end - weekStart
    {
      var afterWeek := AddDays(weekStart, 7 * interval);
      ghost var later := WeeksFrom(days, afterWeek, end, interval);
      ghost var targets := WeekTargets(days, weekStart, end);
      assert WeeksFrom(days, weekStart, end, interval) == targets + later;
      ghost var before := count;
      var week := WeekPass(days, weekStart, end, Remaining(remaining, count));
      ghost var done := dates;
      dates := dates + week;
      count := count + |week|;
      if Reached(remaining, count) {
        PrefixRegroup(done, week, targets, later);
        CapStop(dates, targets[|week|..] + later, remaining);
        break;
      }
      assert !Reached(Remaining(remaining, before), |week|);
      assert week == targets;
      AppendAssoc(done, week, later);
      weekStart := afterWeek;
    }
    if !Reached(remaining, count) {
      CapStop(dates, [], remaining);
    }
  }

  /** The weekly branch: the base-week pass, then, unless the cap is reached, the
    * later-weeks pass from the next Sunday. */
  method WeeklyStarts(days: seq<int>, baseStart: int, end: int, interval: int, cap: Option<int>)
    returns (dates: seq<int>)
    requires interval >= 1
    ensures dates == WeeklyVisits(days, baseStart, end, interval, cap)
  {
    dates := BaseWeekStarts(days, baseStart, end, cap);
    var totalOccurrences := |dates|;
    if !Reached(cap, totalOccurrences) {
      var nextWeekStart := AddDays(DateOf(baseStart), 7 - DayOfWeek(baseStart)) + TimeOf(baseStart);
      var later := LaterWeekStarts(days, nextWeekStart, end, interval, cap, totalOccurrences);
      dates := dates + later;
    }
  }

  // ---------------------------------------------------------------------------------
  // Monthly

  /** The day of the month a selector names in a month of `daysInMonth` days, as written:
    * a positive selector is clamped to the month's length, any other counts back from
    * the end (-1 is the last day). */
  function SelectedDay(day: int, daysInMonth: int): int
  {
    if day > 0 then Min(day, daysInMonth) else daysInMonth + day + 1
  }

  /** CalculateMonthlyOccurrence as written, with None where `new DateTime` throws because
    * the computed day is not in the month. */
  function MonthlyOccurrenceAsWritten(baseDate: int, day: int): (r: Option<int>)
    requires baseDate >= 0
    ensures r.Some? ==> r.value >= 0
    ensures var c := CivilOf(baseDate);
      r.None? <==> day == 0 || day < -DaysInMonth(c.year, c.month)
    ensures var c := CivilOf(baseDate);
      r.Some? ==> CivilOf(r.value) == Civil(c.year, c.month, SelectedDay(day, DaysInMonth(c.year, c.month)))
    ensures r.Some? ==> TimeOf(r.value) == TimeOf(baseDate)
  {
    var c := CivilOf(baseDate);
    var d := SelectedDay(day, DaysInMonth(c.year, c.month));
    if 1 <= d <= DaysInMonth(c.year, c.month) then Some(MakeInstant(Civil(c.year, c.month, d), TimeOf(baseDate)))
    else None
  }

  /** CalculateMonthlyOccurrence with the selected day clamped into the month, so that
    * a selector counting back past the first day names the first day. It agrees with the
    * code as written wherever that does not throw. */
  function MonthlyOccurrence(baseDate: int, day: int): (r: int)
    requires baseDate >= 0
    ensures r >= 0 && TimeOf(r) == TimeOf(baseDate)
    ensures CivilOf(r).year == CivilOf(baseDate).year && CivilOf(r).month == CivilOf(baseDate).month
    ensures var c := CivilOf(baseDate); var n := DaysInMonth(c.year, c.month);
      CivilOf(r).day == Max(1, Min(SelectedDay(day, n), n))
    ensures day > 0 ==> CivilOf(r).day == Min(day, DaysInMonth(CivilOf(r).year, CivilOf(r).month))
    ensures -1 == day ==> CivilOf(r).day == DaysInMonth(CivilOf(r).year, CivilOf(r).month)
    ensures MonthlyOccurrenceAsWritten(baseDate, day).Some? ==> r == MonthlyOccurrenceAsWritten(baseDate, day).value
  {
    var c := CivilOf(baseDate);
    var n := DaysInMonth(c.year, c.month);
    var r := MakeInstant(Civil(c.year, c.month, Max(1, Min(SelectedDay(day, n), n))), TimeOf(baseDate));
    assert MonthlyOccurrenceAsWritten(baseDate, day).Some? ==> r == MonthlyOccurrenceAsWritten(baseDate, day).value by {
      if MonthlyOccurrenceAsWritten(baseDate, day).Some? {
        var w := MonthlyOccurrenceAsWritten(baseDate, day).value;
        CivilDetermines(r, w);
        SameDateAndTime(r, w);
      }
    }
    r
  }

  /** Whether a computed occurrence is kept: inside [baseStart, end] and not the base
    * occurrence itself. The code compares the date and the time of day separately;
    * SkipBaseIsSameInstant shows that this is comparing the instants. */
  predicate Kept(dayStart: int, baseStart: int, end: int)
  {
    baseStart <= dayStart <= end && dayStart != baseStart
  }

  /** Two instants with the same date and the same time of day are one instant, and
    * conversely. */
  lemma SkipBaseIsSameInstant(dayStart: int, baseStart: int)
    ensures (DateOf(dayStart) == DateOf(baseStart) && TimeOf(dayStart) == TimeOf(baseStart)) <==> dayStart == baseStart
  {
    if DateOf(dayStart) == DateOf(baseStart) && TimeOf(dayStart) == TimeOf(baseStart) {
      SameDateAndTime(dayStart, baseStart);
    }
  }

  /** The selected days of the month of `current` that lie in [baseStart, end] and are
    * not the base occurrence itself. */
  function MonthTargets(days: seq<int>, current: int, baseStart: int, end: int): seq<int>
    requires current >= 0
  {
    if days == [] then []
    else
      var dayStart := MonthlyOccurrence(current, days[0]);
      (if Kept(dayStart, baseStart, end) then [dayStart] else []) + MonthTargets(days[1..], current, baseStart, end)
  }

  /** The monthly stream: the month of `current`, then every `interval` months (by
    * AddMonths from the previous cursor), while the cursor is not after `end`. */
  function MonthsFrom(days: seq<int>, current: int, baseStart: int, end: int, interval: int): seq<int>
    requires current >= 0 && interval >= 1
    decreases end - current
  {
    if current > end then []
    else
      AddMonthsIsLater(current, interval);
      MonthTargets(days, current, baseStart, end) + MonthsFrom(days, AddMonths(current, interval), baseStart, end, interval)
  }

  /** One step of the pass over the selectors in one month. */
  lemma MonthStep(days: seq<int>, j: int, current: int, baseStart: int, end: int)
    requires 0 <= j < |days| && current >= 0
    ensures Kept(MonthlyOccurrence(current, days[j]), baseStart, end) ==>
      MonthTargets(days[j..], current, baseStart, end)
      == [MonthlyOccurrence(current, days[j])] + MonthTargets(days[j + 1..], current, baseStart, end)
    ensures !Kept(MonthlyOccurrence(current, days[j]), baseStart, end) ==>
      MonthTargets(days[j..], current, baseStart, end) == MonthTargets(days[j + 1..], current, baseStart, end)
  {
    assert days[j..][1..] == days[j + 1..];
  }

  /** The pass over the selectors in the month of `currentStart`, stopping as soon as
    * the cap is reached; `total` occurrences have been produced before it starts. */
  method MonthStarts(days: seq<int>, currentStart: int, baseStart: int, end: int, cap: Option<int>, total: int)
    returns (dates: seq<int>)
    requires currentStart >= 0
    requires !Reached(cap, total)
    ensures dates == Capped(MonthTargets(days, currentStart, baseStart, end), Remaining(cap, total))
  {
    var remaining := Remaining(cap, total);
    dates := [];
    var count := 0;
    ghost var rest := MonthTargets(days, currentStart, baseStart, end);
    var j := 0;
    while j < |days|
      invariant 0 <= j <= |days|
      invariant rest == MonthTargets(days[j..], currentStart, baseStart, end)
      invariant dates + rest == MonthTargets(days, currentStart, baseStart, end)
      invariant count == |dates|
      invariant !Reached(remaining, count)
      invariant remaining.Some? ==> count <= remaining.value
    {
      MonthStep(days, j, currentStart, baseStart, end);
      rest := MonthTargets(days[j + 1..], currentStart, baseStart, end);
      var dayStart := MonthlyOccurrence(currentStart, days[j]);
      if dayStart >= baseStart && dayStart <= end {
        // the base occurrence itself is skipped
        if dayStart != baseStart {
          AppendAssoc(dates, [dayStart], rest);
          dates := dates + [dayStart];
          count := count + 1;
          if Reached(remaining, count) {
            break;
          }
        }
      }
      j := j + 1;
    }
    CapStop(dates, rest, remaining);
  }

  /** Capping a stream gives a prefix of it; a capped stream that does not reach the cap
    * is the whole stream. */
  lemma CappedPrefix<T>(s: seq<T>, cap: Option<int>)
    ensures s == Capped(s, cap) + s[|Capped(s, cap)|..]
    ensures !Reached(cap, |Capped(s, cap)|) ==> Capped(s, cap) == s
  {
    assert s == s[..|Capped(s, cap)|] + s[|Capped(s, cap)|..];
  }

  /** The monthly branch: month after month from the base, each selector in turn. */
  method MonthlyStarts(days: seq<int>, baseStart: int, end: int, interval: int, cap: Option<int>)
    returns (dates: seq<int>)
    requires baseStart >= 0 && interval >= 1
    ensures dates == Capped(MonthsFrom(days, baseStart, baseStart, end, interval), cap)
  {
    dates := [];
    var totalOccurrences := 0;
    var currentStart := baseStart;
    ghost var rest := MonthsFrom(days, baseStart, baseStart, end, interval);
    while currentStart <= end && !Reached(cap, totalOccurrences)
      invariant currentStart >= 0
      invariant dates + rest == MonthsFrom(days, baseStart, baseStart, end, interval)
      invariant rest == MonthsFrom(days, currentStart, baseStart, end, interval)
      invariant totalOccurrences == |dates|
      invariant cap.Some? ==> totalOccurrences <= Max(0, cap.value)
      decreases end - currentStart
    {
      ghost var month := MonthTargets(days, currentStart, baseStart, end);
      var added := MonthStarts(days, currentStart, baseStart, end, cap, totalOccurrences);
      CappedPrefix(month, Remaining(cap, totalOccurrences));
      AddMonthsIsLater(currentStart, interval);
      ghost var later := MonthsFrom(days, AddMonths(currentStart, interval), baseStart, end, interval);
      assert rest == month + later;
      AppendAssoc(added, month[|added|..], later);
      AppendAssoc(dates, added, month[|added|..] + later);
      dates := dates + added;
      totalOccurrences := totalOccurrences + |added|;
      rest := month[|added|..] + later;
      if Reached(cap, totalOccurrences) {
        break;
      }
      var nextStart := AddMonths(currentStart, interval);
      currentStart := nextStart;
    }
    CapStop(dates, rest, cap);
  }

  // ---------------------------------------------------------------------------------
  // The three branches together

  /** The starts of the follow-on occurrences, in creation order. The branch is chosen by
    * the selectors alone: days of the week first, then days of the month, else daily;
    * the weekly and monthly dates are sorted before use. */
  function OccurrenceStarts(pattern: RecurrencePattern, baseStart: int): seq<int>
    requires baseStart >= 0 && pattern.interval >= 1
  {
    var end := EffectiveEndDate(pattern, baseStart);
    var cap := AdjustedCap(pattern);
    if pattern.HasDaysOfWeek() then
      SortInts(WeeklyVisits(pattern.daysOfWeek.value, baseStart, end, pattern.interval, cap))
    else if pattern.HasDaysOfMonth() then
      SortInts(Capped(MonthsFrom(pattern.daysOfMonth.value, baseStart, baseStart, end, pattern.interval), cap))
    else
      Capped(DailyFrom(AddDays(baseStart, pattern.interval), end, pattern.interval), cap)
  }

  /** The date part of GenerateRecurringTimeBlocksAsync. */
  method ExpandStarts(pattern: RecurrencePattern, baseStart: int) returns (starts: seq<int>)
    requires baseStart >= 0 && pattern.interval >= 1
    ensures starts == OccurrenceStarts(pattern, baseStart)
  {
    var endDate := EffectiveEndDate(pattern, baseStart);
    var adjustedMaxOccurrences := AdjustedCap(pattern);
    if pattern.HasDaysOfWeek() {
      var allDates := WeeklyStarts(pattern.daysOfWeek.value, baseStart, endDate, pattern.interval, adjustedMaxOccurrences);
      starts := SortInts(allDates);
    } else if pattern.HasDaysOfMonth() {
      var allDates := MonthlyStarts(pattern.daysOfMonth.value, baseStart, endDate, pattern.interval, adjustedMaxOccurrences);
      starts := SortInts(allDates);
    } else {
      starts := DailyStarts(baseStart, endDate, pattern.interval, adjustedMaxOccurrences);
    }
  }

  /** Frequency is never consulted. */
  lemma FrequencyIgnored(pattern: RecurrencePattern, baseStart: int, frequency: RecurrenceFrequency)
    requires baseStart >= 0 && pattern.interval >= 1
    ensures OccurrenceStarts(pattern.(frequency := frequency), baseStart) == OccurrenceStarts(pattern, baseStart)
  {
    var other := pattern.(frequency := frequency);
    assert other.HasDaysOfWeek() == pattern.HasDaysOfWeek() && other.HasDaysOfMonth() == pattern.HasDaysOfMonth();
    assert EffectiveEndDate(other, baseStart) == EffectiveEndDate(pattern, baseStart);
    assert AdjustedCap(other) == AdjustedCap(pattern);
  }

  /** Daily: the k-th follow-on start is the base plus (k + 1) intervals, all are within the
    * bound, at most MaxOccurrences - 1 are produced, and generation stops early only at
    * the cap. */
  lemma DailyOccurrences(pattern: RecurrencePattern, baseStart: int)
    requires baseStart >= 0 && pattern.interval >= 1
    requires !pattern.HasDaysOfWeek() && !pattern.HasDaysOfMonth()
    ensures var r := OccurrenceStarts(pattern, baseStart);
      forall k :: 0 <= k < |r| ==>
        r[k] == baseStart + (k + 1) * pattern.interval * SecondsPerDay && r[k] <= EffectiveEndDate(pattern, baseStart)
    ensures var r := OccurrenceStarts(pattern, baseStart);
      pattern.maxOccurrences.Some? ==> |r| <= Max(0, pattern.maxOccurrences.value - 1)
    ensures var r := OccurrenceStarts(pattern, baseStart);
      Reached(AdjustedCap(pattern), |r|)
      || baseStart + (|r| + 1) * pattern.interval * SecondsPerDay > EffectiveEndDate(pattern, baseStart)
  {
    var end := EffectiveEndDate(pattern, baseStart);
    var first := AddDays(baseStart, pattern.interval);
    var s := DailyFrom(first, end, pattern.interval);
    DailyFromClosedForm(first, end, pattern.interval);
    var r := OccurrenceStarts(pattern, baseStart);
    assert r == Capped(s, AdjustedCap(pattern));
    forall k | 0 <= k < |r|
      ensures r[k] == baseStart + (k + 1) * pattern.interval * SecondsPerDay && r[k] <= end
    {
      assert r[k] == s[k] && s[k] in s;
      assert (k + 1) * pattern.interval * SecondsPerDay == pattern.interval * SecondsPerDay + k * pattern.interval * SecondsPerDay;
    }
    assert (|r| + 1) * pattern.interval * SecondsPerDay == pattern.interval * SecondsPerDay + |r| * pattern.interval * SecondsPerDay;
  }

  /** The base week contributes only selected days after the base weekday, each the base
    * moved to that weekday, after the base and within the bound. */
  lemma {:induction false} BaseWeekTargetsShape(days: seq<int>, baseStart: int, end: int)
    ensures forall x :: x in BaseWeekTargets(days, baseStart, end) ==>
      baseStart < x <= end && TimeOf(x) == TimeOf(baseStart)
      && exists d :: d in days && d > DayOfWeek(baseStart) && x == AddDays(baseStart, d - DayOfWeek(baseStart))
  {
    if days != [] {
      BaseWeekTargetsShape(days[1..], baseStart, end);
      AddDaysShift(baseStart, days[0] - DayOfWeek(baseStart));
      var target := AddDays(DateOf(baseStart), days[0] - DayOfWeek(baseStart)) + TimeOf(baseStart);
      assert target == AddDays(baseStart, days[0] - DayOfWeek(baseStart));
      assert days[0] in days;
      forall x | x in BaseWeekTargets(days[1..], baseStart, end)
        ensures exists d :: d in days && d > DayOfWeek(baseStart) && x == AddDays(baseStart, d - DayOfWeek(baseStart))
      {
        var d :| d in days[1..] && d > DayOfWeek(baseStart) && x == AddDays(baseStart, d - DayOfWeek(baseStart));
        assert d in days;
      }
    }
  }

  /** A later week contributes its Sunday plus each selected day, within the bound. */
  lemma {:induction false} WeekTargetsShape(days: seq<int>, nextWeekStart: int, end: int)
    requires DayOfWeek(nextWeekStart) == 0
    ensures forall x :: x in WeekTargets(days, nextWeekStart, end) ==>
      x <= end && TimeOf(x) == TimeOf(nextWeekStart)
      && exists d :: d in days && x == AddDays(nextWeekStart, d)
  {
    if days != [] {
      WeekTargetsShape(days[1..], nextWeekStart, end);
      AddDaysShift(nextWeekStart, days[0]);
      forall x | x in WeekTargets(days[1..], nextWeekStart, end)
        ensures exists d :: d in days && x == AddDays(nextWeekStart, d)
      {
        var d :| d in days[1..] && x == AddDays(nextWeekStart, d);
        assert d in days;
      }
    }
  }

  /** The selected day `day` of the week that starts w steps of 7 * interval days after
    * `weekStart`. */
  function LaterWeekDate(weekStart: int, interval: int, w: nat, day: int): int
  {
    AddDays(weekStart, 7 * interval * w + day)
  }

  /** The later weeks are `nextWeekStart` plus whole multiples of 7 * interval days plus a
    * selected day, all within the bound and at the same time of day. */
  lemma {:induction false} WeeksFromShape(days: seq<int>, nextWeekStart: int, end: int, interval: int)
    requires interval >= 1 && DayOfWeek(nextWeekStart) == 0
    ensures forall x :: x in WeeksFrom(days, nextWeekStart, end, interval) ==>
      x <= end && TimeOf(x) == TimeOf(nextWeekStart)
      && exists w: nat, d :: d in days && x == LaterWeekDate(nextWeekStart, interval, w, d)
    decreases end - nextWeekStart
  {
    if nextWeekStart <= end {
      var afterWeek := AddDays(nextWeekStart, 7 * interval);
      AddDaysShift(nextWeekStart, 7 * interval);
      WeekTargetsShape(days, nextWeekStart, end);
      WeeksFromShape(days, afterWeek, end, interval);
      forall x | x in WeeksFrom(days, nextWeekStart, end, interval)
        ensures exists w: nat, d :: d in days && x == LaterWeekDate(nextWeekStart, interval, w, d)
      {
        if x in WeekTargets(days, nextWeekStart, end) {
          var d :| d in days && x == AddDays(nextWeekStart, d);
          assert x == LaterWeekDate(nextWeekStart, interval, 0, d);
        } else {
          var w: nat, d :| d in days && x == LaterWeekDate(afterWeek, interval, w, d);
          assert 7 * interval * (w + 1) + d == 7 * interval + (7 * interval * w + d);
          assert x == LaterWeekDate(nextWeekStart, interval, w + 1, d);
        }
      }
    }
  }

  /** With selected days that are weekday numbers, a later week's dates do not come
    * before its Sunday. */
  lemma {:induction false} WeeksFromAfter(days: seq<int>, nextWeekStart: int, end: int, interval: int)
    requires interval >= 1
    requires forall d :: d in days ==> d >= 0
    requires DayOfWeek(nextWeekStart) == 0
    ensures forall x :: x in WeeksFrom(days, nextWeekStart, end, interval) ==> x >= nextWeekStart
    decreases end - nextWeekStart
  {
    if nextWeekStart <= end {
      var afterWeek := AddDays(nextWeekStart, 7 * interval);
      AddDaysShift(nextWeekStart, 7 * interval);
      WeekTargetsShape(days, nextWeekStart, end);
      WeeksFromAfter(days, afterWeek, end, interval);
    }
  }

  /** The weekly dates: every one is within the bound and at the base time of day, and is
    * either a later selected day of the base week or a selected day of the week that
    * starts on the next Sunday plus a whole multiple of 7 * interval days; with weekday
    * numbers as selected days, every one is after the base. */
  lemma WeeklyVisitsShape(days: seq<int>, baseStart: int, end: int, interval: int, cap: Option<int>)
    requires interval >= 1
    ensures forall x :: x in WeeklyVisits(days, baseStart, end, interval, cap) ==>
      x <= end && TimeOf(x) == TimeOf(baseStart)
      && ((exists d :: d in days && d > DayOfWeek(baseStart) && x == AddDays(baseStart, d - DayOfWeek(baseStart)))
          || (exists w: nat, d :: d in days && x == LaterWeekDate(FirstWeekStart(baseStart), interval, w, d)))
    ensures (forall d :: d in days ==> d >= 0) ==>
      forall x :: x in WeeklyVisits(days, baseStart, end, interval, cap) ==> x > baseStart
  {
    var next := FirstWeekStart(baseStart);
    var base := BaseWeekTargets(days, baseStart, end);
    var later := WeeksFrom(days, next, end, interval);
    BaseWeekTargetsShape(days, baseStart, end);
    WeeksFromShape(days, next, end, interval);
    if forall d :: d in days ==> d >= 0 {
      WeeksFromAfter(days, next, end, interval);
    }
    var first := Capped(base, AtLeastOne(cap));
    var rest := Capped(later, Remaining(cap, |first|));
    CappedWithin(base, AtLeastOne(cap));
    CappedWithin(later, Remaining(cap, |first|));
    var r := WeeklyVisits(days, baseStart, end, interval, cap);
    assert r == first || r == first + rest;
    forall x | x in r
      ensures x <= end && TimeOf(x) == TimeOf(baseStart)
      ensures (exists d :: d in days && d > DayOfWeek(baseStart) && x == AddDays(baseStart, d - DayOfWeek(baseStart)))
          || (exists w: nat, d :: d in days && x == LaterWeekDate(next, interval, w, d))
      ensures (forall d :: d in days ==> d >= 0) ==> x > baseStart
    {
      if x !in base {
        assert x in later;
      }
    }
  }

  /** The weekly cap: the base week adds before it tests, so a cap below one still lets
    * one base-week date through and nothing more; otherwise the weekly dates are the
    * first `cap` of the base week's and the later weeks' dates. */
  lemma WeeklyCap(days: seq<int>, baseStart: int, end: int, interval: int, cap: Option<int>)
    requires interval >= 1
    ensures cap.Some? && cap.value < 1 ==>
      WeeklyVisits(days, baseStart, end, interval, cap) == Take(BaseWeekTargets(days, baseStart, end), 1)
    ensures cap.None? || cap.value >= 1 ==>
      WeeklyVisits(days, baseStart, end, interval, cap)
      == Capped(BaseWeekTargets(days, baseStart, end) + WeeksFrom(days, FirstWeekStart(baseStart), end, interval), cap)
    ensures cap.Some? ==> |WeeklyVisits(days, baseStart, end, interval, cap)| <= Max(1, cap.value)
  {
    var p1 := BaseWeekTargets(days, baseStart, end);
    var p2 := WeeksFrom(days, FirstWeekStart(baseStart), end, interval);
    var first := Capped(p1, AtLeastOne(cap));
    if cap.Some? && cap.value >= 1 {
      if Reached(cap, |first|) {
        TakeAppendLong(p1, p2, cap.value);
      } else {
        CappedAppend(p1, p2, cap);
      }
    }
  }

  /** The monthly cursor after k steps of `interval` months. */
  function MonthCursor(t: int, interval: int, k: nat): (r: int)
    requires t >= 0 && interval >= 1
    ensures r >= 0 && TimeOf(r) == TimeOf(t)
    decreases k
  {
    if k == 0 then t else MonthCursor(AddMonths(t, interval), interval, k - 1)
  }

  /** Within one month, every kept date is some selector's day of that month, after the
    * base, within the bound and at the cursor's time of day. */
  lemma {:induction false} MonthTargetsShape(days: seq<int>, current: int, baseStart: int, end: int)
    requires current >= 0
    ensures forall x :: x in MonthTargets(days, current, baseStart, end) ==>
      baseStart < x <= end && TimeOf(x) == TimeOf(current)
      && exists d :: d in days && x == MonthlyOccurrence(current, d)
  {
    if days != [] {
      MonthTargetsShape(days[1..], current, baseStart, end);
      assert days[0] in days;
      forall x | x in MonthTargets(days[1..], current, baseStart, end)
        ensures exists d :: d in days && x == MonthlyOccurrence(current, d)
      {
        var d :| d in days[1..] && x == MonthlyOccurrence(current, d);
        assert d in days;
      }
    }
  }

  /** The monthly dates lie after the base and within the bound, at the cursor's time of
    * day. */
  lemma {:induction false} MonthsFromBounds(days: seq<int>, current: int, baseStart: int, end: int, interval: int)
    requires current >= 0 && interval >= 1
    ensures forall x :: x in MonthsFrom(days, current, baseStart, end, interval) ==>
      baseStart < x <= end && TimeOf(x) == TimeOf(current)
    decreases end - current
  {
    if current <= end {
      AddMonthsIsLater(current, interval);
      MonthTargetsShape(days, current, baseStart, end);
      MonthsFromBounds(days, AddMonths(current, interval), baseStart, end, interval);
    }
  }

  /** The date selector `day` picks in the month `k` steps of `interval` months after
    * `current`. */
  function LaterMonthDate(current: int, interval: int, k: nat, day: int): int
    requires current >= 0 && interval >= 1
  {
    MonthlyOccurrence(MonthCursor(current, interval, k), day)
  }

  /** Each monthly date is a selector's day in the month of the cursor after some number
    * of steps of `interval` months. */
  lemma {:induction false} MonthsFromCursor(days: seq<int>, current: int, baseStart: int, end: int, interval: int)
    requires current >= 0 && interval >= 1
    ensures forall x :: x in MonthsFrom(days, current, baseStart, end, interval) ==>
      exists k: nat, d :: d in days && x == LaterMonthDate(current, interval, k, d)
    decreases end - current
  {
    if current <= end {
      AddMonthsIsLater(current, interval);
      var next := AddMonths(current, interval);
      var here := MonthTargets(days, current, baseStart, end);
      var later := MonthsFrom(days, next, baseStart, end, interval);
      assert MonthsFrom(days, current, baseStart, end, interval) == here + later;
      MonthTargetsShape(days, current, baseStart, end);
      MonthsFromCursor(days, next, baseStart, end, interval);
      forall x | x in here + later
        ensures exists k: nat, d :: d in days && x == LaterMonthDate(current, interval, k, d)
      {
        if x in here {
          var d :| d in days && x == MonthlyOccurrence(current, d);
          assert x == LaterMonthDate(current, interval, 0, d);
        } else {
          var k: nat, d :| d in days && x == LaterMonthDate(next, interval, k, d);
          assert x == LaterMonthDate(current, interval, k + 1, d);
        }
      }
    }
  }

  /** Sorting keeps the elements and the number of them. */
  lemma SortIntsKeeps(s: seq<int>)
    ensures forall x :: x in SortInts(s) <==> x in s
    ensures |SortInts(s)| == |s|
  {
    var r := SortInts(s);
    assert forall x :: x in r <==> x in multiset(r);
    assert |r| == |multiset(r)| == |multiset(s)| == |s|;
  }

  /** The elements of a capped stream come from the stream, and there are at most `cap`
    * of them. */
  lemma CappedWithin<T>(s: seq<T>, cap: Option<int>)
    ensures forall x :: x in Capped(s, cap) ==> x in s
    ensures |Capped(s, cap)| <= |s|
    ensures cap.Some? ==> |Capped(s, cap)| <= Max(0, cap.value)
  {
    CappedPrefix(s, cap);
  }

  /** What the weekly branch promises about the sorted starts. */
  lemma WeeklyStartsShape(pattern: RecurrencePattern, baseStart: int)
    requires baseStart >= 0 && pattern.interval >= 1 && pattern.HasDaysOfWeek()
    ensures forall x :: x in OccurrenceStarts(pattern, baseStart) ==>
      x <= EffectiveEndDate(pattern, baseStart) && TimeOf(x) == TimeOf(baseStart)
    ensures (forall d :: d in pattern.daysOfWeek.value ==> d >= 0) ==>
      forall x :: x in OccurrenceStarts(pattern, baseStart) ==> x > baseStart
    ensures pattern.maxOccurrences.Some? ==>
      |OccurrenceStarts(pattern, baseStart)| <= Max(1, pattern.maxOccurrences.value - 1)
  {
    var end := EffectiveEndDate(pattern, baseStart);
    var cap := AdjustedCap(pattern);
    var v := WeeklyVisits(pattern.daysOfWeek.value, baseStart, end, pattern.interval, cap);
    assert OccurrenceStarts(pattern, baseStart) == SortInts(v);
    WeeklyVisitsShape(pattern.daysOfWeek.value, baseStart, end, pattern.interval, cap);
    WeeklyCap(pattern.daysOfWeek.value, baseStart, end, pattern.interval, cap);
    SortIntsKeeps(v);
  }

  /** What the monthly branch promises about the sorted starts. */
  lemma MonthlyStartsShape(pattern: RecurrencePattern, baseStart: int)
    requires baseStart >= 0 && pattern.interval >= 1 && !pattern.HasDaysOfWeek() && pattern.HasDaysOfMonth()
    ensures forall x :: x in OccurrenceStarts(pattern, baseStart) ==>
      baseStart < x <= EffectiveEndDate(pattern, baseStart) && TimeOf(x) == TimeOf(baseStart)
    ensures pattern.maxOccurrences.Some? ==>
      |OccurrenceStarts(pattern, baseStart)| <= Max(0, pattern.maxOccurrences.value - 1)
  {
    var end := EffectiveEndDate(pattern, baseStart);
    var cap := AdjustedCap(pattern);
    var s := MonthsFrom(pattern.daysOfMonth.value, baseStart, baseStart, end, pattern.interval);
    assert OccurrenceStarts(pattern, baseStart) == SortInts(Capped(s, cap));
    MonthsFromBounds(pattern.daysOfMonth.value, baseStart, baseStart, end, pattern.interval);
    CappedWithin(s, cap);
    SortIntsKeeps(Capped(s, cap));
  }

  /** What the daily branch promises about its starts, which need no sorting. */
  lemma DailyStartsShape(pattern: RecurrencePattern, baseStart: int)
    requires baseStart >= 0 && pattern.interval >= 1 && !pattern.HasDaysOfWeek() && !pattern.HasDaysOfMonth()
    ensures var r := OccurrenceStarts(pattern, baseStart);
      forall i, j :: 0 <= i < j < |r| ==> r[i] < r[j]
    ensures forall x :: x in OccurrenceStarts(pattern, baseStart) ==>
      baseStart < x <= EffectiveEndDate(pattern, baseStart) && TimeOf(x) == TimeOf(baseStart)
  {
    var r := OccurrenceStarts(pattern, baseStart);
    DailyOccurrences(pattern, baseStart);
    StepsShape(r, baseStart, pattern.interval);
  }

  /** A sequence whose k-th element is the base plus k + 1 steps of `interval` days is
    * strictly increasing, after the base and at the base time of day. */
  lemma StepsShape(r: seq<int>, baseStart: int, interval: int)
    requires interval >= 1
    requires forall k :: 0 <= k < |r| ==> r[k] == baseStart + (k + 1) * interval * SecondsPerDay
    ensures forall i, j :: 0 <= i < j < |r| ==> r[i] < r[j]
    ensures forall x :: x in r ==> baseStart < x && TimeOf(x) == TimeOf(baseStart)
  {
    var step := interval * SecondsPerDay;
    forall i, j | 0 <= i < j < |r|
      ensures r[i] < r[j]
    {
      MulStrict(i + 1, j + 1, step);
    }
    forall x | x in r
      ensures baseStart < x && TimeOf(x) == TimeOf(baseStart)
    {
      var k :| 0 <= k < |r| && r[k] == x;
      MulStrict(0, k + 1, step);
      AddDaysShift(baseStart, (k + 1) * interval);
    }
  }

  lemma MulStrict(a: int, b: int, c: int)
    requires a < b && c > 0
    ensures a * c < b * c
  {
  }

  /** What every expansion promises: the starts are sorted, within the end bound, at the
    * base time of day, after the base (for the weekly branch, when the selected days are
    * weekday numbers), and at most MaxOccurrences - 1 of them, except that a weekly
    * pattern may produce one base-week date even when MaxOccurrences is 1 or less. */
  lemma OccurrenceStartsShape(pattern: RecurrencePattern, baseStart: int)
    requires baseStart >= 0 && pattern.interval >= 1
    ensures var r := OccurrenceStarts(pattern, baseStart);
      forall i, j :: 0 <= i < j < |r| ==> r[i] <= r[j]
    ensures forall x :: x in OccurrenceStarts(pattern, baseStart) ==>
      x <= EffectiveEndDate(pattern, baseStart) && TimeOf(x) == TimeOf(baseStart)
    ensures (pattern.HasDaysOfWeek() ==> forall d :: d in pattern.daysOfWeek.value ==> d >= 0) ==>
      forall x :: x in OccurrenceStarts(pattern, baseStart) ==> x > baseStart
    ensures pattern.maxOccurrences.Some? ==>
      |OccurrenceStarts(pattern, baseStart)| <= Max(if pattern.HasDaysOfWeek() then 1 else 0, pattern.maxOccurrences.value - 1)
  {
    if pattern.HasDaysOfWeek() {
      WeeklyStartsShape(pattern, baseStart);
    } else if pattern.HasDaysOfMonth() {
      MonthlyStartsShape(pattern, baseStart);
    } else {
      DailyStartsShape(pattern, baseStart);
      DailyOccurrences(pattern, baseStart);
    }
  }
}
