/** TimeBlockController: the recurrence-pattern validator and converter, the time-block
  * type parser, and the create and patch flows over the time-block table. Transport,
  * authorisation and the response shapes are not modelled; the tenant id arrives as a
  * parameter and "today" (DateTime.UtcNow.Date) as a midnight instant. */
module TimeBlockControllers {
  import opened Wrappers
  import opened Calendar
  import opened Entities
  import opened Text
  import opened RecurrencePatterns
  import RX = RecurrenceExpansion
  import opened TimeBlockRepositories
  import RS = RecurrenceServices
  import Sequences

  /** RecurrencePatternRequest: the pattern as the client sends it. */
  datatype RecurrencePatternRequest = RecurrencePatternRequest(
    frequency: string,
    interval: Option<int>,
    daysOfWeek: Option<seq<int>>,
    daysOfMonth: Option<seq<int>>,
    endDate: Option<int>,
    maxOccurrences: Option<int>)

  /** The messages ValidateRecurrencePattern can add, one constructor per message. */
  datatype PatternError =
    | IntervalNotPositive
    | BothEndConditions
    | NoEndCondition
    | EndDateInPast
    | MaxOccurrencesNotPositive
    | DailyWithDaysOfWeek
    | DailyWithDaysOfMonth
    | WeeklyWithDaysOfMonth
    | DayOfWeekOutOfRange
    | DuplicateDaysOfWeek
    | BaseDayOfWeekMissing(dayOfWeek: int)
    | MonthlyWithDaysOfWeek
    | DayOfMonthOutOfRange
    | DayOfMonthSpecialInvalid(day: int)
    | BaseDayOfMonthMissing(day: int)
    | UnknownFrequency

  /** An array that is neither null nor empty. */
  predicate Given(o: Option<seq<int>>)
  {
    o.Some? && |o.value| > 0
  }

  predicate NoDuplicates(s: seq<int>)
  {
    forall i, j :: 0 <= i < j < |s| ==> s[i] != s[j]
  }

  /** The frequency switch on Frequency.ToLowerInvariant(). */
  function FrequencyOf(frequency: string): (r: Option<RecurrenceFrequency>)
    ensures r.Some? <==> ToLower(frequency) in {"daily", "weekly", "monthly"}
    ensures r == Some(Daily) <==> ToLower(frequency) == "daily"
    ensures r == Some(Weekly) <==> ToLower(frequency) == "weekly"
    ensures r == Some(Monthly) <==> ToLower(frequency) == "monthly"
  {
    var f := ToLower(frequency);
    if f == "daily" then Some(Daily)
    else if f == "weekly" then Some(Weekly)
    else if f == "monthly" then Some(Monthly)
    else None
  }

  /** The checks on the interval and on the end condition, in the order they are made. */
  function CommonErrors(p: RecurrencePatternRequest, today: int): seq<PatternError>
  {
    (if p.interval.Some? && p.interval.value < 1 then [IntervalNotPositive] else [])
    + (if p.endDate.Some? && p.maxOccurrences.Some? then [BothEndConditions]
       else if p.endDate.None? && p.maxOccurrences.None? then [NoEndCondition]
       else [])
    + (if p.endDate.Some? && p.endDate.value < today then [EndDateInPast] else [])
    + (if p.maxOccurrences.Some? && p.maxOccurrences.value <= 0 then [MaxOccurrencesNotPositive] else [])
  }

  /** The checks on a non-null DaysOfWeek of a weekly pattern. */
  function WeekDayErrors(days: seq<int>, originalStart: int): seq<PatternError>
  {
    (if exists d :: d in days && (d < 0 || d > 6) then [DayOfWeekOutOfRange] else [])
    + (if !NoDuplicates(days) then [DuplicateDaysOfWeek] else [])
    + (if DayOfWeek(originalStart) !in days then [BaseDayOfWeekMissing(DayOfWeek(originalStart))] else [])
  }

  /** The error one day-of-month value adds, if any. */
  function DayOfMonthError(day: int): seq<PatternError>
  {
    if day == 0 || day < -31 || day > 31 then [DayOfMonthOutOfRange]
    else if day < -1 && day > -31 then [DayOfMonthSpecialInvalid(day)]
    else []
  }

  /** The errors of the loop over the day-of-month values, value after value. */
  function DayOfMonthErrors(days: seq<int>): seq<PatternError>
  {
    if days == [] then []
    else DayOfMonthErrors(days[..|days| - 1]) + DayOfMonthError(days[|days| - 1])
  }

  /** A day-of-month value passes exactly when it is a day 1..31, -1 or -31. */
  lemma DayOfMonthErrorMeaning(day: int)
    ensures DayOfMonthError(day) == [] <==> (1 <= day <= 31 || day == -1 || day == -31)
    ensures |DayOfMonthError(day)| <= 1
  {
  }

  /** The day-of-month loop reports one error per rejected value, and nothing when every
    * value passes. */
  lemma {:induction false} DayOfMonthErrorsMeaning(days: seq<int>)
    ensures DayOfMonthErrors(days) == [] <==> forall d :: d in days ==> DayOfMonthError(d) == []
    ensures |DayOfMonthErrors(days)| <= |days|
    ensures forall e :: e in DayOfMonthErrors(days) <==> exists d :: d in days && e in DayOfMonthError(d)
  {
    if days != [] {
      var init, last := days[..|days| - 1], days[|days| - 1];
      assert days == init + [last];
      DayOfMonthErrorsMeaning(init);
      DayOfMonthErrorMeaning(last);
      forall e | e in DayOfMonthErrors(days)
        ensures exists d :: d in days && e in DayOfMonthError(d)
      {
        if e in DayOfMonthErrors(init) {
          var d :| d in init && e in DayOfMonthError(d);
          assert d in days;
        } else {
          assert e in DayOfMonthError(last);
        }
      }
      forall e | exists d :: d in days && e in DayOfMonthError(d)
        ensures e in DayOfMonthErrors(days)
      {
        var d :| d in days && e in DayOfMonthError(d);
        if d != last {
          assert d in init;
        }
      }
    }
  }

  /** The base day matches a listed day, or the last, second-to-last or third-to-last day
    * of its month with -1, -2 or -3 listed. */
  predicate BaseDayListed(days: seq<int>, originalStart: int)
    requires originalStart >= 0
  {
    var c := CivilOf(originalStart);
    var lastDayOfMonth := DaysInMonth(c.year, c.month);
    c.day in days
    || (-1 in days && c.day == lastDayOfMonth)
    || (-2 in days && c.day == lastDayOfMonth - 1)
    || (-3 in days && c.day == lastDayOfMonth - 2)
  }

  /** The checks on a non-empty DaysOfMonth of a monthly pattern: the loop over the values,
    * then the base day. */
  function MonthDayErrors(days: seq<int>, originalStart: int): seq<PatternError>
    requires originalStart >= 0
  {
    DayOfMonthErrors(days)
    + (if BaseDayListed(days, originalStart) then [] else [BaseDayOfMonthMissing(CivilOf(originalStart).day)])
  }

  /** The checks of the frequency switch on which selectors a frequency allows. */
  function SelectorErrors(p: RecurrencePatternRequest): seq<PatternError>
  {
    match FrequencyOf(p.frequency)
    case Some(Daily) =>
      (if Given(p.daysOfWeek) then [DailyWithDaysOfWeek] else [])
      + (if Given(p.daysOfMonth) then [DailyWithDaysOfMonth] else [])
    case Some(Weekly) => if Given(p.daysOfMonth) then [WeeklyWithDaysOfMonth] else []
    case Some(Monthly) => if Given(p.daysOfWeek) then [MonthlyWithDaysOfWeek] else []
    case _ => [UnknownFrequency]
  }

  /** The checks of the frequency switch on the values of the selector a frequency uses. */
  function DetailErrors(p: RecurrencePatternRequest, originalStart: int): seq<PatternError>
    requires originalStart >= 0
  {
    match FrequencyOf(p.frequency)
    case Some(Weekly) => if p.daysOfWeek.Some? then WeekDayErrors(p.daysOfWeek.value, originalStart) else []
    case Some(Monthly) => if Given(p.daysOfMonth) then MonthDayErrors(p.daysOfMonth.value, originalStart) else []
    case _ => []
  }

  /** The checks of the frequency switch, in order: in every branch the selector check
    * comes before the checks on the selector's values. */
  function FrequencyErrors(p: RecurrencePatternRequest, originalStart: int): seq<PatternError>
    requires originalStart >= 0
  {
    SelectorErrors(p) + DetailErrors(p, originalStart)
  }

  /** Every message ValidateRecurrencePattern returns, in order. */
  function PatternErrors(p: RecurrencePatternRequest, originalStart: int, today: int): seq<PatternError>
    requires originalStart >= 0
  {
    CommonErrors(p, today) + FrequencyErrors(p, originalStart)
  }

  /** The messages of the checks every pattern goes through. */
  predicate IsCommonError(e: PatternError)
  {
    e.IntervalNotPositive? || e.BothEndConditions? || e.NoEndCondition? || e.EndDateInPast?
    || e.MaxOccurrencesNotPositive?
  }

  /** The messages about the frequency and the selectors it allows. */
  predicate IsSelectorError(e: PatternError)
  {
    e.UnknownFrequency? || e.DailyWithDaysOfWeek? || e.DailyWithDaysOfMonth? || e.WeeklyWithDaysOfMonth?
    || e.MonthlyWithDaysOfWeek?
  }

  /** Each common message is present exactly when its condition holds. */
  lemma CommonErrorsMeaning(p: RecurrencePatternRequest, today: int)
    ensures forall e :: e in CommonErrors(p, today) ==> IsCommonError(e)
    ensures var e := CommonErrors(p, today);
      && (IntervalNotPositive in e <==> p.interval.Some? && p.interval.value < 1)
      && (BothEndConditions in e <==> p.endDate.Some? && p.maxOccurrences.Some?)
      && (NoEndCondition in e <==> p.endDate.None? && p.maxOccurrences.None?)
      && (EndDateInPast in e <==> p.endDate.Some? && p.endDate.value < today)
      && (MaxOccurrencesNotPositive in e <==> p.maxOccurrences.Some? && p.maxOccurrences.value <= 0)
  {
  }

  /** Each selector message is present exactly when its condition holds. */
  lemma SelectorErrorsMeaning(p: RecurrencePatternRequest)
    ensures forall e :: e in SelectorErrors(p) ==> IsSelectorError(e)
    ensures var e := SelectorErrors(p); var f := FrequencyOf(p.frequency);
      && (UnknownFrequency in e <==> f.None?)
      && (DailyWithDaysOfWeek in e <==> f == Some(Daily) && Given(p.daysOfWeek))
      && (DailyWithDaysOfMonth in e <==> f == Some(Daily) && Given(p.daysOfMonth))
      && (WeeklyWithDaysOfMonth in e <==> f == Some(Weekly) && Given(p.daysOfMonth))
      && (MonthlyWithDaysOfWeek in e <==> f == Some(Monthly) && Given(p.daysOfWeek))
  {
  }

  /** The messages about the week days of a weekly pattern. */
  lemma WeekDayErrorsMeaning(days: seq<int>, originalStart: int)
    ensures forall e :: e in WeekDayErrors(days, originalStart) ==>
      e.DayOfWeekOutOfRange? || e.DuplicateDaysOfWeek? || e.BaseDayOfWeekMissing?
    ensures DayOfWeekOutOfRange in WeekDayErrors(days, originalStart) <==> (exists d :: d in days && (d < 0 || d > 6))
    ensures DuplicateDaysOfWeek in WeekDayErrors(days, originalStart) <==> !NoDuplicates(days)
    ensures (exists w :: BaseDayOfWeekMissing(w) in WeekDayErrors(days, originalStart))
      <==> DayOfWeek(originalStart) !in days
  {
    if DayOfWeek(originalStart) !in days {
      assert BaseDayOfWeekMissing(DayOfWeek(originalStart)) in WeekDayErrors(days, originalStart);
    }
  }

  /** The messages about the month days of a monthly pattern. */
  lemma MonthDayErrorsMeaning(days: seq<int>, originalStart: int)
    requires originalStart >= 0
    ensures forall x :: x in MonthDayErrors(days, originalStart) ==>
      x.DayOfMonthOutOfRange? || x.DayOfMonthSpecialInvalid? || x.BaseDayOfMonthMissing?
    ensures (exists d :: BaseDayOfMonthMissing(d) in MonthDayErrors(days, originalStart))
      <==> !BaseDayListed(days, originalStart)
    ensures DayOfMonthOutOfRange in MonthDayErrors(days, originalStart)
      <==> (exists d :: d in days && (d == 0 || d < -31 || d > 31))
  {
    DayOfMonthErrorsMeaning(days);
    forall x | x in DayOfMonthErrors(days)
      ensures x.DayOfMonthOutOfRange? || x.DayOfMonthSpecialInvalid?
    {
      var d :| d in days && x in DayOfMonthError(d);
    }
    if exists d :: d in days && (d == 0 || d < -31 || d > 31) {
      var d :| d in days && (d == 0 || d < -31 || d > 31);
      assert DayOfMonthOutOfRange in DayOfMonthError(d);
    }
    if !BaseDayListed(days, originalStart) {
      assert BaseDayOfMonthMissing(CivilOf(originalStart).day) in MonthDayErrors(days, originalStart);
    }
  }

  /** The checks on selector values add neither common nor selector messages. */
  lemma DetailErrorsKinds(p: RecurrencePatternRequest, originalStart: int)
    requires originalStart >= 0
    ensures forall e :: e in DetailErrors(p, originalStart) ==> !IsCommonError(e) && !IsSelectorError(e)
  {
    var f := FrequencyOf(p.frequency);
    if f == Some(Weekly) && p.daysOfWeek.Some? {
      WeekDayErrorsMeaning(p.daysOfWeek.value, originalStart);
    } else if f == Some(Monthly) && Given(p.daysOfMonth) {
      MonthDayErrorsMeaning(p.daysOfMonth.value, originalStart);
    }
  }

  /** Where a message of the validator comes from: the common checks, the selector checks
    * or the checks on selector values, according to its kind. */
  lemma PatternErrorsSplit(p: RecurrencePatternRequest, originalStart: int, today: int, x: PatternError)
    requires originalStart >= 0
    ensures IsCommonError(x) ==> (x in PatternErrors(p, originalStart, today) <==> x in CommonErrors(p, today))
    ensures IsSelectorError(x) ==> (x in PatternErrors(p, originalStart, today) <==> x in SelectorErrors(p))
    ensures !IsCommonError(x) && !IsSelectorError(x) ==>
      (x in PatternErrors(p, originalStart, today) <==> x in DetailErrors(p, originalStart))
  {
    var common, selector, detail := CommonErrors(p, today), SelectorErrors(p), DetailErrors(p, originalStart);
    assert PatternErrors(p, originalStart, today) == common + selector + detail;
    assert x in common + selector + detail <==> x in common || x in selector || x in detail;
    if IsCommonError(x) {
      SelectorErrorsMeaning(p);
      DetailErrorsKinds(p, originalStart);
    } else if IsSelectorError(x) {
      CommonErrorsMeaning(p, today);
      DetailErrorsKinds(p, originalStart);
    } else {
      CommonErrorsMeaning(p, today);
      SelectorErrorsMeaning(p);
    }
  }

  /** The validator reports every applicable error, not just the first. Each message of the
    * interval and end-condition checks is present exactly when its condition holds. */
  lemma PatternErrorsCommonMeaning(p: RecurrencePatternRequest, originalStart: int, today: int)
    requires originalStart >= 0
    ensures var e := PatternErrors(p, originalStart, today);
      && (IntervalNotPositive in e <==> p.interval.Some? && p.interval.value < 1)
      && (BothEndConditions in e <==> p.endDate.Some? && p.maxOccurrences.Some?)
      && (NoEndCondition in e <==> p.endDate.None? && p.maxOccurrences.None?)
      && (EndDateInPast in e <==> p.endDate.Some? && p.endDate.value < today)
      && (MaxOccurrencesNotPositive in e <==> p.maxOccurrences.Some? && p.maxOccurrences.value <= 0)
  {
    CommonErrorsMeaning(p, today);
    PatternErrorsSplit(p, originalStart, today, IntervalNotPositive);
    PatternErrorsSplit(p, originalStart, today, BothEndConditions);
    PatternErrorsSplit(p, originalStart, today, NoEndCondition);
    PatternErrorsSplit(p, originalStart, today, EndDateInPast);
    PatternErrorsSplit(p, originalStart, today, MaxOccurrencesNotPositive);
  }

  /** The messages about the frequency and the selectors it does not allow. */
  lemma PatternErrorsFrequencyMeaning(p: RecurrencePatternRequest, originalStart: int, today: int)
    requires originalStart >= 0
    ensures var e := PatternErrors(p, originalStart, today); var f := FrequencyOf(p.frequency);
      && (UnknownFrequency in e <==> f.None?)
      && (DailyWithDaysOfWeek in e <==> f == Some(Daily) && Given(p.daysOfWeek))
      && (DailyWithDaysOfMonth in e <==> f == Some(Daily) && Given(p.daysOfMonth))
      && (WeeklyWithDaysOfMonth in e <==> f == Some(Weekly) && Given(p.daysOfMonth))
      && (MonthlyWithDaysOfWeek in e <==> f == Some(Monthly) && Given(p.daysOfWeek))
  {
    SelectorErrorsMeaning(p);
    PatternErrorsSplit(p, originalStart, today, UnknownFrequency);
    PatternErrorsSplit(p, originalStart, today, DailyWithDaysOfWeek);
    PatternErrorsSplit(p, originalStart, today, DailyWithDaysOfMonth);
    PatternErrorsSplit(p, originalStart, today, WeeklyWithDaysOfMonth);
    PatternErrorsSplit(p, originalStart, today, MonthlyWithDaysOfWeek);
  }

  /** The messages about the week days of a weekly pattern. */
  lemma PatternErrorsWeeklyMeaning(p: RecurrencePatternRequest, originalStart: int, today: int)
    requires originalStart >= 0
    ensures var e := PatternErrors(p, originalStart, today); var f := FrequencyOf(p.frequency);
      && (DayOfWeekOutOfRange in e <==>
            (f == Some(Weekly) && p.daysOfWeek.Some? && exists d :: d in p.daysOfWeek.value && (d < 0 || d > 6)))
      && (DuplicateDaysOfWeek in e <==>
            (f == Some(Weekly) && p.daysOfWeek.Some? && !NoDuplicates(p.daysOfWeek.value)))
      && ((exists w :: BaseDayOfWeekMissing(w) in e) <==>
            (f == Some(Weekly) && p.daysOfWeek.Some? && DayOfWeek(originalStart) !in p.daysOfWeek.value))
  {
    PatternErrorsSplit(p, originalStart, today, DayOfWeekOutOfRange);
    PatternErrorsSplit(p, originalStart, today, DuplicateDaysOfWeek);
    forall w ensures BaseDayOfWeekMissing(w) in PatternErrors(p, originalStart, today)
      <==> BaseDayOfWeekMissing(w) in DetailErrors(p, originalStart)
    {
      PatternErrorsSplit(p, originalStart, today, BaseDayOfWeekMissing(w));
    }
    var f := FrequencyOf(p.frequency);
    if f == Some(Weekly) && p.daysOfWeek.Some? {
      WeekDayErrorsMeaning(p.daysOfWeek.value, originalStart);
    } else if f == Some(Monthly) && Given(p.daysOfMonth) {
      MonthDayErrorsMeaning(p.daysOfMonth.value, originalStart);
    }
  }

  /** The messages about the month days of a monthly pattern. */
  lemma PatternErrorsMonthlyMeaning(p: RecurrencePatternRequest, originalStart: int, today: int)
    requires originalStart >= 0
    ensures var e := PatternErrors(p, originalStart, today); var f := FrequencyOf(p.frequency);
      && ((exists d :: BaseDayOfMonthMissing(d) in e) <==>
            (f == Some(Monthly) && Given(p.daysOfMonth) && !BaseDayListed(p.daysOfMonth.value, originalStart)))
      && (DayOfMonthOutOfRange in e <==>
            (f == Some(Monthly) && Given(p.daysOfMonth) && exists d :: d in p.daysOfMonth.value && (d == 0 || d < -31 || d > 31)))
  {
    PatternErrorsSplit(p, originalStart, today, DayOfMonthOutOfRange);
    forall d ensures BaseDayOfMonthMissing(d) in PatternErrors(p, originalStart, today)
      <==> BaseDayOfMonthMissing(d) in DetailErrors(p, originalStart)
    {
      PatternErrorsSplit(p, originalStart, today, BaseDayOfMonthMissing(d));
    }
    var f := FrequencyOf(p.frequency);
    if f == Some(Weekly) && p.daysOfWeek.Some? {
      WeekDayErrorsMeaning(p.daysOfWeek.value, originalStart);
    } else if f == Some(Monthly) && Given(p.daysOfMonth) {
      MonthDayErrorsMeaning(p.daysOfMonth.value, originalStart);
    }
  }

  /** The day-of-month loop of the validator. */
  method CheckDaysOfMonth(days: seq<int>) returns (errors: seq<PatternError>)
    ensures errors == DayOfMonthErrors(days)
  {
    errors := [];
    var i := 0;
    while i < |days|
      invariant 0 <= i <= |days|
      invariant errors == DayOfMonthErrors(days[..i])
    {
      assert days[..i + 1][..i] == days[..i];
      var day := days[i];
      if day == 0 || day < -31 || day > 31 {
        errors := errors + [DayOfMonthOutOfRange];
      } else if day < -1 && day > -31 {
        errors := errors + [DayOfMonthSpecialInvalid(day)];
      }
      i := i + 1;
    }
    assert days[..i] == days;
  }

  /** ValidateRecurrencePattern: the checks that apply to every pattern. */
  method CheckCommon(pattern: RecurrencePatternRequest, today: int) returns (errors: seq<PatternError>)
    ensures errors == CommonErrors(pattern, today)
  {
    errors := [];
    if pattern.interval.Some? && pattern.interval.value < 1 {
      errors := errors + [IntervalNotPositive];
    }
    if pattern.endDate.Some? && pattern.maxOccurrences.Some? {
      errors := errors + [BothEndConditions];
    } else if pattern.endDate.None? && pattern.maxOccurrences.None? {
      errors := errors + [NoEndCondition];
    }
    if pattern.endDate.Some? && pattern.endDate.value < today {
      errors := errors + [EndDateInPast];
    }
    if pattern.maxOccurrences.Some? && pattern.maxOccurrences.value <= 0 {
      errors := errors + [MaxOccurrencesNotPositive];
    }
  }

  /** ValidateRecurrencePattern: the weekly branch's checks on a non-null DaysOfWeek. */
  method CheckDaysOfWeek(days: seq<int>, originalStart: int) returns (found: seq<PatternError>)
    requires originalStart >= 0
    ensures found == WeekDayErrors(days, originalStart)
  {
    found := [];
    if exists d :: d in days && (d < 0 || d > 6) {
      found := found + [DayOfWeekOutOfRange];
    }
    if !NoDuplicates(days) {
      found := found + [DuplicateDaysOfWeek];
    }
    var originalDayOfWeek := DayOfWeek(originalStart);
    if originalDayOfWeek !in days {
      found := found + [BaseDayOfWeekMissing(originalDayOfWeek)];
    }
  }

  /** ValidateRecurrencePattern: the monthly branch's checks on a non-empty DaysOfMonth. */
  method CheckMonthDays(days: seq<int>, originalStart: int) returns (found: seq<PatternError>)
    requires originalStart >= 0
    ensures found == MonthDayErrors(days, originalStart)
  {
    found := CheckDaysOfMonth(days);
    if !BaseDayListed(days, originalStart) {
      found := found + [BaseDayOfMonthMissing(CivilOf(originalStart).day)];
    }
  }

  /** ValidateRecurrencePattern: the switch on the frequency. */
  method CheckFrequency(pattern: RecurrencePatternRequest, originalStart: int) returns (errors: seq<PatternError>)
    requires originalStart >= 0
    ensures errors == FrequencyErrors(pattern, originalStart)
  {
    var frequency := ToLower(pattern.frequency);
    if frequency == "daily" {
      errors := [];
      if Given(pattern.daysOfWeek) {
        errors := errors + [DailyWithDaysOfWeek];
      }
      if Given(pattern.daysOfMonth) {
        errors := errors + [DailyWithDaysOfMonth];
      }
      assert errors == SelectorErrors(pattern) && DetailErrors(pattern, originalStart) == [];
    } else if frequency == "weekly" {
      var selector := if Given(pattern.daysOfMonth) then [WeeklyWithDaysOfMonth] else [];
      var found := [];
      if pattern.daysOfWeek.Some? {
        found := CheckDaysOfWeek(pattern.daysOfWeek.value, originalStart);
      }
      assert selector == SelectorErrors(pattern) && found == DetailErrors(pattern, originalStart);
      errors := selector + found;
    } else if frequency == "monthly" {
      var selector := if Given(pattern.daysOfWeek) then [MonthlyWithDaysOfWeek] else [];
      var found := [];
      if Given(pattern.daysOfMonth) {
        found := CheckMonthDays(pattern.daysOfMonth.value, originalStart);
      }
      assert selector == SelectorErrors(pattern) && found == DetailErrors(pattern, originalStart);
      errors := selector + found;
    } else {
      errors := [UnknownFrequency];
      assert errors == SelectorErrors(pattern) && DetailErrors(pattern, originalStart) == [];
    }
  }

  /** ValidateRecurrencePattern: every applicable message, in the order the checks run. */
  method ValidateRecurrencePattern(pattern: RecurrencePatternRequest, originalStart: int, today: int)
      returns (errors: seq<PatternError>)
    requires originalStart >= 0
    ensures errors == PatternErrors(pattern, originalStart, today)
  {
    var common := CheckCommon(pattern, today);
    var specific := CheckFrequency(pattern, originalStart);
    errors := common + specific;
  }

  /** ConvertToRecurrencePattern: the frequency (an unknown one throws), Interval defaulting
    * to 1, the end condition as given; weekly days default to the base weekday, and
    * monthly days to the base day of the month. */
  function ConvertToRecurrencePattern(request: RecurrencePatternRequest, originalStart: int): (r: Option<RecurrencePattern>)
    requires originalStart >= 0
    ensures r.None? <==> FrequencyOf(request.frequency).None?
    ensures r.Some? ==> (r.value.frequency == FrequencyOf(request.frequency).value
      && r.value.interval == request.interval.GetOr(1)
      && r.value.endDate == request.endDate && r.value.maxOccurrences == request.maxOccurrences)
    ensures r.Some? && r.value.frequency == Weekly ==>
      r.value.daysOfWeek == Some(if Given(request.daysOfWeek) then request.daysOfWeek.value else [DayOfWeek(originalStart)])
    ensures r.Some? && r.value.frequency != Weekly ==> r.value.daysOfWeek == None
    ensures r.Some? && Given(request.daysOfMonth) ==> r.value.daysOfMonth == request.daysOfMonth
    ensures r.Some? && !Given(request.daysOfMonth) ==>
      r.value.daysOfMonth == Some(if r.value.frequency == Monthly then [CivilOf(originalStart).day] else [])
  {
    match FrequencyOf(request.frequency)
    case None => None
    case Some(frequency) =>
      var pattern := NewPattern().(frequency := frequency, interval := request.interval.GetOr(1),
                                   endDate := request.endDate, maxOccurrences := request.maxOccurrences);
      var pattern :=
        if frequency == Weekly then
          pattern.(daysOfWeek := Some(if Given(request.daysOfWeek) then request.daysOfWeek.value
                                      else [DayOfWeek(originalStart)]))
        else pattern;
      var pattern :=
        if Given(request.daysOfMonth) then pattern.(daysOfMonth := request.daysOfMonth)
        else if frequency == Monthly then pattern.(daysOfMonth := Some([CivilOf(originalStart).day]))
        else pattern;
      Some(pattern)
  }

  /** A pattern the validator accepts converts to one the expander can take: a known
    * frequency, an interval of at least 1 and exactly one end condition; a daily pattern
    * has no selectors, so expansion takes the daily branch; a weekly one has days 0..6
    * without repeats that include the base weekday; a monthly one has day values the
    * validator allows and no week days. */
  lemma AcceptedPatternConverts(p: RecurrencePatternRequest, originalStart: int, today: int)
    requires originalStart >= 0
    requires PatternErrors(p, originalStart, today) == []
    ensures ConvertToRecurrencePattern(p, originalStart).Some?
    ensures var q := ConvertToRecurrencePattern(p, originalStart).value;
      q.interval >= 1 && (q.endDate.Some? <==> q.maxOccurrences.None?)
      && (q.maxOccurrences.Some? ==> q.maxOccurrences.value >= 1)
      && (q.endDate.Some? ==> q.endDate.value >= today)
    ensures var q := ConvertToRecurrencePattern(p, originalStart).value;
      q.frequency == Daily ==> !q.HasDaysOfWeek() && !q.HasDaysOfMonth()
    ensures var q := ConvertToRecurrencePattern(p, originalStart).value;
      q.frequency == Weekly ==> (q.HasDaysOfWeek() && !q.HasDaysOfMonth()
        && NoDuplicates(q.daysOfWeek.value) && DayOfWeek(originalStart) in q.daysOfWeek.value
        && forall d :: d in q.daysOfWeek.value ==> 0 <= d <= 6)
    ensures var q := ConvertToRecurrencePattern(p, originalStart).value;
      q.frequency == Monthly ==> (!q.HasDaysOfWeek() && q.HasDaysOfMonth()
        && forall d :: d in q.daysOfMonth.value ==> 1 <= d <= 31 || d == -1 || d == -31)
  {
    PatternErrorsCommonMeaning(p, originalStart, today);
    PatternErrorsFrequencyMeaning(p, originalStart, today);
    PatternErrorsWeeklyMeaning(p, originalStart, today);
    var q := ConvertToRecurrencePattern(p, originalStart).value;
    if q.frequency == Monthly && Given(p.daysOfMonth) {
      DayOfMonthErrorsMeaning(p.daysOfMonth.value);
      forall d | d in q.daysOfMonth.value
        ensures 1 <= d <= 31 || d == -1 || d == -31
      {
        DayOfMonthErrorMeaning(d);
        assert DayOfMonthErrors(p.daysOfMonth.value) == [];
      }
    }
    if q.frequency == Weekly && !Given(p.daysOfWeek) {
      assert q.daysOfWeek.value == [DayOfWeek(originalStart)];
    }
  }

  /** As written, the validator lets through a day-of-month selector that the expansion
    * cannot compute: a monthly pattern from Tuesday 0001-01-31 on days [31, -31] with at
    * most 3 occurrences has no validation error; January yields no follow-on date, so the
    * cap is not reached and the loop moves on to February (within the two-year horizon),
    * where -31 counts back to day 28 - 31 + 1 = -2 and `new DateTime` throws. The clamped
    * computation takes the first of February instead. */
  lemma MinusThirtyOneAcceptedThenThrows()
    ensures var base := MakeInstant(Civil(1, 1, 31), 0);
      var p := RecurrencePatternRequest("Monthly", None, None, Some([31, -31]), None, Some(3));
      PatternErrors(p, base, 0) == []
      && ConvertToRecurrencePattern(p, base).Some?
      && RX.MonthTargets([31, -31], base, base, RX.EffectiveEndDate(ConvertToRecurrencePattern(p, base).value, base)) == []
      && AddMonths(base, 1) <= RX.EffectiveEndDate(ConvertToRecurrencePattern(p, base).value, base)
      && RX.MonthlyOccurrenceAsWritten(AddMonths(base, 1), -31).None?
      && CivilOf(RX.MonthlyOccurrence(AddMonths(base, 1), -31)) == Civil(1, 2, 1)
  {
    var base := MakeInstant(Civil(1, 1, 31), 0);
    var p := RecurrencePatternRequest("Monthly", None, None, Some([31, -31]), None, Some(3));
    MinusThirtyOneAccepted();
    var end := RX.EffectiveEndDate(ConvertToRecurrencePattern(p, base).value, base);
    assert base == 30 * SecondsPerDay && end == base + 730 * SecondsPerDay;
    JanuaryYieldsNothing(end);
    FebruaryCountsBackBeforeFirst();
  }

  /** The validator accepts the monthly pattern on [31, -31] from 0001-01-31. */
  lemma MinusThirtyOneAccepted()
    ensures var base := MakeInstant(Civil(1, 1, 31), 0);
      var p := RecurrencePatternRequest("Monthly", None, None, Some([31, -31]), None, Some(3));
      && base == 30 * SecondsPerDay
      && PatternErrors(p, base, 0) == []
      && ConvertToRecurrencePattern(p, base).Some?
      && RX.EffectiveEndDate(ConvertToRecurrencePattern(p, base).value, base) == base + 730 * SecondsPerDay
  {
    var base := MakeInstant(Civil(1, 1, 31), 0);
    JanuaryThirtyFirst();
    var p := RecurrencePatternRequest("Monthly", None, None, Some([31, -31]), None, Some(3));
    MonthlyIsMonthly();
    assert CommonErrors(p, 0) == [];
    assert SelectorErrors(p) == [];
    assert DayOfMonthErrors([31, -31]) == [] by {
      assert [31, -31][..1] == [31];
      assert [31][..0] == [];
    }
    assert BaseDayListed([31, -31], base);
    assert DetailErrors(p, base) == [];
  }

  /** 0001-01-31 at midnight is thirty days after the origin. */
  lemma JanuaryThirtyFirst()
    ensures MakeInstant(Civil(1, 1, 31), 0) == 30 * SecondsPerDay
    ensures CivilOf(30 * SecondsPerDay) == Civil(1, 1, 31)
  {
    assert DayNumber(Civil(1, 1, 31)) == 30;
  }

  lemma MonthlyIsMonthly()
    ensures FrequencyOf("Monthly") == Some(Monthly)
  {
    assert ToLower("Monthly") == "monthly";
  }

  /** In January, day 31 is the base itself and day -31 is the first, before the base:
    * neither is kept. */
  lemma JanuaryYieldsNothing(end: int)
    requires end == 760 * SecondsPerDay
    ensures RX.MonthTargets([31, -31], 30 * SecondsPerDay, 30 * SecondsPerDay, end) == []
  {
    var base := 30 * SecondsPerDay;
    var jan31 := RX.MonthlyOccurrence(base, 31);
    CivilDetermines(jan31, base);
    SameDateAndTime(jan31, base);
    var jan1 := RX.MonthlyOccurrence(base, -31);
    assert CivilOf(jan1) == Civil(1, 1, 1);
    assert jan1 < base;
    assert !RX.Kept(jan31, base, end) && !RX.Kept(jan1, base, end);
    assert [-31][1..] == [];
    assert RX.MonthTargets([-31], base, base, end) == [];
    assert [31, -31][1..] == [-31];
  }

  /** February of year 1 has 28 days, so -31 counts back to day -2 there. */
  lemma FebruaryCountsBackBeforeFirst()
    ensures var feb := AddMonths(30 * SecondsPerDay, 1);
      && feb <= 760 * SecondsPerDay
      && RX.MonthlyOccurrenceAsWritten(feb, -31).None?
      && CivilOf(RX.MonthlyOccurrence(feb, -31)) == Civil(1, 2, 1)
  {
    var feb := AddMonths(30 * SecondsPerDay, 1);
    assert CivilOf(feb) == Civil(1, 2, 28);
    assert feb < 59 * SecondsPerDay;
  }

  // ---------------------------------------------------------------------------------
  // The time-block type

  /** The failures of the create and patch flows, one per exception they raise. */
  datatype ControllerError =
    | StartNotBeforeEnd
    | StartDateBeforeToday
    | EndDateBeforeToday
    | InvalidPattern(errors: seq<PatternError>)
    | InvalidTimeBlockType
    | TimeBlockNotFound
    | NotAuthorized
    | EndNotAfterCurrentStart
    | StartNotBeforeCurrentEnd
    | InternalServerError
    | UpdateFailed

  /** The enum member names, as the API documents them. */
  function TypeName(kind: TimeBlockType): string
  {
    match kind
    case Vacation => "Vacation"
    case Break => "Break"
    case Custom => "Custom"
  }

  /** ParseTimeBlockType: the switch on type.ToLowerInvariant(). */
  function ParseTimeBlockType(text: string): (r: Result<TimeBlockType, ControllerError>)
    ensures r.Ok? <==> ToLower(text) in {"vacation", "break", "custom"}
    ensures r.Err? ==> r.error == InvalidTimeBlockType
  {
    var t := ToLower(text);
    if t == "vacation" then Ok(Vacation)
    else if t == "break" then Ok(Break)
    else if t == "custom" then Ok(Custom)
    else Err(InvalidTimeBlockType)
  }

  /** The lower-case spellings of the member names. */
  lemma TypeNameLower(kind: TimeBlockType)
    ensures ToLower(TypeName(kind)) == match kind case Vacation => "vacation" case Break => "break" case Custom => "custom"
  {
    var name := TypeName(kind);
    var lower := ToLower(name);
    assert LowerChar(name[0]) == lower[0];
    match kind
    case Vacation => assert lower == "vacation";
    case Break => assert lower == "break";
    case Custom => assert lower == "custom";
  }

  /** A string parses to a type exactly when it is that type's name up to case. */
  lemma ParseTimeBlockTypeNames(text: string, kind: TimeBlockType)
    ensures ParseTimeBlockType(text) == Ok(kind) <==> EqualsIgnoreCase(text, TypeName(kind))
  {
    TypeNameLower(kind);
  }

  // ---------------------------------------------------------------------------------
  // CreateTimeBlock

  /** The body of a create request; the start and end are instants. */
  datatype CreateTimeBlockRequest = CreateTimeBlockRequest(
    start: int,
    end: int,
    blockType: string,
    reason: Option<string>,
    recurrencePattern: Option<RecurrencePatternRequest>)

  /** The block the request created and the number of blocks stored for it. */
  datatype CreateTimeBlockResponse = CreateTimeBlockResponse(timeBlock: TimeBlock, totalCreated: int)

  /** The checks of CreateTimeBlock, in the order they are made; None when all pass.
    * `today` is the midnight that starts the current day. */
  function CreateError(request: CreateTimeBlockRequest, today: int): (r: Option<ControllerError>)
    requires today >= 0
  {
    if request.start >= request.end then Some(StartNotBeforeEnd)
    else if DateOf(request.start) < today then Some(StartDateBeforeToday)
    else if DateOf(request.end) < today then Some(EndDateBeforeToday)
    else if request.recurrencePattern.Some? && PatternErrors(request.recurrencePattern.value, request.start, today) != [] then
      Some(InvalidPattern(PatternErrors(request.recurrencePattern.value, request.start, today)))
    else if ParseTimeBlockType(request.blockType).Err? then Some(InvalidTimeBlockType)
    else None
  }

  /** What storing a request needs: a start the calendar covers, a type that parses and a
    * pattern that converts to one the expander takes. */
  predicate Storable(request: CreateTimeBlockRequest)
  {
    request.start >= 0 && ParseTimeBlockType(request.blockType).Ok?
    && (request.recurrencePattern.Some? ==>
          var pattern := ConvertToRecurrencePattern(request.recurrencePattern.value, request.start);
          pattern.Some? && pattern.value.interval >= 1)
  }

  /** A request that passes the checks can be stored: in particular the unknown-frequency
    * throw of ConvertToRecurrencePattern cannot be reached from CreateTimeBlock. */
  lemma AcceptedRequestStorable(request: CreateTimeBlockRequest, today: int)
    requires today >= 0
    requires CreateError(request, today).None?
    ensures Storable(request)
    ensures request.start < request.end && today <= request.start && today <= request.end
  {
    if request.recurrencePattern.Some? {
      AcceptedPatternConverts(request.recurrencePattern.value, request.start, today);
    }
  }

  /** The rows of a recurring create: the block carrying the group id `firstId`, then the
    * generated follow-on blocks, with ids handed out after the group id. */
  function GroupBlocks(pattern: RecurrencePattern, start: int, end: int, tenantId: Id, kind: TimeBlockType,
                       reason: Option<string>, firstId: Id): seq<TimeBlock>
    requires start >= 0 && pattern.interval >= 1
  {
    [TimeBlock(firstId + 1, tenantId, start, end, kind, reason, Some(firstId))]
    + RS.GeneratedBlocks(pattern, start, end, firstId + 2, firstId, tenantId, kind, reason)
  }

  /** Every row of a recurring create carries the group id, which no row takes as its id;
    * the rows share tenant, type, reason and duration, and have distinct fresh ids. */
  lemma GroupBlocksShape(pattern: RecurrencePattern, start: int, end: int, tenantId: Id, kind: TimeBlockType,
                         reason: Option<string>, firstId: Id)
    requires start >= 0 && pattern.interval >= 1
    ensures var r := GroupBlocks(pattern, start, end, tenantId, kind, reason, firstId);
      (forall b :: b in r ==>
         b.tenantId == tenantId && b.kind == kind && b.reason == reason && b.end - b.start == end - start
         && b.recurrenceId == Some(firstId) && firstId < b.id <= firstId + |r|)
      && UniqueIds(r)
  {
    var master := TimeBlock(firstId + 1, tenantId, start, end, kind, reason, Some(firstId));
    var generated := RS.GeneratedBlocks(pattern, start, end, firstId + 2, firstId, tenantId, kind, reason);
    assert UniqueIds(generated) && forall b :: b in generated ==>
      b.tenantId == tenantId && b.kind == kind && b.reason == reason && b.end - b.start == end - start
      && b.recurrenceId == Some(firstId) && firstId + 2 <= b.id < firstId + 2 + |generated|
    by {
      RS.GeneratedBlocksShape(pattern, start, end, firstId + 2, firstId, tenantId, kind, reason);
    }
    PrependUnique(master, generated);
  }

  /** The rows a stored request adds, given the first id the supply hands out: without a
    * pattern, the block alone; with one, the group id is drawn first, then the block
    * carrying it, then the generated follow-on blocks. */
  function CreatedBlocks(request: CreateTimeBlockRequest, tenantId: Id, firstId: Id): seq<TimeBlock>
    requires Storable(request)
  {
    var kind := ParseTimeBlockType(request.blockType).value;
    match request.recurrencePattern
    case None => [TimeBlock(firstId, tenantId, request.start, request.end, kind, request.reason, None)]
    case Some(p) =>
      GroupBlocks(ConvertToRecurrencePattern(p, request.start).value, request.start, request.end, tenantId,
                  kind, request.reason, firstId)
  }

  /** The first created row is the requested block; every created row belongs to the
    * tenant, has the requested type, reason and duration, and a fresh id of its own; a
    * group id exists exactly when a pattern was given, and then the block and every
    * generated block carry it and no block uses it as its id. */
  lemma CreatedBlocksShape(request: CreateTimeBlockRequest, tenantId: Id, firstId: Id)
    requires Storable(request)
    ensures var r := CreatedBlocks(request, tenantId, firstId); var kind := ParseTimeBlockType(request.blockType).value;
      |r| >= 1 && r[0].start == request.start && r[0].end == request.end
      && (forall b :: b in r ==>
            b.tenantId == tenantId && b.kind == kind && b.reason == request.reason
            && b.end - b.start == request.end - request.start
            && firstId <= b.id <= firstId + |r|)
      && UniqueIds(r)
    ensures var r := CreatedBlocks(request, tenantId, firstId);
      request.recurrencePattern.None? ==> |r| == 1 && r[0].recurrenceId.None?
    ensures var r := CreatedBlocks(request, tenantId, firstId);
      request.recurrencePattern.Some? ==> forall b :: b in r ==> b.recurrenceId == Some(firstId) && b.id != firstId
  {
    if request.recurrencePattern.Some? {
      var kind := ParseTimeBlockType(request.blockType).value;
      var pattern := ConvertToRecurrencePattern(request.recurrencePattern.value, request.start).value;
      GroupBlocksShape(pattern, request.start, request.end, tenantId, kind, request.reason, firstId);
    }
  }

  /** The storing part of a recurring create, once the group id is drawn: the block
    * carrying it, then the generated blocks. */
  method StoreGroup(repository: TimeBlockRepository, recurrenceId: Id, pattern: RecurrencePattern, start: int, end: int,
                    tenantId: Id, kind: TimeBlockType, reason: Option<string>)
      returns (block: TimeBlock, totalCreated: int)
    requires repository.Valid() && start >= 0 && pattern.interval >= 1
    requires recurrenceId + 1 == repository.nextId
    modifies repository
    ensures repository.Valid()
    ensures var r := GroupBlocks(pattern, start, end, tenantId, kind, reason, recurrenceId);
      repository.rows == old(repository.rows) + r && block == r[0] && totalCreated == |r|
  {
    ghost var rows0 := repository.rows;
    block := repository.CreateTimeBlock(TimeBlock(repository.nextId, tenantId, start, end, kind, reason, Some(recurrenceId)));
    ghost var rows1 := repository.rows;
    var generated := RS.GenerateRecurringTimeBlocks(repository, pattern, start, end, recurrenceId, tenantId, kind, reason);
    totalCreated := 1 + |generated|;
    ghost var r := GroupBlocks(pattern, start, end, tenantId, kind, reason, recurrenceId);
    assert r == [block] + generated;
    assert repository.rows == rows0 + r by {
      Sequences.AppendAssoc(rows0, [block], generated);
    }
  }

  /** The storing part of CreateTimeBlock: the group id when there is a pattern, the type,
    * the block, then the generated blocks. */
  method StoreTimeBlock(repository: TimeBlockRepository, tenantId: Id, request: CreateTimeBlockRequest,
                        pattern: Option<RecurrencePattern>)
      returns (result: Result<CreateTimeBlockResponse, ControllerError>)
    requires repository.Valid() && request.start >= 0
    requires request.recurrencePattern.Some? ==>
      pattern == ConvertToRecurrencePattern(request.recurrencePattern.value, request.start)
      && pattern.Some? && pattern.value.interval >= 1
    requires request.recurrencePattern.None? ==> pattern.None?
    modifies repository
    ensures repository.Valid()
    ensures result.Err? <==> ParseTimeBlockType(request.blockType).Err?
    ensures result.Err? ==> result.error == InvalidTimeBlockType && repository.rows == old(repository.rows)
    ensures result.Ok? ==> (Storable(request)
      && repository.rows == old(repository.rows) + CreatedBlocks(request, tenantId, old(repository.nextId))
      && result.value.timeBlock == CreatedBlocks(request, tenantId, old(repository.nextId))[0]
      && result.value.totalCreated == |CreatedBlocks(request, tenantId, old(repository.nextId))|)
  {
    ghost var firstId := repository.nextId;
    var recurrenceId: Option<Id> := None;
    if pattern.Some? {
      var id := repository.NewGuid();
      recurrenceId := Some(id);
    }
    var kind := ParseTimeBlockType(request.blockType);
    if kind.Err? {
      return Err(kind.error);
    }
    if pattern.Some? && recurrenceId.Some? {
      var block, totalCreated := StoreGroup(repository, recurrenceId.value, pattern.value, request.start, request.end,
                                            tenantId, kind.value, request.reason);
      result := Ok(CreateTimeBlockResponse(block, totalCreated));
    } else {
      var block := repository.CreateTimeBlock(
        TimeBlock(repository.nextId, tenantId, request.start, request.end, kind.value, request.reason, recurrenceId));
      result := Ok(CreateTimeBlockResponse(block, 1));
    }
  }

  /** CreateTimeBlock: the checks, in order, leave the table as it was when one fails;
    * otherwise the table gains the created rows, and totalCreated counts them. */
  method CreateTimeBlock(repository: TimeBlockRepository, tenantId: Id, request: CreateTimeBlockRequest, today: int)
      returns (result: Result<CreateTimeBlockResponse, ControllerError>)
    requires repository.Valid() && today >= 0
    modifies repository
    ensures repository.Valid()
    ensures result.Err? <==> CreateError(request, today).Some?
    ensures result.Err? ==> result.error == CreateError(request, today).value && repository.rows == old(repository.rows)
    ensures result.Ok? ==> (Storable(request)
      && repository.rows == old(repository.rows) + CreatedBlocks(request, tenantId, old(repository.nextId))
      && result.value.timeBlock == CreatedBlocks(request, tenantId, old(repository.nextId))[0]
      && result.value.totalCreated == |CreatedBlocks(request, tenantId, old(repository.nextId))|)
  {
    if request.start >= request.end {
      return Err(StartNotBeforeEnd);
    }
    if DateOf(request.start) < today {
      return Err(StartDateBeforeToday);
    }
    if DateOf(request.end) < today {
      return Err(EndDateBeforeToday);
    }
    var pattern: Option<RecurrencePattern> := None;
    if request.recurrencePattern.Some? {
      var errors := ValidateRecurrencePattern(request.recurrencePattern.value, request.start, today);
      if errors != [] {
        return Err(InvalidPattern(errors));
      }
      AcceptedPatternConverts(request.recurrencePattern.value, request.start, today);
      pattern := ConvertToRecurrencePattern(request.recurrencePattern.value, request.start);
    }
    result := StoreTimeBlock(repository, tenantId, request, pattern);
  }

  // ---------------------------------------------------------------------------------
  // PatchTimeBlock

  /** The body of a patch request: times of day, and the type and reason when given. */
  datatype PatchTimeBlockRequest = PatchTimeBlockRequest(
    startTime: Option<TimeOfDay>,
    endTime: Option<TimeOfDay>,
    blockType: Option<string>,
    reason: Option<string>)

  /** The time checks of PatchTimeBlock as written. A lone end or start time is compared
    * with the stored block's TimeOfDay, a TimeSpan, through TimeOnly.CompareTo(object),
    * which throws ArgumentException for any argument that is not a TimeOnly; the handler
    * maps that to an internal server error. */
  function PatchTimesErrorAsWritten(request: PatchTimeBlockRequest, existing: TimeBlock): (r: Option<ControllerError>)
    ensures request.startTime.Some? != request.endTime.Some? ==> r == Some(InternalServerError)
  {
    if request.startTime.Some? && request.endTime.Some? then
      if request.startTime.value >= request.endTime.value then Some(StartNotBeforeEnd) else None
    else if request.endTime.Some? || request.startTime.Some? then Some(InternalServerError)
    else None
  }

  /** The time checks of PatchTimeBlock as intended: both times in order, or a lone end
    * after the stored start's time of day, or a lone start before the stored end's. */
  function PatchTimesError(request: PatchTimeBlockRequest, existing: TimeBlock): (r: Option<ControllerError>)
    ensures r.Some? ==> r.value in {StartNotBeforeEnd, EndNotAfterCurrentStart, StartNotBeforeCurrentEnd}
  {
    if request.startTime.Some? && request.endTime.Some? then
      if request.startTime.value >= request.endTime.value then Some(StartNotBeforeEnd) else None
    else if request.endTime.Some? then
      if request.endTime.value <= TimeOf(existing.start) then Some(EndNotAfterCurrentStart) else None
    else if request.startTime.Some? then
      if request.startTime.value >= TimeOf(existing.end) then Some(StartNotBeforeCurrentEnd) else None
    else None
  }

  /** The update sent for one block: each given time goes onto that block's own date. */
  function BlockUpdate(block: TimeBlock, request: PatchTimeBlockRequest, kind: Option<TimeBlockType>): UpdateTimeBlock
  {
    UpdateTimeBlock(
      if request.startTime.Some? then Some(DateOf(block.start) + request.startTime.value) else None,
      if request.endTime.Some? then Some(DateOf(block.end) + request.endTime.value) else None,
      kind,
      request.reason)
  }

  /** A block after its patch. */
  function PatchedBlock(block: TimeBlock, request: PatchTimeBlockRequest, kind: Option<TimeBlockType>): TimeBlock
  {
    ApplyUpdate(block, BlockUpdate(block, request, kind))
  }

  /** A patched block keeps its identity and its dates; its times of day are the requested
    * ones where given, and its type and reason are replaced where given. */
  lemma PatchedBlockMeaning(block: TimeBlock, request: PatchTimeBlockRequest, kind: Option<TimeBlockType>)
    ensures var r := PatchedBlock(block, request, kind);
      r.id == block.id && r.tenantId == block.tenantId && r.recurrenceId == block.recurrenceId
      && DateOf(r.start) == DateOf(block.start) && DateOf(r.end) == DateOf(block.end)
      && TimeOf(r.start) == request.startTime.GetOr(TimeOf(block.start))
      && TimeOf(r.end) == request.endTime.GetOr(TimeOf(block.end))
      && r.kind == kind.GetOr(block.kind)
      && r.reason == (if request.reason.Some? then request.reason else block.reason)
  {
    if request.startTime.Some? {
      SplitInstant(DateOf(block.start), request.startTime.value);
    }
    if request.endTime.Some? {
      SplitInstant(DateOf(block.end), request.endTime.value);
    }
  }

  /** Patching a block twice with the same request is patching it once. */
  lemma PatchedBlockIdempotent(block: TimeBlock, request: PatchTimeBlockRequest, kind: Option<TimeBlockType>)
    ensures PatchedBlock(PatchedBlock(block, request, kind), request, kind) == PatchedBlock(block, request, kind)
  {
    PatchedBlockMeaning(block, request, kind);
    var once := PatchedBlock(block, request, kind);
    assert BlockUpdate(once, request, kind) == BlockUpdate(block, request, kind);
  }

  /** With the intended checks, a patch that passes keeps a same-day block in order. */
  lemma PatchKeepsOrder(block: TimeBlock, request: PatchTimeBlockRequest, kind: Option<TimeBlockType>)
    requires block.start < block.end && DateOf(block.start) == DateOf(block.end)
    requires PatchTimesError(request, block).None?
    ensures PatchedBlock(block, request, kind).start < PatchedBlock(block, request, kind).end
  {
    PatchedBlockMeaning(block, request, kind);
    var r := PatchedBlock(block, request, kind);
    assert r.start == DateOf(r.start) + TimeOf(r.start) && r.end == DateOf(r.end) + TimeOf(r.end);
    assert block.start == DateOf(block.start) + TimeOf(block.start) && block.end == DateOf(block.end) + TimeOf(block.end);
  }

  /** As written, a valid lone end time is rejected: the 09:00-10:00 block of day 0 and a
    * request that only moves its end to 11:00 fail with an internal server error, while
    * the intended checks accept it and the patched block still ends after it starts. */
  lemma LoneEndTimeRejectedAsWritten()
    ensures var block := TimeBlock(0, 0, 9 * 3600, 10 * 3600, Vacation, None, None);
      var request := PatchTimeBlockRequest(None, Some(11 * 3600), None, None);
      PatchTimesErrorAsWritten(request, block) == Some(InternalServerError)
      && PatchTimesError(request, block).None?
      && PatchedBlock(block, request, None).end == 11 * 3600
      && PatchedBlock(block, request, None).start < PatchedBlock(block, request, None).end
  {
    var block := TimeBlock(0, 0, 9 * 3600, 10 * 3600, Vacation, None, None);
    var request := PatchTimeBlockRequest(None, Some(11 * 3600), None, None);
    assert DateOf(block.end) == 0 && TimeOf(block.start) == 9 * 3600;
    PatchKeepsOrder(block, request, None);
  }

  /** The blocks a patch changes: the whole group of a recurring block under editPattern
    * (the tenant's blocks with its recurrence id), otherwise the block alone. */
  predicate PatchTarget(b: TimeBlock, existing: TimeBlock, tenantId: Id, editPattern: bool)
  {
    if editPattern && existing.recurrenceId.Some? then b.recurrenceId == existing.recurrenceId && b.tenantId == tenantId
    else b.id == existing.id
  }

  /** The table after a patch: each target patched against its own dates, every other row
    * as it was. */
  function PatchedRows(rows: seq<TimeBlock>, existing: TimeBlock, tenantId: Id, editPattern: bool,
                       request: PatchTimeBlockRequest, kind: Option<TimeBlockType>): (r: seq<TimeBlock>)
    ensures |r| == |rows|
    ensures forall i :: 0 <= i < |rows| ==>
      r[i] == if PatchTarget(rows[i], existing, tenantId, editPattern) then PatchedBlock(rows[i], request, kind) else rows[i]
  {
    seq(|rows|, i requires 0 <= i < |rows| =>
      if PatchTarget(rows[i], existing, tenantId, editPattern) then PatchedBlock(rows[i], request, kind) else rows[i])
  }

  /** A patch keeps the table invariant, changes no id, tenant or group of any row, and
    * applying it again changes nothing more. */
  lemma PatchedRowsMeaning(rows: seq<TimeBlock>, nextId: nat, existing: TimeBlock, tenantId: Id, editPattern: bool,
                           request: PatchTimeBlockRequest, kind: Option<TimeBlockType>)
    requires ValidRows(rows, nextId)
    ensures var r := PatchedRows(rows, existing, tenantId, editPattern, request, kind);
      ValidRows(r, nextId)
      && (forall i :: 0 <= i < |rows| ==>
            r[i].id == rows[i].id && r[i].tenantId == rows[i].tenantId && r[i].recurrenceId == rows[i].recurrenceId
            && DateOf(r[i].start) == DateOf(rows[i].start) && DateOf(r[i].end) == DateOf(rows[i].end))
      && PatchedRows(r, existing, tenantId, editPattern, request, kind) == r
  {
    var r := PatchedRows(rows, existing, tenantId, editPattern, request, kind);
    forall i | 0 <= i < |rows|
      ensures r[i].id == rows[i].id && r[i].tenantId == rows[i].tenantId && r[i].recurrenceId == rows[i].recurrenceId
      ensures DateOf(r[i].start) == DateOf(rows[i].start) && DateOf(r[i].end) == DateOf(rows[i].end)
      ensures PatchTarget(r[i], existing, tenantId, editPattern) == PatchTarget(rows[i], existing, tenantId, editPattern)
    {
      PatchedBlockMeaning(rows[i], request, kind);
    }
    forall i | 0 <= i < |rows|
      ensures PatchedRows(r, existing, tenantId, editPattern, request, kind)[i] == r[i]
    {
      if PatchTarget(rows[i], existing, tenantId, editPattern) {
        PatchedBlockIdempotent(rows[i], request, kind);
      }
    }
    forall i, j | 0 <= i < j < |r| ensures r[i].id != r[j].id {
      assert rows[i].id != rows[j].id;
    }
    forall b | b in r ensures b.id < nextId && (b.recurrenceId.Some? ==> b.recurrenceId.value < nextId) {
      var i :| 0 <= i < |r| && r[i] == b;
      assert rows[i] in rows;
    }
  }

  /** The checks of PatchTimeBlock, in order; None when all pass. */
  function PatchError(rows: seq<TimeBlock>, id: Id, tenantId: Id, request: PatchTimeBlockRequest): Option<ControllerError>
  {
    match GetTimeBlockById(rows, id)
    case None => Some(TimeBlockNotFound)
    case Some(existing) =>
      if existing.tenantId != tenantId then Some(NotAuthorized)
      else if PatchTimesError(request, existing).Some? then PatchTimesError(request, existing)
      else if request.blockType.Some? && ParseTimeBlockType(request.blockType.value).Err? then Some(InvalidTimeBlockType)
      else None
  }

  /** The parsed type of a patch that passed its checks. */
  function PatchKind(request: PatchTimeBlockRequest): Option<TimeBlockType>
    requires request.blockType.Some? ==> ParseTimeBlockType(request.blockType.value).Ok?
  {
    if request.blockType.Some? then Some(ParseTimeBlockType(request.blockType.value).value) else None
  }

  /** One update of the group loop: the rows already patched stay patched, the block's
    * own row becomes patched, and the others are untouched. */
  lemma PatchGroupStep(rows0: seq<TimeBlock>, before: seq<TimeBlock>, after: seq<TimeBlock>, group: seq<TimeBlock>,
                       k: int, request: PatchTimeBlockRequest, kind: Option<TimeBlockType>)
    requires 0 <= k < |group| && UniqueIds(rows0) && group[k] in rows0
    requires |before| == |rows0| && |after| == |rows0|
    requires forall i :: 0 <= i < |rows0| ==>
      before[i] == if rows0[i] in group[..k] then PatchedBlock(rows0[i], request, kind) else rows0[i]
    requires forall i :: 0 <= i < |rows0| ==>
      after[i] == if before[i].id == group[k].id then ApplyUpdate(before[i], BlockUpdate(group[k], request, kind))
                  else before[i]
    ensures forall i :: 0 <= i < |rows0| ==>
      after[i] == if rows0[i] in group[..k + 1] then PatchedBlock(rows0[i], request, kind) else rows0[i]
  {
    var block := group[k];
    assert group[..k + 1] == group[..k] + [block];
    forall i | 0 <= i < |rows0|
      ensures after[i] == if rows0[i] in group[..k + 1] then PatchedBlock(rows0[i], request, kind) else rows0[i]
    {
      PatchedBlockMeaning(rows0[i], request, kind);
      if rows0[i].id == block.id {
        RS.SameIdSameRow(rows0, rows0[i], block);
        ApplyUpdateIdempotent(block, BlockUpdate(block, request, kind));
      } else {
        assert rows0[i] != block;
      }
    }
  }

  /** The table after the group loop has patched the first k members. */
  ghost predicate PatchedPrefix(rows0: seq<TimeBlock>, rows: seq<TimeBlock>, group: seq<TimeBlock>, k: int,
                                request: PatchTimeBlockRequest, kind: Option<TimeBlockType>)
    requires 0 <= k <= |group|
  {
    |rows| == |rows0|
    && forall i :: 0 <= i < |rows0| ==>
      rows[i] == if rows0[i] in group[..k] then PatchedBlock(rows0[i], request, kind) else rows0[i]
  }

  /** Once the loop has visited the whole group, the table is the patched table. */
  lemma PatchGroupDone(rows0: seq<TimeBlock>, rows: seq<TimeBlock>, group: seq<TimeBlock>, existing: TimeBlock,
                       tenantId: Id, request: PatchTimeBlockRequest, kind: Option<TimeBlockType>)
    requires existing.recurrenceId.Some?
    requires group == GetTimeBlocksByRecurrenceId(rows0, existing.recurrenceId.value, tenantId)
    requires |rows| == |rows0|
    requires forall i :: 0 <= i < |rows0| ==>
      rows[i] == if rows0[i] in group then PatchedBlock(rows0[i], request, kind) else rows0[i]
    ensures rows == PatchedRows(rows0, existing, tenantId, true, request, kind)
  {
  }

  /** One pass of the group loop: the update of the k-th member, against its own dates. */
  method PatchMember(repository: TimeBlockRepository, ghost rows0: seq<TimeBlock>, group: seq<TimeBlock>, k: int,
                     request: PatchTimeBlockRequest, kind: Option<TimeBlockType>)
    requires repository.Valid() && UniqueIds(rows0)
    requires 0 <= k < |group| && group[k] in rows0
    requires PatchedPrefix(rows0, repository.rows, group, k, request, kind)
    modifies repository
    ensures repository.Valid() && repository.nextId == old(repository.nextId)
    ensures PatchedPrefix(rows0, repository.rows, group, k + 1, request, kind)
  {
    var block := group[k];
    ghost var before := repository.rows;
    var _ := repository.UpdateTimeBlock(block.id, BlockUpdate(block, request, kind));
    PatchGroupStep(rows0, before, repository.rows, group, k, request, kind);
  }

  /** The per-block loop of PatchTimeBlock over the group of a recurring block. */
  method PatchGroup(repository: TimeBlockRepository, existing: TimeBlock, tenantId: Id,
                    request: PatchTimeBlockRequest, kind: Option<TimeBlockType>)
    requires repository.Valid() && existing.recurrenceId.Some?
    modifies repository
    ensures repository.Valid() && repository.nextId == old(repository.nextId)
    ensures repository.rows == PatchedRows(old(repository.rows), existing, tenantId, true, request, kind)
  {
    ghost var rows0 := repository.rows;
    var group := GetTimeBlocksByRecurrenceId(repository.rows, existing.recurrenceId.value, tenantId);
    var k := 0;
    while k < |group|
      invariant 0 <= k <= |group|
      invariant repository.Valid() && repository.nextId == old(repository.nextId)
      invariant PatchedPrefix(rows0, repository.rows, group, k, request, kind)
    {
      PatchMember(repository, rows0, group, k, request, kind);
      k := k + 1;
    }
    assert group[..k] == group;
    PatchGroupDone(rows0, repository.rows, group, existing, tenantId, request, kind);
  }

  /** PatchTimeBlock: the checks, in order, leave the table as it was when one fails;
    * otherwise the targets are patched and the patched block is returned. */
  method PatchTimeBlock(repository: TimeBlockRepository, tenantId: Id, id: Id, request: PatchTimeBlockRequest,
                        editPattern: bool)
      returns (result: Result<TimeBlock, ControllerError>)
    requires repository.Valid()
    modifies repository
    ensures repository.Valid() && repository.nextId == old(repository.nextId)
    ensures result.Err? <==> PatchError(old(repository.rows), id, tenantId, request).Some?
    ensures result.Err? ==>
      result.error == PatchError(old(repository.rows), id, tenantId, request).value && repository.rows == old(repository.rows)
    ensures result.Ok? ==>
      var existing := GetTimeBlockById(old(repository.rows), id).value;
      (request.blockType.Some? ==> ParseTimeBlockType(request.blockType.value).Ok?)
      && repository.rows == PatchedRows(old(repository.rows), existing, tenantId, editPattern, request, PatchKind(request))
      && result.value == PatchedBlock(existing, request, PatchKind(request))
  {
    var found := GetTimeBlockById(repository.rows, id);
    if found.None? {
      return Err(TimeBlockNotFound);
    }
    var existing := found.value;
    if existing.tenantId != tenantId {
      return Err(NotAuthorized);
    }
    var timesError := PatchTimesError(request, existing);
    if timesError.Some? {
      return Err(timesError.value);
    }
    var kind: Option<TimeBlockType> := None;
    if request.blockType.Some? {
      var parsed := ParseTimeBlockType(request.blockType.value);
      if parsed.Err? {
        return Err(parsed.error);
      }
      kind := Some(parsed.value);
    }
    result := ApplyPatch(repository, existing, tenantId, request, kind, editPattern);
  }

  /** PatchTimeBlock outside a group edit: one UpdateTimeBlock on the block's own row. */
  method PatchSingle(repository: TimeBlockRepository, existing: TimeBlock, tenantId: Id, request: PatchTimeBlockRequest,
                     kind: Option<TimeBlockType>, editPattern: bool)
      returns (success: bool)
    requires repository.Valid() && existing in repository.rows
    requires !(editPattern && existing.recurrenceId.Some?)
    modifies repository
    ensures repository.Valid() && repository.nextId == old(repository.nextId)
    ensures success
    ensures repository.rows == PatchedRows(old(repository.rows), existing, tenantId, editPattern, request, kind)
  {
    ghost var rows0 := repository.rows;
    success := repository.UpdateTimeBlock(existing.id, BlockUpdate(existing, request, kind));
    forall i | 0 <= i < |rows0| && rows0[i].id == existing.id ensures rows0[i] == existing {
      RS.SameIdSameRow(rows0, rows0[i], existing);
    }
  }

  /** After a patch, reading the block back gives the patched block. */
  lemma PatchedRowsLookup(rows: seq<TimeBlock>, existing: TimeBlock, tenantId: Id, editPattern: bool,
                          request: PatchTimeBlockRequest, kind: Option<TimeBlockType>)
    requires UniqueIds(rows) && existing in rows && existing.tenantId == tenantId
    ensures GetTimeBlockById(PatchedRows(rows, existing, tenantId, editPattern, request, kind), existing.id)
      == Some(PatchedBlock(existing, request, kind))
  {
    var r := PatchedRows(rows, existing, tenantId, editPattern, request, kind);
    forall i | 0 <= i < |rows| ensures r[i].id == rows[i].id {
      PatchedBlockMeaning(rows[i], request, kind);
    }
    forall i, j | 0 <= i < j < |r| ensures BlockId(r[i]) != BlockId(r[j]) {
      assert BlockId(rows[i]) != BlockId(rows[j]);
    }
    var i :| 0 <= i < |rows| && rows[i] == existing;
    assert r[i] == PatchedBlock(existing, request, kind);
  }

  /** PatchTimeBlock once its checks have passed: the group loop or the single update,
    * then the re-read of the block. */
  method ApplyPatch(repository: TimeBlockRepository, existing: TimeBlock, tenantId: Id, request: PatchTimeBlockRequest,
                    kind: Option<TimeBlockType>, editPattern: bool)
      returns (result: Result<TimeBlock, ControllerError>)
    requires repository.Valid() && existing in repository.rows && existing.tenantId == tenantId
    modifies repository
    ensures repository.Valid() && repository.nextId == old(repository.nextId)
    ensures result == Ok(PatchedBlock(existing, request, kind))
    ensures repository.rows == PatchedRows(old(repository.rows), existing, tenantId, editPattern, request, kind)
  {
    var id := existing.id;
    ghost var rows0 := repository.rows;
    if editPattern && existing.recurrenceId.Some? {
      PatchGroup(repository, existing, tenantId, request, kind);
    } else {
      var success := PatchSingle(repository, existing, tenantId, request, kind, editPattern);
      if !success {
        return Err(UpdateFailed);
      }
    }
    PatchedRowsLookup(rows0, existing, tenantId, editPattern, request, kind);
    var updated := GetTimeBlockById(repository.rows, id);
    if updated.None? {
      return Err(InternalServerError);
    }
    result := Ok(updated.value);
  }
}
