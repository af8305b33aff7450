/** The RecurrencePattern entity: how a time block repeats. It is never stored; the
  * recurrence expander turns it into concrete time blocks right away. */
module RecurrencePatterns {
  import opened Wrappers

  datatype RecurrenceFrequency = Daily | Weekly | Monthly | Yearly

  /** `daysOfWeek` holds System.DayOfWeek numbers (0 = Sunday); either selector array may
    * be null, written None. Instants are seconds, as in the Calendar module. */
  datatype RecurrencePattern = RecurrencePattern(
    frequency: RecurrenceFrequency,
    interval: int,
    daysOfWeek: Option<seq<int>>,
    daysOfMonth: Option<seq<int>>,
    endDate: Option<int>,
    maxOccurrences: Option<int>)
  {
    predicate HasDaysOfWeek()
    {
      daysOfWeek.Some? && |daysOfWeek.value| > 0
    }

    predicate HasDaysOfMonth()
    {
      daysOfMonth.Some? && |daysOfMonth.value| > 0
    }
  }

  /** `new RecurrencePattern()`: the property initialisers. */
  function NewPattern(): (p: RecurrencePattern)
    ensures p.frequency == Daily && p.interval == 1
    ensures p.daysOfWeek == None && p.daysOfMonth == Some([])
    ensures p.endDate == None && p.maxOccurrences == None
    ensures !p.HasDaysOfWeek() && !p.HasDaysOfMonth()
  {
    RecurrencePattern(Daily, 1, None, Some([]), None, None)
  }

  /** RecurrencePattern.Daily: no selectors at all. */
  function DailyPattern(interval: int, endDate: Option<int>, maxOccurrences: Option<int>): (p: RecurrencePattern)
    ensures p.frequency == Daily && p.interval == interval
    ensures p.endDate == endDate && p.maxOccurrences == maxOccurrences
    ensures !p.HasDaysOfWeek() && !p.HasDaysOfMonth()
  {
    NewPattern().(interval := interval, endDate := endDate, maxOccurrences := maxOccurrences)
  }

  /** RecurrencePattern.Weekly: the given days, stored as they are. */
  function WeeklyPattern(daysOfWeek: seq<int>, interval: int, endDate: Option<int>, maxOccurrences: Option<int>): (p: RecurrencePattern)
    ensures p.frequency == Weekly && p.interval == interval
    ensures p.daysOfWeek == Some(daysOfWeek) && !p.HasDaysOfMonth()
    ensures p.HasDaysOfWeek() <==> daysOfWeek != []
    ensures p.endDate == endDate && p.maxOccurrences == maxOccurrences
  {
    NewPattern().(frequency := Weekly, interval := interval, daysOfWeek := Some(daysOfWeek),
                  endDate := endDate, maxOccurrences := maxOccurrences)
  }

  /** RecurrencePattern.Weekdays: weekly on Monday through Friday. */
  function Weekdays(interval: int, endDate: Option<int>, maxOccurrences: Option<int>): (p: RecurrencePattern)
    ensures p.frequency == Weekly && p.HasDaysOfWeek() && !p.HasDaysOfMonth()
    ensures forall d :: d in p.daysOfWeek.value <==> 1 <= d <= 5
    ensures p.interval == interval && p.endDate == endDate && p.maxOccurrences == maxOccurrences
  {
    WeeklyPattern([1, 2, 3, 4, 5], interval, endDate, maxOccurrences)
  }

  /** RecurrencePattern.Weekends: weekly on Saturday and Sunday. */
  function Weekends(interval: int, endDate: Option<int>, maxOccurrences: Option<int>): (p: RecurrencePattern)
    ensures p.frequency == Weekly && p.HasDaysOfWeek() && !p.HasDaysOfMonth()
    ensures forall d :: d in p.daysOfWeek.value <==> d == 0 || d == 6
    ensures p.interval == interval && p.endDate == endDate && p.maxOccurrences == maxOccurrences
  {
    WeeklyPattern([6, 0], interval, endDate, maxOccurrences)
  }

  /** RecurrencePattern.Monthly(int[]): the given days, stored as they are. */
  function MonthlyDays(daysOfMonth: seq<int>, interval: int, endDate: Option<int>, maxOccurrences: Option<int>): (p: RecurrencePattern)
    ensures p.frequency == Monthly && !p.HasDaysOfWeek()
    ensures p.daysOfMonth == Some(daysOfMonth)
    ensures p.HasDaysOfMonth() <==> daysOfMonth != []
    ensures p.interval == interval && p.endDate == endDate && p.maxOccurrences == maxOccurrences
  {
    NewPattern().(frequency := Monthly, interval := interval, daysOfMonth := Some(daysOfMonth),
                  endDate := endDate, maxOccurrences := maxOccurrences)
  }

  /** RecurrencePattern.Monthly(int): a single day of the month. */
  function MonthlyDay(dayOfMonth: int, interval: int, endDate: Option<int>, maxOccurrences: Option<int>): (p: RecurrencePattern)
    ensures p.frequency == Monthly && !p.HasDaysOfWeek() && p.HasDaysOfMonth()
    ensures p.daysOfMonth == Some([dayOfMonth])
    ensures p.interval == interval && p.endDate == endDate && p.maxOccurrences == maxOccurrences
  {
    MonthlyDays([dayOfMonth], interval, endDate, maxOccurrences)
  }
}
