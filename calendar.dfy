/** The part of System.DateTime the service relies on, at a resolution of one second.
  * An instant is the number of seconds since 0001-01-01T00:00:00 (the origin of
  * DateTime.Ticks); that day was a Monday. The civil calendar is the proleptic
  * Gregorian one. */
module Calendar {
  import opened Wrappers

  const SecondsPerMinute: int := 60
  const SecondsPerDay: int := 86400

  /** A TimeOnly, or the TimeOfDay of a DateTime: seconds since midnight. */
  type TimeOfDay = s: int | 0 <= s < 86400

  /** DateTime.Date: midnight of the day containing t. */
  function DateOf(t: int): (d: int)
    ensures d % SecondsPerDay == 0
    ensures d <= t < d + SecondsPerDay
  {
    t - t % SecondsPerDay
  }

  /** DateTime.TimeOfDay. */
  function TimeOf(t: int): (s: TimeOfDay)
    ensures DateOf(t) + s == t
  {
    t % SecondsPerDay
  }

  /** DateTime.DayOfWeek, numbered as System.DayOfWeek: 0 = Sunday .. 6 = Saturday. */
  function DayOfWeek(t: int): (w: int)
    ensures 0 <= w < 7
  {
    (t / SecondsPerDay + 1) % 7
  }

  function AddDays(t: int, k: int): int
  {
    t + k * SecondsPerDay
  }

  function AddMinutes(t: int, k: int): int
  {
    t + k * SecondsPerMinute
  }

  lemma DivShift(t: int, k: int)
    ensures (t + k * SecondsPerDay) / SecondsPerDay == t / SecondsPerDay + k
    ensures (t + k * SecondsPerDay) % SecondsPerDay == t % SecondsPerDay
  {
    var q, r := t / SecondsPerDay, t % SecondsPerDay;
    assert t + k * SecondsPerDay == (q + k) * SecondsPerDay + r;
  }

  /** Adding whole days moves the date, keeps the time of day and advances the weekday. */
  lemma AddDaysShift(t: int, k: int)
    ensures DateOf(AddDays(t, k)) == AddDays(DateOf(t), k)
    ensures TimeOf(AddDays(t, k)) == TimeOf(t)
    ensures DayOfWeek(AddDays(t, k)) == (DayOfWeek(t) + k) % 7
  {
    DivShift(t, k);
  }

  /** An instant is its date plus its time of day, and any such sum splits back. */
  lemma SplitInstant(d: int, s: TimeOfDay)
    requires d % SecondsPerDay == 0
    ensures DateOf(d + s) == d && TimeOf(d + s) == s
  {
    DivShift(s, d / SecondsPerDay);
  }

  // ---- civil calendar ----

  predicate IsLeapYear(y: int)
  {
    y % 4 == 0 && (y % 100 != 0 || y % 400 == 0)
  }

  function DaysInYear(y: int): (n: int)
    ensures n == 365 || n == 366
    ensures n == 366 <==> IsLeapYear(y)
  {
    if IsLeapYear(y) then 366 else 365
  }

  /** DateTime.DaysInMonth. */
  function DaysInMonth(y: int, m: int): (n: int)
    requires 1 <= m <= 12
    ensures 28 <= n <= 31
    ensures m == 2 ==> (n == 29 <==> IsLeapYear(y))
    ensures m != 2 ==> (n == 30 <==> m in {4, 6, 9, 11})
  {
    if m == 2 then (if IsLeapYear(y) then 29 else 28)
    else if m == 4 || m == 6 || m == 9 || m == 11 then 30
    else 31
  }

  /** Days of year y before the first of month m (m = 13 gives the whole year). */
  function DaysBeforeMonth(y: int, m: int): (n: nat)
    requires 1 <= m <= 13
  {
    [0, 31, 59, 90, 120, 151, 181, 212, 243, 273, 304, 334, 365][m - 1]
      + (if m > 2 && IsLeapYear(y) then 1 else 0)
  }

  lemma DaysBeforeNextMonth(y: int, m: int)
    requires 1 <= m <= 12
    ensures DaysBeforeMonth(y, m + 1) == DaysBeforeMonth(y, m) + DaysInMonth(y, m)
  {
  }

  lemma DaysBeforeYearEnd(y: int)
    ensures DaysBeforeMonth(y, 13) == DaysInYear(y)
  {
  }

  lemma DaysBeforeMonthMonotone(y: int, m: int, m': int)
    requires 1 <= m <= m' <= 13
    ensures DaysBeforeMonth(y, m) <= DaysBeforeMonth(y, m')
  {
  }

  /** Days from 0001-01-01 to the first of January of year y. */
  function DaysBeforeYear(y: int): nat
    requires y >= 1
  {
    if y == 1 then 0 else DaysBeforeYear(y - 1) + DaysInYear(y - 1)
  }

  lemma {:induction false} DaysBeforeYearMonotone(y: int, y': int)
    requires 1 <= y < y'
    ensures DaysBeforeYear(y) + DaysInYear(y) <= DaysBeforeYear(y')
    decreases y' - y
  {
    if y + 1 < y' {
      DaysBeforeYearMonotone(y + 1, y');
    }
  }

  datatype Civil = Civil(year: int, month: int, day: int)

  predicate ValidCivil(c: Civil)
  {
    c.year >= 1 && 1 <= c.month <= 12 && 1 <= c.day <= DaysInMonth(c.year, c.month)
  }

  /** Days from 0001-01-01 to the civil date c. */
  function DayNumber(c: Civil): nat
    requires ValidCivil(c)
  {
    DaysBeforeYear(c.year) + DaysBeforeMonth(c.year, c.month) + c.day - 1
  }

  /** The year containing day n of the count that starts at year y, and the day within it. */
  function YearFrom(y: int, n: nat): (r: (int, nat))
    requires y >= 1
    ensures r.0 >= y && r.1 < DaysInYear(r.0)
    ensures DaysBeforeYear(r.0) + r.1 == DaysBeforeYear(y) + n
    decreases n
  {
    if n < DaysInYear(y) then (y, n) else YearFrom(y + 1, n - DaysInYear(y))
  }

  /** The month of year y containing day n of the count that starts at month m. */
  function MonthFrom(y: int, m: int, n: nat): (r: (int, nat))
    requires 1 <= m <= 12
    requires DaysBeforeMonth(y, m) + n < DaysInYear(y)
    ensures m <= r.0 <= 12 && r.1 < DaysInMonth(y, r.0)
    ensures DaysBeforeMonth(y, r.0) + r.1 == DaysBeforeMonth(y, m) + n
    decreases 12 - m
  {
    DaysBeforeNextMonth(y, m);
    if n < DaysInMonth(y, m) then (m, n)
    else
      DaysBeforeYearEnd(y);
      MonthFrom(y, m + 1, n - DaysInMonth(y, m))
  }

  /** The civil date of day number n. */
  function CivilOfDay(n: nat): (c: Civil)
    ensures ValidCivil(c) && DayNumber(c) == n
  {
    var (y, rest) := YearFrom(1, n);
    DaysBeforeYearEnd(y);
    var (m, d0) := MonthFrom(y, 1, rest);
    Civil(y, m, d0 + 1)
  }

  lemma {:induction false} YearFromDayNumber(y0: int, y: int, k: nat)
    requires 1 <= y0 <= y && k < DaysInYear(y)
    ensures DaysBeforeYear(y0) <= DaysBeforeYear(y)
    ensures YearFrom(y0, DaysBeforeYear(y) - DaysBeforeYear(y0) + k) == (y, k)
    decreases y - y0
  {
    if y0 < y {
      DaysBeforeYearMonotone(y0, y);
      YearFromDayNumber(y0 + 1, y, k);
    }
  }

  lemma {:induction false} MonthFromDayNumber(y: int, m0: int, m: int, k: nat)
    requires 1 <= m0 <= m <= 12 && k < DaysInMonth(y, m)
    ensures DaysBeforeMonth(y, m0) <= DaysBeforeMonth(y, m)
    ensures DaysBeforeMonth(y, m) + k < DaysInYear(y)
    ensures MonthFrom(y, m0, DaysBeforeMonth(y, m) - DaysBeforeMonth(y, m0) + k) == (m, k)
    decreases m - m0
  {
    DaysBeforeMonthMonotone(y, m0, m);
    DaysBeforeNextMonth(y, m);
    DaysBeforeMonthMonotone(y, m + 1, 13);
    DaysBeforeYearEnd(y);
    if m0 < m {
      DaysBeforeNextMonth(y, m0);
      MonthFromDayNumber(y, m0 + 1, m, k);
    }
  }

  /** Day numbers and civil dates are in one-to-one correspondence. */
  lemma CivilOfDayNumber(c: Civil)
    requires ValidCivil(c)
    ensures CivilOfDay(DayNumber(c)) == c
  {
    var n := DayNumber(c);
    MonthFromDayNumber(c.year, 1, c.month, c.day - 1);
    YearFromDayNumber(1, c.year, DaysBeforeMonth(c.year, c.month) + c.day - 1);
  }

  /** The civil date (Year, Month, Day) of an instant. */
  function CivilOf(t: int): (c: Civil)
    requires t >= 0
    ensures ValidCivil(c) && DayNumber(c) * SecondsPerDay == DateOf(t)
  {
    CivilOfDay(t / SecondsPerDay)
  }

  /** new DateTime(year, month, day) plus a time of day. */
  function MakeInstant(c: Civil, tod: TimeOfDay): (t: int)
    requires ValidCivil(c)
    ensures t >= 0 && CivilOf(t) == c && TimeOf(t) == tod
  {
    var n := DayNumber(c);
    DivShift(tod, n);
    assert (tod + n * SecondsPerDay) / SecondsPerDay == n;
    CivilOfDayNumber(c);
    n * SecondsPerDay + tod
  }

  /** Month index counted from January of year 1, used to speak of "k months later". */
  function MonthIndex(c: Civil): int
  {
    c.year * 12 + c.month
  }

  /** DateTime.AddMonths: the same day in the month k months later, clamped to that
    * month's length, at the same time of day. */
  function AddMonths(t: int, k: nat): (r: int)
    requires t >= 0
    ensures r >= 0 && TimeOf(r) == TimeOf(t)
    ensures MonthIndex(CivilOf(r)) == MonthIndex(CivilOf(t)) + k
    ensures CivilOf(r).day == Min(CivilOf(t).day, DaysInMonth(CivilOf(r).year, CivilOf(r).month))
  {
    var c := CivilOf(t);
    var i := c.month - 1 + k;
    var y', m' := c.year + i / 12, i % 12 + 1;
    MakeInstant(Civil(y', m', Min(c.day, DaysInMonth(y', m'))), TimeOf(t))
  }

  /** A civil date in a later month has a larger day number. */
  lemma LaterMonthLaterDay(c: Civil, c': Civil)
    requires ValidCivil(c) && ValidCivil(c')
    requires MonthIndex(c) < MonthIndex(c')
    ensures DayNumber(c) < DayNumber(c')
  {
    DaysBeforeNextMonth(c.year, c.month);
    if c.year == c'.year {
      DaysBeforeMonthMonotone(c.year, c.month + 1, c'.month);
    } else {
      DaysBeforeMonthMonotone(c.year, c.month + 1, 13);
      DaysBeforeYearEnd(c.year);
      DaysBeforeYearMonotone(c.year, c'.year);
    }
  }

  /** Adding at least one month moves an instant strictly forward. */
  lemma AddMonthsIsLater(t: int, k: nat)
    requires t >= 0 && k >= 1
    ensures AddMonths(t, k) > t
  {
    var r := AddMonths(t, k);
    LaterMonthLaterDay(CivilOf(t), CivilOf(r));
  }

  /** The same date and time of day means the same instant. */
  lemma SameDateAndTime(t: int, u: int)
    requires DateOf(t) == DateOf(u) && TimeOf(t) == TimeOf(u)
    ensures t == u
  {
  }

  /** Instants with the same civil date share their DateOf. */
  lemma CivilDetermines(t: int, u: int)
    requires t >= 0 && u >= 0
    requires CivilOf(t) == CivilOf(u)
    ensures DateOf(t) == DateOf(u)
  {
  }
}
