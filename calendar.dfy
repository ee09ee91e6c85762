/** Local wall-clock time and the month and year arithmetic of JavaScript's
    `Date` (`setMonth`, `setFullYear`): a day past the end of the target month
    runs on into the month after it. */
module LocalCalendar {
  /** A local date and time; `month0` counts from 0 as in `getMonth()`. */
  datatype LocalTime = LocalTime(year: int, month0: int, day: int, msOfDay: int)

  const MsPerDay: int := 86400000

  predicate LeapYear(y: int) {
    y % 4 == 0 && (y % 100 != 0 || y % 400 == 0)
  }

  /** Days in month m (from 0) of year y, in the proleptic Gregorian calendar. */
  function DaysIn(y: int, m: int): (n: int)
    requires 0 <= m < 12
    ensures 28 <= n <= 31
  {
    if m == 1 then (if LeapYear(y) then 29 else 28)
    else if m == 3 || m == 5 || m == 8 || m == 10 then 30
    else 31
  }

  /** Months counted from January of year 0. */
  function MonthIndex(t: LocalTime): int {
    t.year * 12 + t.month0
  }

  /** Days in the month with the given index. */
  function DaysInIndex(mi: int): (n: int)
    ensures 28 <= n <= 31
  {
    DaysIn(mi / 12, mi % 12)
  }

  predicate ValidTime(t: LocalTime) {
    0 <= t.month0 < 12 && 1 <= t.day <= DaysIn(t.year, t.month0) && 0 <= t.msOfDay < MsPerDay
  }

  /** Strictly earlier. */
  predicate Before(a: LocalTime, b: LocalTime) {
    || MonthIndex(a) < MonthIndex(b)
    || (MonthIndex(a) == MonthIndex(b) && (a.day < b.day || (a.day == b.day && a.msOfDay < b.msOfDay)))
  }

  /** The time `day` days into month `mi` (day 1 is the first): a day past the
      month's end is carried into the following month. */
  function MakeTime(mi: int, day: int, ms: int): LocalTime
    requires 1 <= day <= 31
  {
    if day <= DaysInIndex(mi) then LocalTime(mi / 12, mi % 12, day, ms)
    else LocalTime((mi + 1) / 12, (mi + 1) % 12, day - DaysInIndex(mi), ms)
  }

  /** `d.setMonth(d.getMonth() + 1)`. */
  function AddMonth(t: LocalTime): LocalTime
    requires ValidTime(t)
  {
    MakeTime(MonthIndex(t) + 1, t.day, t.msOfDay)
  }

  /** `d.setFullYear(d.getFullYear() + 1)`. */
  function AddYear(t: LocalTime): LocalTime
    requires ValidTime(t)
  {
    MakeTime(MonthIndex(t) + 12, t.day, t.msOfDay)
  }

  /** The day lands in month mi when it fits, and otherwise at most three days
      into the next month; the time of day is kept. */
  lemma MakeTimeSpec(mi: int, day: int, ms: int)
    requires 1 <= day <= 31 && 0 <= ms < MsPerDay
    ensures var r := MakeTime(mi, day, ms);
      && ValidTime(r) && r.msOfDay == ms
      && (day <= DaysInIndex(mi) ==> MonthIndex(r) == mi && r.day == day)
      && (day > DaysInIndex(mi) ==> MonthIndex(r) == mi + 1 && r.day == day - DaysInIndex(mi) && r.day <= 3)
  {
    var r := MakeTime(mi, day, ms);
    if day <= DaysInIndex(mi) {
      assert MonthIndex(r) == mi;
    } else {
      assert MonthIndex(r) == mi + 1;
      assert DaysIn(r.year, r.month0) >= 28;
    }
  }

  /** One month on: the same day of the next month when it has that day,
      otherwise the overflow days into the month after. */
  lemma AddMonthSpec(t: LocalTime)
    requires ValidTime(t)
    ensures var r := AddMonth(t);
      && ValidTime(r) && Before(t, r) && r.msOfDay == t.msOfDay
      && (t.day <= DaysInIndex(MonthIndex(t) + 1) ==> MonthIndex(r) == MonthIndex(t) + 1 && r.day == t.day)
      && (t.day > DaysInIndex(MonthIndex(t) + 1) ==>
            MonthIndex(r) == MonthIndex(t) + 2 && r.day == t.day - DaysInIndex(MonthIndex(t) + 1))
  {
    MakeTimeSpec(MonthIndex(t) + 1, t.day, t.msOfDay);
  }

  /** One year on: the same day of the same month of the next year, except
      that 29 February becomes 1 March. */
  lemma AddYearSpec(t: LocalTime)
    requires ValidTime(t)
    ensures var r := AddYear(t);
      && ValidTime(r) && Before(t, r) && r.msOfDay == t.msOfDay
      && (t.day <= DaysInIndex(MonthIndex(t) + 12) ==> MonthIndex(r) == MonthIndex(t) + 12 && r.day == t.day)
      && (t.day > DaysInIndex(MonthIndex(t) + 12) ==>
            t.month0 == 1 && t.day == 29 && r.year == t.year + 1 && r.month0 == 2 && r.day == 1)
  {
    var mi := MonthIndex(t) + 12;
    MakeTimeSpec(mi, t.day, t.msOfDay);
    assert mi / 12 == t.year + 1 && mi % 12 == t.month0;
    if t.day > DaysInIndex(mi) {
      assert t.month0 == 1;
      assert (mi + 1) / 12 == t.year + 1 && (mi + 1) % 12 == 2;
    }
  }
}
