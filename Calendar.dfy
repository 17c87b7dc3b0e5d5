/**
 * The local calendar of the host's Date object, as far as the finance core uses it.
 *
 * An instant is a number of milliseconds counted in LOCAL time from 1970-01-01 00:00
 * (the host's UTC offset is folded in). Months are numbered 0..11 as `getMonth()`
 * returns them; days of the month 1..31 as `getDate()` returns them.
 */
module Calendar {

  const MsPerSecond: int := 1000
  const MsPerMinute: int := 60000
  const MsPerHour: int := 3600000
  const MsPerDay: int := 86400000

  datatype Ymd = Ymd(year: int, month: int, day: int)

  predicate IsLeap(y: int) {
    y % 4 == 0 && (y % 100 != 0 || y % 400 == 0)
  }

  function DaysInYear(y: int): int {
    if IsLeap(y) then 366 else 365
  }

  /** Gregorian length of month `m` (0 = January) of year `y`. */
  function DaysInMonth(y: int, m: int): (n: int)
    requires 0 <= m < 12
    ensures 28 <= n <= 31
    ensures n == 29 <==> m == 1 && IsLeap(y)
  {
    if m == 1 then (if IsLeap(y) then 29 else 28)
    else if m == 3 || m == 5 || m == 8 || m == 10 then 30
    else 31
  }

  /** Days from 1970-01-01 to January 1st of year `y` (negative before 1970), year by year. */
  function DaysBeforeYear(y: int): int
    decreases if y < 1970 then 1970 - y else y - 1970
  {
    if y == 1970 then 0
    else if y > 1970 then DaysBeforeYear(y - 1) + DaysInYear(y - 1)
    else DaysBeforeYear(y + 1) - DaysInYear(y)
  }

  /** Day of the year on which month `m` starts (0 = January 1st); `m == 12` gives the year length. */
  function DaysBeforeMonth(y: int, m: int): int
    requires 0 <= m <= 12
  {
    var common :=
      if m < 6 then
        (if m == 0 then 0 else if m == 1 then 31 else if m == 2 then 59
         else if m == 3 then 90 else if m == 4 then 120 else 151)
      else
        (if m == 6 then 181 else if m == 7 then 212 else if m == 8 then 243
         else if m == 9 then 273 else if m == 10 then 304 else if m == 11 then 334 else 365);
    common + (if m >= 2 && IsLeap(y) then 1 else 0)
  }

  /** The day number of year `y`, month `m` (0..11), day `d`; any `d` is accepted and overflows linearly. */
  function DayFromCivil(y: int, m: int, d: int): int
    requires 0 <= m < 12
  {
    DaysBeforeYear(y) + DaysBeforeMonth(y, m) + d - 1
  }

  /** The ECMAScript MakeDay operation: an out-of-range month moves the year, an out-of-range day moves the month. */
  function MakeDay(y: int, m: int, d: int): int {
    DayFromCivil(y + m / 12, m % 12, d)
  }

  function MakeTime(h: int, min: int, s: int, ms: int): int {
    h * MsPerHour + min * MsPerMinute + s * MsPerSecond + ms
  }

  function MakeDate(day: int, time: int): int {
    day * MsPerDay + time
  }

  /** The year argument of `new Date(y, m, d, ...)`: the host adds 1900 to a year in 0..99. */
  function ConstructorYear(y: int): int {
    if 0 <= y <= 99 then 1900 + y else y
  }

  /** `new Date(y, m, d, h, min, s).getTime()` in local time. */
  function NewDate(y: int, m: int, d: int, h: int, min: int, s: int): int {
    MakeDate(MakeDay(ConstructorYear(y), m, d), MakeTime(h, min, s, 0))
  }

  function Day(t: int): int {
    t / MsPerDay
  }

  function TimeWithinDay(t: int): (r: int)
    ensures 0 <= r < MsPerDay
    ensures t == Day(t) * MsPerDay + r
  {
    t % MsPerDay
  }

  // ----- how many days a year and a month take -----

  /** Consecutive year starts are one year length apart. */
  lemma YearLength(y: int)
    ensures DaysBeforeYear(y + 1) - DaysBeforeYear(y) == DaysInYear(y)
  {
    if y < 1970 {
      assert DaysBeforeYear(y) == DaysBeforeYear(y + 1) - DaysInYear(y);
    }
  }

  lemma {:induction false} YearStartsMonotone(a: int, b: int)
    requires a <= b
    ensures DaysBeforeYear(a) + 365 * (b - a) <= DaysBeforeYear(b)
    decreases b - a
  {
    if a < b {
      YearStartsMonotone(a, b - 1);
      YearLength(b - 1);
    }
  }

  /** A day number lies in exactly one year. */
  lemma YearUnique(z: int, a: int, b: int)
    requires DaysBeforeYear(a) <= z < DaysBeforeYear(a + 1)
    requires DaysBeforeYear(b) <= z < DaysBeforeYear(b + 1)
    ensures a == b
  {
    if a < b {
      YearStartsMonotone(a + 1, b);
    } else if b < a {
      YearStartsMonotone(b + 1, a);
    }
  }

  /** The cumulative month table agrees with the month lengths, and ends with the year length. */
  lemma MonthLength(y: int, m: int)
    requires 0 <= m < 12
    ensures DaysBeforeMonth(y, m + 1) == DaysBeforeMonth(y, m) + DaysInMonth(y, m)
    ensures DaysBeforeMonth(y, 0) == 0 && DaysBeforeMonth(y, 12) == DaysInYear(y)
  {
  }

  lemma MonthStartsMonotone(y: int, a: int, b: int)
    requires 0 <= a <= b <= 12
    ensures DaysBeforeMonth(y, a) <= DaysBeforeMonth(y, b)
    ensures a < b ==> DaysBeforeMonth(y, a) < DaysBeforeMonth(y, b)
  {
  }

  // ----- from a day number back to year, month and day -----

  function MonthSearch(y: int, r: int, m: int): (k: int)
    requires 0 <= m < 12
    requires 0 <= r < DaysBeforeMonth(y, m + 1)
    ensures 0 <= k <= m
    ensures DaysBeforeMonth(y, k) <= r < DaysBeforeMonth(y, k + 1)
    decreases m
  {
    if DaysBeforeMonth(y, m) <= r then m else MonthSearch(y, r, m - 1)
  }

  /** The calendar date of day `z` of year `y`. */
  function InYear(z: int, y: int): (c: Ymd)
    requires DaysBeforeYear(y) <= z < DaysBeforeYear(y + 1)
    ensures c.year == y && 0 <= c.month < 12 && 1 <= c.day <= DaysInMonth(c.year, c.month)
    ensures DayFromCivil(c.year, c.month, c.day) == z
  {
    YearLength(y);
    MonthLength(y, 11);
    var r := z - DaysBeforeYear(y);
    var m := MonthSearch(y, r, 11);
    MonthLength(y, m);
    Ymd(y, m, r - DaysBeforeMonth(y, m) + 1)
  }

  /** The calendar date of day `z`, searching the years upwards from `y`. */
  function CivilUp(z: int, y: int): (c: Ymd)
    requires DaysBeforeYear(y) <= z
    ensures 0 <= c.month < 12 && 1 <= c.day <= DaysInMonth(c.year, c.month)
    ensures DayFromCivil(c.year, c.month, c.day) == z
    decreases z - DaysBeforeYear(y)
  {
    YearLength(y);
    if z < DaysBeforeYear(y + 1) then InYear(z, y) else CivilUp(z, y + 1)
  }

  /** The calendar date of day `z`, searching the years downwards from `y`. */
  function CivilDown(z: int, y: int): (c: Ymd)
    requires z < DaysBeforeYear(y + 1)
    ensures 0 <= c.month < 12 && 1 <= c.day <= DaysInMonth(c.year, c.month)
    ensures DayFromCivil(c.year, c.month, c.day) == z
    decreases DaysBeforeYear(y + 1) - z
  {
    YearLength(y);
    if DaysBeforeYear(y) <= z then InYear(z, y) else CivilDown(z, y - 1)
  }

  /** The calendar date of a day number; it is the only valid date that maps back to it. */
  function CivilOfDay(z: int): (c: Ymd)
    ensures 0 <= c.month < 12 && 1 <= c.day <= DaysInMonth(c.year, c.month)
    ensures DayFromCivil(c.year, c.month, c.day) == z
  {
    if z >= 0 then CivilUp(z, 1970) else CivilDown(z, 1969)
  }

  /** A valid date's day number lies in its year, and in its month within that year. */
  lemma WithinYear(y: int, m: int, d: int)
    requires 0 <= m < 12 && 1 <= d <= DaysInMonth(y, m)
    ensures DaysBeforeYear(y) <= DayFromCivil(y, m, d) < DaysBeforeYear(y + 1)
    ensures DaysBeforeMonth(y, m) <= DayFromCivil(y, m, d) - DaysBeforeYear(y) < DaysBeforeMonth(y, m + 1)
  {
    MonthLength(y, m);
    MonthStartsMonotone(y, m + 1, 12);
    MonthLength(y, 11);
    YearLength(y);
  }

  /** A day of the year lies in exactly one month. */
  lemma MonthUnique(y: int, r: int, a: int, b: int)
    requires 0 <= a < 12 && 0 <= b < 12
    requires DaysBeforeMonth(y, a) <= r < DaysBeforeMonth(y, a + 1)
    requires DaysBeforeMonth(y, b) <= r < DaysBeforeMonth(y, b + 1)
    ensures a == b
  {
    if a < b {
      MonthStartsMonotone(y, a + 1, b);
    } else if b < a {
      MonthStartsMonotone(y, b + 1, a);
    }
  }

  /** Two valid dates with the same day number are the same date. */
  lemma CivilUnique(c: Ymd, e: Ymd)
    requires 0 <= c.month < 12 && 1 <= c.day <= DaysInMonth(c.year, c.month)
    requires 0 <= e.month < 12 && 1 <= e.day <= DaysInMonth(e.year, e.month)
    requires DayFromCivil(c.year, c.month, c.day) == DayFromCivil(e.year, e.month, e.day)
    ensures c == e
  {
    var z := DayFromCivil(c.year, c.month, c.day);
    WithinYear(c.year, c.month, c.day);
    WithinYear(e.year, e.month, e.day);
    YearUnique(z, c.year, e.year);
    MonthUnique(c.year, z - DaysBeforeYear(c.year), c.month, e.month);
  }

  /** Every valid calendar date is the date of its own day number. */
  lemma CivilRoundTrip(y: int, m: int, d: int)
    requires 0 <= m < 12 && 1 <= d <= DaysInMonth(y, m)
    ensures CivilOfDay(DayFromCivil(y, m, d)) == Ymd(y, m, d)
  {
    CivilUnique(CivilOfDay(DayFromCivil(y, m, d)), Ymd(y, m, d));
  }

  // ----- the getters and setters of Date -----

  function Civil(t: int): Ymd {
    CivilOfDay(Day(t))
  }

  /** `getFullYear()` */
  function FullYear(t: int): int {
    Civil(t).year
  }

  /** `getMonth()`, 0..11 */
  function Month(t: int): (m: int)
    ensures 0 <= m < 12
  {
    Civil(t).month
  }

  /** `getDate()`, 1..31 */
  function DayOfMonth(t: int): (d: int)
    ensures 1 <= d <= DaysInMonth(FullYear(t), Month(t))
  {
    Civil(t).day
  }

  /** `getDay()`, 0 (Sunday) .. 6 (Saturday); 1970-01-01 was a Thursday. */
  function WeekDay(t: int): (w: int)
    ensures 0 <= w < 7
  {
    (Day(t) + 4) % 7
  }

  /** `setDate(d)`: keeps year, month and time of day, overflowing `d` through MakeDay. */
  function SetDate(t: int, d: int): int {
    MakeDate(MakeDay(FullYear(t), Month(t), d), TimeWithinDay(t))
  }

  /** `setMonth(m)`: keeps year, day of month and time of day, overflowing through MakeDay. */
  function SetMonth(t: int, m: int): int {
    MakeDate(MakeDay(FullYear(t), m, DayOfMonth(t)), TimeWithinDay(t))
  }

  /** `new Date(t.getFullYear(), t.getMonth(), t.getDate()).getTime()`: local midnight of `t`'s day. */
  function Midnight(t: int): int {
    NewDate(FullYear(t), Month(t), DayOfMonth(t), 0, 0, 0)
  }

  lemma MakeDayInRange(y: int, m: int, d: int)
    requires 0 <= m < 12
    ensures MakeDay(y, m, d) == DayFromCivil(y, m, d)
  {
    assert m / 12 == 0 && m % 12 == m;
  }

  lemma DayOfInstant(t: int)
    ensures DayFromCivil(FullYear(t), Month(t), DayOfMonth(t)) == Day(t)
  {
  }

  lemma DayOfMakeDate(day: int, time: int)
    requires 0 <= time < MsPerDay
    ensures Day(MakeDate(day, time)) == day
    ensures TimeWithinDay(MakeDate(day, time)) == time
  {
  }

  /** Moving the day of the month by `k` with `setDate` moves the instant by exactly `k` whole days. */
  lemma SetDateShift(t: int, k: int)
    ensures SetDate(t, DayOfMonth(t) + k) == t + k * MsPerDay
  {
    DayOfInstant(t);
    MakeDayInRange(FullYear(t), Month(t), DayOfMonth(t) + k);
    var z := MakeDay(FullYear(t), Month(t), DayOfMonth(t) + k);
    assert z == Day(t) + k;
    calc {
      SetDate(t, DayOfMonth(t) + k);
      z * MsPerDay + TimeWithinDay(t);
      (Day(t) + k) * MsPerDay + TimeWithinDay(t);
      { assert (Day(t) + k) * MsPerDay == Day(t) * MsPerDay + k * MsPerDay; }
      t + k * MsPerDay;
    }
  }

  /** The local midnight of an instant is the start of its day, for years the constructor does not remap. */
  lemma MidnightIsStartOfDay(t: int)
    requires !(0 <= FullYear(t) <= 99)
    ensures Midnight(t) == Day(t) * MsPerDay
    ensures Midnight(t) <= t < Midnight(t) + MsPerDay
  {
    DayOfInstant(t);
    MakeDayInRange(FullYear(t), Month(t), DayOfMonth(t));
    assert ConstructorYear(FullYear(t)) == FullYear(t);
    assert MakeTime(0, 0, 0, 0) == 0;
    assert Midnight(t) == MakeDate(Day(t), 0);
    assert TimeWithinDay(t) == t - Day(t) * MsPerDay;
  }

  /** The calendar view of `new Date(y, m, d, h, min, s)` for in-range arguments. */
  lemma NewDateCivil(y: int, m: int, d: int, h: int, min: int, s: int)
    requires !(0 <= y <= 99) && 0 <= m < 12 && 1 <= d <= DaysInMonth(y, m)
    requires 0 <= h < 24 && 0 <= min < 60 && 0 <= s < 60
    ensures Civil(NewDate(y, m, d, h, min, s)) == Ymd(y, m, d)
    ensures Day(NewDate(y, m, d, h, min, s)) == DayFromCivil(y, m, d)
    ensures TimeWithinDay(NewDate(y, m, d, h, min, s)) == MakeTime(h, min, s, 0)
  {
    MakeDayInRange(y, m, d);
    DayOfMakeDate(DayFromCivil(y, m, d), MakeTime(h, min, s, 0));
    CivilRoundTrip(y, m, d);
  }

  /** `new Date(y, m + 1, 0).getDate()` is the length of month `m`: the idiom the pages use for it. */
  lemma DayZeroOfNextMonth(y: int, m: int)
    requires 0 <= m < 12
    ensures MakeDay(y, m + 1, 0) == DayFromCivil(y, m, DaysInMonth(y, m))
    ensures CivilOfDay(MakeDay(y, m + 1, 0)) == Ymd(y, m, DaysInMonth(y, m))
  {
    DayZeroDay(y, m);
    CivilRoundTrip(y, m, DaysInMonth(y, m));
  }

  lemma DayZeroDay(y: int, m: int)
    requires 0 <= m < 12
    ensures MakeDay(y, m + 1, 0) == DayFromCivil(y, m, DaysInMonth(y, m))
  {
    MonthLength(y, m);
    if m < 11 {
      MakeDayInRange(y, m + 1, 0);
    } else {
      assert (m + 1) / 12 == 1 && (m + 1) % 12 == 0;
      YearLength(y);
    }
  }

  /** The calendar date, day number and time of day of an instant built from a valid date. */
  lemma MakeDateCivil(y: int, m: int, d: int, time: int)
    requires 0 <= m < 12 && 1 <= d <= DaysInMonth(y, m) && 0 <= time < MsPerDay
    ensures Civil(MakeDate(DayFromCivil(y, m, d), time)) == Ymd(y, m, d)
    ensures Day(MakeDate(DayFromCivil(y, m, d), time)) == DayFromCivil(y, m, d)
    ensures TimeWithinDay(MakeDate(DayFromCivil(y, m, d), time)) == time
  {
    DayOfMakeDate(DayFromCivil(y, m, d), time);
    CivilRoundTrip(y, m, d);
  }

  /** `setDate(d)` with a day inside the month moves to that day and keeps the time of day. */
  lemma SetDateCivil(t: int, d: int)
    requires 1 <= d <= DaysInMonth(FullYear(t), Month(t))
    ensures Civil(SetDate(t, d)) == Ymd(FullYear(t), Month(t), d)
    ensures Day(SetDate(t, d)) == DayFromCivil(FullYear(t), Month(t), d)
    ensures TimeWithinDay(SetDate(t, d)) == TimeWithinDay(t)
  {
    MakeDayInRange(FullYear(t), Month(t), d);
    MakeDateCivil(FullYear(t), Month(t), d, TimeWithinDay(t));
  }

  /** On the 1st of a month, `setMonth(getMonth() - 1)` moves to the 1st of the previous month. */
  lemma SetMonthBackCivil(t: int)
    requires DayOfMonth(t) == 1
    ensures Civil(SetMonth(t, Month(t) - 1))
         == if Month(t) == 0 then Ymd(FullYear(t) - 1, 11, 1) else Ymd(FullYear(t), Month(t) - 1, 1)
    ensures TimeWithinDay(SetMonth(t, Month(t) - 1)) == TimeWithinDay(t)
  {
    var y := FullYear(t);
    var m := Month(t);
    if m == 0 {
      assert (m - 1) / 12 == -1 && (m - 1) % 12 == 11;
      assert MakeDay(y, m - 1, 1) == DayFromCivil(y - 1, 11, 1);
      MakeDateCivil(y - 1, 11, 1, TimeWithinDay(t));
    } else {
      MakeDayInRange(y, m - 1, 1);
      MakeDateCivil(y, m - 1, 1, TimeWithinDay(t));
    }
  }

  /** `new Date(y, m, 1)` for a year the constructor keeps: 00:00 on the 1st. */
  lemma FirstOfMonthCivil(y: int, m: int)
    requires !(0 <= y <= 99) && 0 <= m < 12
    ensures Civil(NewDate(y, m, 1, 0, 0, 0)) == Ymd(y, m, 1)
    ensures Day(NewDate(y, m, 1, 0, 0, 0)) == DayFromCivil(y, m, 1)
    ensures NewDate(y, m, 1, 0, 0, 0) == DayFromCivil(y, m, 1) * MsPerDay
  {
    MakeDayInRange(y, m, 1);
    MakeDateCivil(y, m, 1, 0);
  }

  /** `new Date(y, m + 1, 0, h, min, s)` for a year the constructor keeps: month `m`'s last day at that time. */
  lemma LastOfMonthCivil(y: int, m: int, h: int, min: int, s: int)
    requires !(0 <= y <= 99) && 0 <= m < 12
    requires 0 <= h < 24 && 0 <= min < 60 && 0 <= s < 60
    ensures Civil(NewDate(y, m + 1, 0, h, min, s)) == Ymd(y, m, DaysInMonth(y, m))
    ensures Day(NewDate(y, m + 1, 0, h, min, s)) == DayFromCivil(y, m, DaysInMonth(y, m))
    ensures NewDate(y, m + 1, 0, h, min, s) == DayFromCivil(y, m, DaysInMonth(y, m)) * MsPerDay + MakeTime(h, min, s, 0)
    ensures TimeWithinDay(NewDate(y, m + 1, 0, h, min, s)) == MakeTime(h, min, s, 0)
  {
    DayZeroOfNextMonth(y, m);
    MakeDateCivil(y, m, DaysInMonth(y, m), MakeTime(h, min, s, 0));
  }

  /** The last day of a month is the day before the 1st of the next one. */
  lemma LastDayBeforeFirst(y: int, m: int)
    requires 0 <= m < 12
    ensures m < 11 ==> DayFromCivil(y, m, DaysInMonth(y, m)) + 1 == DayFromCivil(y, m + 1, 1)
    ensures m == 11 ==> DayFromCivil(y, m, DaysInMonth(y, m)) + 1 == DayFromCivil(y + 1, 0, 1)
  {
    MonthLength(y, m);
    if m == 11 {
      YearLength(y);
    }
  }

  /** Month -1 of year `y` is December of the year before. */
  lemma MakeDayBeforeJanuary(y: int, d: int)
    ensures MakeDay(y, -1, d) == DayFromCivil(y - 1, 11, d)
  {
    assert (-1) / 12 == -1 && (-1) % 12 == 11;
  }

  /** Month 12 of year `y` is January of the year after. */
  lemma MakeDayAfterDecember(y: int, d: int)
    ensures MakeDay(y, 12, d) == DayFromCivil(y + 1, 0, d)
  {
    assert 12 / 12 == 1 && 12 % 12 == 0;
  }
}
