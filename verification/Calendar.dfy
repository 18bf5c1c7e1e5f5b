/** Time values and the proleptic Gregorian calendar, as in section 21.4.1 of ECMA-262. */
module Calendar {

  const MS_PER_DAY: int := 86400000

  /** Broken-down UTC time; month counts from 0, day from 1. */
  datatype Fields = Fields(year: int, month: int, day: int, hour: int, minute: int, second: int, milli: int)

  predicate Leap(y: int) { y % 4 == 0 && (y % 100 != 0 || y % 400 == 0) }

  function DayFromYear(y: int): int {
    365 * (y - 1970) + (y - 1969) / 4 - (y - 1901) / 100 + (y - 1601) / 400
  }

  function DaysInYear(y: int): int { if Leap(y) then 366 else 365 }

  /** Days of the year before month m (0 = January, 12 = end of year). */
  function DaysBefore(m: int, leap: bool): int
    requires 0 <= m <= 12
  {
    [0, 31, 59, 90, 120, 151, 181, 212, 243, 273, 304, 334, 365][m] + if leap && m > 1 then 1 else 0
  }

  function DaysInMonth(y: int, m: int): int
    requires 0 <= m < 12
  {
    DaysBefore(m + 1, Leap(y)) - DaysBefore(m, Leap(y))
  }

  /** The year whose days include day number d: the largest y with DayFromYear(y) <= d, sought from y. */
  function YearUp(d: int, y: int): int
    requires DayFromYear(y) <= d
    decreases d - DayFromYear(y)
  {
    YearLength(y);
    if d < DayFromYear(y + 1) then y else YearUp(d, y + 1)
  }

  function YearDown(d: int, y: int): int
    requires d < DayFromYear(y)
    decreases DayFromYear(y) - d
  {
    YearLength(y - 1);
    if DayFromYear(y - 1) <= d then y - 1 else YearDown(d, y - 1)
  }

  function YearOfDay(d: int): int {
    if d >= 0 then YearUp(d, 1970) else YearDown(d, 1970)
  }

  /** The month holding day number n of a year, sought from month m. */
  function MonthFrom(n: int, leap: bool, m: int): int
    requires 0 <= m < 12
    decreases 12 - m
  {
    if m == 11 || n < DaysBefore(m + 1, leap) then m else MonthFrom(n, leap, m + 1)
  }

  /** The fields of millisecond ms of day d. */
  function FieldsAt(d: int, ms: int): Fields {
    var y := YearOfDay(d);
    var n := d - DayFromYear(y);
    var m := MonthFrom(n, Leap(y), 0);
    Fields(y, m, if 0 <= m <= 12 then n - DaysBefore(m, Leap(y)) + 1 else 0,
           ms / 3600000, ms / 60000 % 60, ms / 1000 % 60, ms % 1000)
  }

  function FieldsOf(t: int): Fields { FieldsAt(t / MS_PER_DAY, t % MS_PER_DAY) }

  function DayNumber(f: Fields): int
    requires 0 <= f.month < 12
  {
    DayFromYear(f.year) + DaysBefore(f.month, Leap(f.year)) + f.day - 1
  }

  function ClockMs(f: Fields): int { f.hour * 3600000 + f.minute * 60000 + f.second * 1000 + f.milli }

  /** Date.UTC for a month within the year; any day number is taken as an offset from the month's first. */
  function Utc(f: Fields): int
    requires 0 <= f.month < 12
  {
    DayNumber(f) * MS_PER_DAY + ClockMs(f)
  }

  /** A time of day on a clock. */
  predicate RealTime(f: Fields) {
    0 <= f.hour < 24 && 0 <= f.minute < 60 && 0 <= f.second < 60 && 0 <= f.milli < 1000
  }

  /** A date that exists and a time of day on it. */
  predicate Real(f: Fields) {
    0 <= f.month < 12 && 1 <= f.day <= DaysInMonth(f.year, f.month) && RealTime(f)
  }

  // ----- years

  lemma FourYears(y: int)
    ensures (y - 1968) / 4 - (y - 1969) / 4 == if y % 4 == 0 then 1 else 0
  {
  }

  lemma HundredYears(y: int)
    ensures (y - 1900) / 100 - (y - 1901) / 100 == if y % 100 == 0 then 1 else 0
  {
  }

  lemma FourHundredYears(y: int)
    ensures (y - 1600) / 400 - (y - 1601) / 400 == if y % 400 == 0 then 1 else 0
  {
  }

  lemma Centuries(y: int)
    ensures y % 400 == 0 ==> y % 100 == 0
    ensures y % 100 == 0 ==> y % 4 == 0
  {
  }

  lemma YearLength(y: int)
    ensures DayFromYear(y + 1) - DayFromYear(y) == DaysInYear(y)
  {
    FourYears(y);
    HundredYears(y);
    FourHundredYears(y);
    Centuries(y);
    assert (y + 1) - 1969 == y - 1968 && (y + 1) - 1901 == y - 1900 && (y + 1) - 1601 == y - 1600;
  }

  lemma {:induction false} YearsAscend(y: int, z: int)
    requires y < z
    ensures DayFromYear(y) < DayFromYear(z)
    decreases z - y
  {
    YearLength(z - 1);
    if y < z - 1 { YearsAscend(y, z - 1); }
  }

  lemma {:induction false} YearUpHolds(d: int, y: int)
    requires DayFromYear(y) <= d
    ensures DayFromYear(YearUp(d, y)) <= d < DayFromYear(YearUp(d, y) + 1)
    decreases d - DayFromYear(y)
  {
    YearLength(y);
    if d >= DayFromYear(y + 1) { YearUpHolds(d, y + 1); }
  }

  lemma {:induction false} YearDownHolds(d: int, y: int)
    requires d < DayFromYear(y)
    ensures DayFromYear(YearDown(d, y)) <= d < DayFromYear(YearDown(d, y) + 1)
    decreases DayFromYear(y) - d
  {
    YearLength(y - 1);
    if d < DayFromYear(y - 1) { YearDownHolds(d, y - 1); }
  }

  lemma YearHolds(d: int)
    ensures DayFromYear(YearOfDay(d)) <= d < DayFromYear(YearOfDay(d) + 1)
  {
    if d >= 0 { YearUpHolds(d, 1970); } else { YearDownHolds(d, 1970); }
  }

  /** A day lies in one year only. */
  lemma YearUnique(d: int, y: int)
    requires DayFromYear(y) <= d < DayFromYear(y + 1)
    ensures YearOfDay(d) == y
  {
    var z := YearOfDay(d);
    YearHolds(d);
    if z + 1 < y { YearsAscend(z + 1, y); } else if y + 1 < z { YearsAscend(y + 1, z); }
  }

  // ----- months

  lemma {:induction false} MonthHolds(n: int, leap: bool, m: int)
    requires 0 <= m < 12 && DaysBefore(m, leap) <= n < DaysBefore(12, leap)
    ensures 0 <= MonthFrom(n, leap, m) < 12
    ensures DaysBefore(MonthFrom(n, leap, m), leap) <= n < DaysBefore(MonthFrom(n, leap, m) + 1, leap)
    decreases 12 - m
  {
    if m < 11 && n >= DaysBefore(m + 1, leap) { MonthHolds(n, leap, m + 1); }
  }

  lemma {:induction false} MonthsAscend(m: int, k: int, leap: bool)
    requires 0 <= m < k <= 12
    ensures DaysBefore(m, leap) < DaysBefore(k, leap)
    decreases k - m
  {
    if m < k - 1 { MonthsAscend(m, k - 1, leap); }
  }

  lemma MonthUnique(n: int, leap: bool, m: int)
    requires 0 <= m < 12 && DaysBefore(m, leap) <= n < DaysBefore(m + 1, leap)
    ensures MonthFrom(n, leap, 0) == m
  {
    if m + 1 < 12 { MonthsAscend(m + 1, 12, leap); }
    if 0 < m { MonthsAscend(0, m, leap); }
    MonthHolds(n, leap, 0);
    var k := MonthFrom(n, leap, 0);
    if k + 1 < m { MonthsAscend(k + 1, m, leap); } else if m + 1 < k { MonthsAscend(m + 1, k, leap); }
  }

  // ----- round trips

  lemma DayParts(d: int, ms: int)
    requires 0 <= ms < MS_PER_DAY
    ensures (d * MS_PER_DAY + ms) / MS_PER_DAY == d && (d * MS_PER_DAY + ms) % MS_PER_DAY == ms
  {
  }

  lemma ClockParts(h: int, m: int, s: int, ms: int)
    requires 0 <= h < 24 && 0 <= m < 60 && 0 <= s < 60 && 0 <= ms < 1000
    ensures
      var t := h * 3600000 + m * 60000 + s * 1000 + ms;
      0 <= t < MS_PER_DAY && t / 3600000 == h && t / 60000 % 60 == m && t / 1000 % 60 == s && t % 1000 == ms
  {
    var t := h * 3600000 + m * 60000 + s * 1000 + ms;
    assert t / 1000 == h * 3600 + m * 60 + s;
    assert t / 60000 == h * 60 + m;
  }

  /** The day number of a date splits back into it. */
  lemma DateOfDay(y: int, m: int, day: int)
    requires 0 <= m < 12 && 1 <= day <= DaysInMonth(y, m)
    ensures
      var d := DayFromYear(y) + DaysBefore(m, Leap(y)) + day - 1;
      YearOfDay(d) == y && MonthFrom(d - DayFromYear(y), Leap(y), 0) == m
  {
    var d := DayFromYear(y) + DaysBefore(m, Leap(y)) + day - 1;
    YearLength(y);
    if m + 1 < 12 { MonthsAscend(m + 1, 12, Leap(y)); }
    if 0 < m { MonthsAscend(0, m, Leap(y)); }
    YearUnique(d, y);
    MonthUnique(d - DayFromYear(y), Leap(y), m);
  }

  /** A real date and time survive the trip through a time value. */
  lemma FieldsOfUtc(f: Fields)
    requires Real(f)
    ensures FieldsOf(Utc(f)) == f
  {
    ClockParts(f.hour, f.minute, f.second, f.milli);
    DayParts(DayNumber(f), ClockMs(f));
    FieldsAtDay(f);
  }

  lemma FieldsAtDay(f: Fields)
    requires Real(f)
    ensures FieldsAt(DayNumber(f), ClockMs(f)) == f
  {
    ClockParts(f.hour, f.minute, f.second, f.milli);
    DateOfDay(f.year, f.month, f.day);
  }

  /** A time value survives the trip through its fields, which are real. */
  lemma UtcOfFields(t: int)
    ensures Real(FieldsOf(t)) && Utc(FieldsOf(t)) == t
  {
    DayAndClock(t / MS_PER_DAY, t % MS_PER_DAY);
  }

  lemma DayAndClock(d: int, ms: int)
    requires 0 <= ms < MS_PER_DAY
    ensures Real(FieldsAt(d, ms)) && DayNumber(FieldsAt(d, ms)) == d && ClockMs(FieldsAt(d, ms)) == ms
  {
    var y := YearOfDay(d);
    YearHolds(d);
    YearLength(y);
    MonthHolds(d - DayFromYear(y), Leap(y), 0);
    ClockSplit(ms);
  }

  lemma ClockSplit(ms: int)
    requires 0 <= ms < MS_PER_DAY
    ensures ms == ms / 3600000 * 3600000 + ms / 60000 % 60 * 60000 + ms / 1000 % 60 * 1000 + ms % 1000
    ensures ms / 3600000 < 24
  {
    assert ms / 60000 == ms / 1000 / 60;
    assert ms / 3600000 == ms / 1000 / 60 / 60;
  }

  /** A day beyond the end of its month comes back as another day: the calendar check catches it. */
  lemma OverlongDayIsCaught(f: Fields)
    requires 0 <= f.month < 12 && DaysInMonth(f.year, f.month) < f.day <= 31 && RealTime(f)
    ensures FieldsOf(Utc(f)).day != f.day
  {
    var over := f.day - DaysInMonth(f.year, f.month);
    var g := f.(month := f.month + 1, day := over);
    assert Utc(g) == Utc(f);
    FieldsOfUtc(g);
  }
}
