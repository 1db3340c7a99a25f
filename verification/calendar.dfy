/** The proleptic Gregorian day arithmetic that JavaScript `Date` values rest on
    (section 21.4.1 of ECMA-262: day numbers counted from 1 January 1970, years of 365 or
    366 days, the month table and `MakeDay`). Months are 0-based, as `getMonth()`
    returns them and the `Date` constructor takes them. */
module Calendar {

  const MsPerDay: int := 86400000
  const MsPerHour: int := 3600000
  const MsPerMinute: int := 60000
  const MsPerSecond: int := 1000

  predicate IsLeapYear(y: int) {
    y % 4 == 0 && (y % 100 != 0 || y % 400 == 0)
  }

  function DaysInYear(y: int): (n: nat)
    ensures n == 365 || n == 366
  {
    if IsLeapYear(y) then 366 else 365
  }

  /** Day number of 1 January of year `y`. */
  function DaysBeforeYear(y: int): (n: int)
    decreases if y >= 1970 then y - 1970 else 1970 - y
  {
    if y == 1970 then 0
    else if y > 1970 then DaysBeforeYear(y - 1) + DaysInYear(y - 1)
    else DaysBeforeYear(y + 1) - DaysInYear(y)
  }

  /** Consecutive years are a year's length apart, on both sides of 1970. */
  lemma DaysBeforeYearStep(y: int)
    ensures DaysBeforeYear(y + 1) == DaysBeforeYear(y) + DaysInYear(y)
  {
  }

  /** Day numbers of New Year's days grow with the year. */
  lemma {:induction false} DaysBeforeYearMonotone(a: int, b: int)
    requires a < b
    ensures DaysBeforeYear(a + 1) <= DaysBeforeYear(b)
    decreases b - a
  {
    DaysBeforeYearStep(b - 1);
    if a + 1 < b {
      DaysBeforeYearMonotone(a, b - 1);
    }
  }

  function DaysInMonth(y: int, m: nat): (n: nat)
    requires m < 12
    ensures 28 <= n <= 31
  {
    if m == 1 then (if IsLeapYear(y) then 29 else 28)
    else if m == 3 || m == 5 || m == 8 || m == 10 then 30
    else 31
  }

  /** Days of year `y` before the first of month `m`. */
  function DaysBeforeMonth(y: int, m: nat): (n: nat)
    requires m <= 12
  {
    if m == 0 then 0 else DaysBeforeMonth(y, m - 1) + DaysInMonth(y, m - 1)
  }

  /** The twelve months fill the year exactly. */
  lemma MonthsFillYear(y: int)
    ensures DaysBeforeMonth(y, 12) == DaysInYear(y)
  {
    assert DaysBeforeMonth(y, 1) == 31;
    assert DaysBeforeMonth(y, 2) == 31 + DaysInMonth(y, 1);
    assert DaysBeforeMonth(y, 3) == DaysBeforeMonth(y, 2) + 31;
    assert DaysBeforeMonth(y, 4) == DaysBeforeMonth(y, 2) + 61;
    assert DaysBeforeMonth(y, 5) == DaysBeforeMonth(y, 2) + 92;
    assert DaysBeforeMonth(y, 6) == DaysBeforeMonth(y, 2) + 122;
    assert DaysBeforeMonth(y, 7) == DaysBeforeMonth(y, 2) + 153;
    assert DaysBeforeMonth(y, 8) == DaysBeforeMonth(y, 2) + 184;
    assert DaysBeforeMonth(y, 9) == DaysBeforeMonth(y, 2) + 214;
    assert DaysBeforeMonth(y, 10) == DaysBeforeMonth(y, 2) + 245;
    assert DaysBeforeMonth(y, 11) == DaysBeforeMonth(y, 2) + 275;
  }

  lemma {:induction false} DaysBeforeMonthMonotone(y: int, a: nat, b: nat)
    requires a < b <= 12
    ensures DaysBeforeMonth(y, a + 1) <= DaysBeforeMonth(y, b)
    decreases b - a
  {
    if a + 1 < b {
      DaysBeforeMonthMonotone(y, a, b - 1);
    }
  }

  /** `MakeDay(year, month, date)`: the month may run past either end of the year and
      carries into the year; the date may run past the month and carries into the day
      count. */
  function MakeDay(year: int, month: int, date: int): (n: int)
  {
    var ym := year + month / 12;
    var mn := month % 12;
    DaysBeforeYear(ym) + DaysBeforeMonth(ym, mn) + date - 1
  }

  /** The year that holds day number `days`, searched upwards from year `y`. */
  function YearUpFrom(y: int, days: int): (r: int)
    requires DaysBeforeYear(y) <= days
    ensures DaysBeforeYear(r) <= days < DaysBeforeYear(r + 1)
    decreases days - DaysBeforeYear(y)
  {
    DaysBeforeYearStep(y);
    if days < DaysBeforeYear(y + 1) then y else YearUpFrom(y + 1, days)
  }

  /** The year that holds day number `days`, searched downwards from year `y`. */
  function YearDownFrom(y: int, days: int): (r: int)
    requires days < DaysBeforeYear(y + 1)
    ensures DaysBeforeYear(r) <= days < DaysBeforeYear(r + 1)
    decreases DaysBeforeYear(y + 1) - days
  {
    DaysBeforeYearStep(y);
    if DaysBeforeYear(y) <= days then y else YearDownFrom(y - 1, days)
  }

  function YearOf(days: int): (y: int)
    ensures DaysBeforeYear(y) <= days < DaysBeforeYear(y + 1)
    ensures days - DaysBeforeYear(y) < DaysInYear(y)
  {
    var y := if days >= 0 then YearUpFrom(1970, days) else YearDownFrom(1969, days);
    DaysBeforeYearStep(y);
    y
  }

  /** A day number lies in exactly one year. */
  lemma YearOfUnique(y: int, days: int)
    requires DaysBeforeYear(y) <= days < DaysBeforeYear(y + 1)
    ensures YearOf(days) == y
  {
    var r := YearOf(days);
    if r < y {
      DaysBeforeYearMonotone(r, y);
    } else if y < r {
      DaysBeforeYearMonotone(y, r);
    }
  }

  /** The month that holds day `d` of year `y`, searched from month `m`. */
  function MonthFrom(y: int, m: nat, d: int): (r: nat)
    requires m < 12 && DaysBeforeMonth(y, m) <= d < DaysInYear(y)
    ensures m <= r < 12 && DaysBeforeMonth(y, r) <= d < DaysBeforeMonth(y, r + 1)
    decreases 12 - m
  {
    MonthsFillYear(y);
    if d < DaysBeforeMonth(y, m + 1) then m else MonthFrom(y, m + 1, d)
  }

  /** A day of the year lies in exactly one month. */
  lemma MonthFromUnique(y: int, m: nat, d: int)
    requires m < 12 && DaysBeforeMonth(y, m) <= d < DaysBeforeMonth(y, m + 1)
    ensures d < DaysInYear(y) && MonthFrom(y, 0, d) == m
  {
    MonthsFillYear(y);
    if m < 11 {
      DaysBeforeMonthMonotone(y, m, 12);
    }
    var r := MonthFrom(y, 0, d);
    if r < m {
      DaysBeforeMonthMonotone(y, r, m);
    } else if m < r {
      DaysBeforeMonthMonotone(y, m, r);
    }
  }

  /** Calendar fields of a day: full year, 0-based month, 1-based day of the month. */
  datatype Civil = Civil(year: int, month: nat, day: nat)

  /** The fields of day `d` (counted from 0) of year `y`. */
  function CivilOfYearDay(y: int, d: int): (c: Civil)
    requires 0 <= d < DaysInYear(y)
    ensures c.year == y && c.month < 12 && 1 <= c.day <= DaysInMonth(y, c.month)
  {
    var m := MonthFrom(y, 0, d);
    Civil(y, m, d - DaysBeforeMonth(y, m) + 1)
  }

  /** `YearFromTime`, `MonthFromTime` and `DateFromTime` of a day number. */
  function CivilOf(days: int): (c: Civil)
    ensures c.month < 12 && 1 <= c.day <= DaysInMonth(c.year, c.month)
  {
    CivilOfYearDay(YearOf(days), days - DaysBeforeYear(YearOf(days)))
  }

  /** Reading the fields back from `MakeDay` of a real date gives that date. */
  lemma CivilOfMakeDay(y: int, m: nat, d: nat)
    requires m < 12 && 1 <= d <= DaysInMonth(y, m)
    ensures CivilOf(MakeDay(y, m, d)) == Civil(y, m, d)
  {
    assert y + m / 12 == y && m % 12 == m;
    var inYear := DaysBeforeMonth(y, m) + d - 1;
    var n := MakeDay(y, m, d);
    assert n == DaysBeforeYear(y) + inYear;
    MonthFromUnique(y, m, inYear);
    DaysBeforeYearStep(y);
    YearOfUnique(y, n);
    CivilOfKnownYear(n, y);
    CivilOfKnownMonth(y, inYear, m);
  }

  lemma CivilOfKnownMonth(y: int, d: int, m: nat)
    requires 0 <= d < DaysInYear(y) && MonthFrom(y, 0, d) == m
    ensures CivilOfYearDay(y, d) == Civil(y, m, d - DaysBeforeMonth(y, m) + 1)
  {
  }

  lemma CivilOfKnownYear(n: int, y: int)
    requires YearOf(n) == y
    ensures 0 <= n - DaysBeforeYear(y) < DaysInYear(y)
    ensures CivilOf(n) == CivilOfYearDay(y, n - DaysBeforeYear(y))
  {
    DaysBeforeYearStep(y);
  }
}
