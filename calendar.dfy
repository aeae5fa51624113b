/**
 * Proleptic Gregorian calendar arithmetic as ECMAScript's Date objects define
 * it (ECMA-262's DayFromYear, YearFromTime, MonthFromTime and DateFromTime):
 * day numbers count days since 1970-01-01, negative before it, for every year.
 */
module Calendar {

  /** ECMA-262 DayFromYear: the day number of January 1st of year y. */
  function DayFromYear(y: int): int {
    365 * (y - 1970) + (y - 1969) / 4 - (y - 1901) / 100 + (y - 1601) / 400
  }

  predicate IsLeap(y: int) {
    y % 4 == 0 && (y % 100 != 0 || y % 400 == 0)
  }

  function DaysInYear(y: int): int {
    if IsLeap(y) then 366 else 365
  }

  lemma LeapCountStep(y: int)
    ensures (y - 1968) / 4 == (y - 1969) / 4 + (if y % 4 == 0 then 1 else 0)
  {
  }

  lemma CenturyCountStep(y: int)
    ensures (y - 1900) / 100 == (y - 1901) / 100 + (if y % 100 == 0 then 1 else 0)
  {
  }

  lemma QuadCenturyCountStep(y: int)
    ensures (y - 1600) / 400 == (y - 1601) / 400 + (if y % 400 == 0 then 1 else 0)
  {
  }

  /** DayFromYear(y + 1) with its year offsets written relative to y. */
  lemma DayFromYearNext(y: int)
    ensures DayFromYear(y + 1) == 365 * (y - 1969) + (y - 1968) / 4 - (y - 1900) / 100 + (y - 1600) / 400
  {
  }

  /** The linear step from the three counts of the year before to those of year y + 1. */
  lemma YearLengthArithmetic(y: int, a: int, a': int, b: int, b': int, c: int, c': int)
    requires a' == a + (if y % 4 == 0 then 1 else 0)
    requires b' == b + (if y % 100 == 0 then 1 else 0)
    requires c' == c + (if y % 400 == 0 then 1 else 0)
    ensures 365 * (y - 1969) + a' - b' + c' == 365 * (y - 1970) + a - b + c + DaysInYear(y)
  {
  }

  /** Consecutive years start DaysInYear apart. */
  lemma YearLength(y: int)
    ensures DayFromYear(y + 1) == DayFromYear(y) + DaysInYear(y)
  {
    DayFromYearNext(y);
    LeapCountStep(y);
    CenturyCountStep(y);
    QuadCenturyCountStep(y);
    YearLengthArithmetic(y, (y - 1969) / 4, (y - 1968) / 4, (y - 1901) / 100, (y - 1900) / 100,
                         (y - 1601) / 400, (y - 1600) / 400);
  }

  lemma {:induction false} DayFromYearIncreasing(a: int, b: int)
    requires a < b
    ensures DayFromYear(a) + DaysInYear(a) <= DayFromYear(b)
    decreases b - a
  {
    YearLength(a);
    if a + 1 < b {
      DayFromYearIncreasing(a + 1, b);
    }
  }

  /** The year estimate 1970 + floor(z / 365.2425) is off by at most one. */
  lemma EstimateBounds(z: int)
    ensures var y0 := 1970 + (400 * z) / 146097;
      DayFromYear(y0) <= z + 1 && z - 1 <= DayFromYear(y0 + 1)
  {
    var q := (400 * z) / 146097;
    assert 146097 * q <= 400 * z < 146097 * q + 146097;
    var a, b, c := (q + 1) / 4, (q + 69) / 100, (q + 369) / 400;
    assert 4 * a <= q + 1 < 4 * a + 4;
    assert 100 * b <= q + 69 < 100 * b + 100;
    assert 400 * c <= q + 369 < 400 * c + 400;
    assert DayFromYear(1970 + q) == 365 * q + a - b + c;
    var a', b', c' := (q + 2) / 4, (q + 70) / 100, (q + 370) / 400;
    assert 4 * a' <= q + 2 < 4 * a' + 4;
    assert 100 * b' <= q + 70 < 100 * b' + 100;
    assert 400 * c' <= q + 370 < 400 * c' + 400;
    assert DayFromYear(1970 + q + 1) == 365 * (q + 1) + a' - b' + c';
  }

  /** A year estimate off by at most a day is corrected by one step either way. */
  lemma EstimateCorrection(z: int, y0: int)
    requires DayFromYear(y0) <= z + 1 && z - 1 <= DayFromYear(y0 + 1)
    ensures DayFromYear(y0) > z ==> DayFromYear(y0 - 1) <= z < DayFromYear(y0)
    ensures DayFromYear(y0 + 1) <= z ==> z < DayFromYear(y0 + 2)
  {
    YearLength(y0 - 1);
    YearLength(y0 + 1);
  }

  /** ECMA-262 YearFromTime on day numbers: the year whose span holds day z. */
  function YearFromDay(z: int): (y: int)
    ensures DayFromYear(y) <= z < DayFromYear(y + 1)
  {
    var y0 := 1970 + (400 * z) / 146097;
    EstimateBounds(z);
    EstimateCorrection(z, y0);
    if DayFromYear(y0) > z then y0 - 1
    else if DayFromYear(y0 + 1) <= z then y0 + 1
    else y0
  }

  /** Only one year's span holds a given day. */
  lemma YearFromDayUnique(z: int, y: int)
    requires DayFromYear(y) <= z < DayFromYear(y + 1)
    ensures YearFromDay(z) == y
  {
    var r := YearFromDay(z);
    if r < y {
      DayFromYearIncreasing(r, y);
      YearLength(r);
    } else if y < r {
      DayFromYearIncreasing(y, r);
      YearLength(y);
    }
  }

  /** Day within a common year at which each month starts, and the year's length last. */
  const CommonMonthStarts: seq<int> := [0, 31, 59, 90, 120, 151, 181, 212, 243, 273, 304, 334, 365]

  /** Day within the year at which month m (1..12) starts; m == 13 gives the year's length. */
  function MonthStart(m: int, leap: bool): int
    requires 1 <= m <= 13
  {
    CommonMonthStarts[m - 1] + (if leap && m >= 3 then 1 else 0)
  }

  function DaysInMonth(y: int, m: int): int
    requires 1 <= m <= 12
  {
    MonthStart(m + 1, IsLeap(y)) - MonthStart(m, IsLeap(y))
  }

  /** ECMA-262 MonthFromTime on a day within the year: the month whose span holds it. */
  function MonthFromDayInYear(dwy: int, leap: bool): (m: int)
    requires 0 <= dwy < MonthStart(13, leap)
    ensures 1 <= m <= 12 && MonthStart(m, leap) <= dwy < MonthStart(m + 1, leap)
  {
    if dwy < MonthStart(2, leap) then 1
    else if dwy < MonthStart(3, leap) then 2
    else if dwy < MonthStart(4, leap) then 3
    else if dwy < MonthStart(5, leap) then 4
    else if dwy < MonthStart(6, leap) then 5
    else if dwy < MonthStart(7, leap) then 6
    else if dwy < MonthStart(8, leap) then 7
    else if dwy < MonthStart(9, leap) then 8
    else if dwy < MonthStart(10, leap) then 9
    else if dwy < MonthStart(11, leap) then 10
    else if dwy < MonthStart(12, leap) then 11
    else 12
  }

  /** Only one month's span holds a given day of the year. */
  lemma MonthFromDayInYearUnique(dwy: int, leap: bool, m: int)
    requires 1 <= m <= 12 && MonthStart(m, leap) <= dwy < MonthStart(m + 1, leap)
    ensures MonthFromDayInYear(dwy, leap) == m
  {
  }

  /** A calendar date; month and day count from 1. */
  datatype Date = Date(year: int, month: int, day: int)

  predicate ValidDate(d: Date) {
    1 <= d.month <= 12 && 1 <= d.day <= DaysInMonth(d.year, d.month)
  }

  /** The day number of a calendar date (ECMA-262 MakeDay for whole dates). */
  function DaysFromCivil(d: Date): int
    requires ValidDate(d)
  {
    DayFromYear(d.year) + MonthStart(d.month, IsLeap(d.year)) + d.day - 1
  }

  /** A day in year y's span is one of that year's MonthStart(13) days. */
  lemma DayWithinYear(z: int, y: int)
    requires DayFromYear(y) <= z < DayFromYear(y + 1)
    ensures 0 <= z - DayFromYear(y) < MonthStart(13, IsLeap(y))
  {
    YearLength(y);
  }

  /** The calendar date of day number z; it is a real date and names day z again. */
  function CivilFromDays(z: int): (d: Date)
    ensures ValidDate(d) && DaysFromCivil(d) == z
  {
    var y := YearFromDay(z);
    DayWithinYear(z, y);
    var leap := IsLeap(y);
    var m := MonthFromDayInYear(z - DayFromYear(y), leap);
    Date(y, m, z - DayFromYear(y) - MonthStart(m, leap) + 1)
  }

  /** Day z of year y that falls in month m is read back as that year, month and day. */
  lemma CivilFromDaysIn(z: int, y: int, m: int)
    requires DayFromYear(y) <= z < DayFromYear(y + 1)
    requires 1 <= m <= 12 && MonthStart(m, IsLeap(y)) <= z - DayFromYear(y) < MonthStart(m + 1, IsLeap(y))
    ensures CivilFromDays(z) == Date(y, m, z - DayFromYear(y) - MonthStart(m, IsLeap(y)) + 1)
  {
    YearFromDayUnique(z, y);
    MonthFromDayInYearUnique(z - DayFromYear(y), IsLeap(y), m);
  }

  /** The other direction: every valid date comes back from its own day number. */
  lemma CivilFromDaysOfCivil(d: Date)
    requires ValidDate(d)
    ensures CivilFromDays(DaysFromCivil(d)) == d
  {
    YearLength(d.year);
    CivilFromDaysIn(DaysFromCivil(d), d.year, d.month);
  }

  lemma MonthStartIncreasing(leap: bool)
    ensures forall i, j :: 1 <= i < j <= 13 ==> MonthStart(i, leap) < MonthStart(j, leap)
  {
  }

  /** Chronological order of dates: by year, then month, then day. */
  predicate DateBefore(a: Date, b: Date) {
    a.year < b.year
    || (a.year == b.year && a.month < b.month)
    || (a.year == b.year && a.month == b.month && a.day < b.day)
  }

  /** A valid date's day number lies within its own year. */
  lemma DaysFromCivilInYear(d: Date)
    requires ValidDate(d)
    ensures DayFromYear(d.year) <= DaysFromCivil(d) < DayFromYear(d.year + 1)
  {
    YearLength(d.year);
    MonthStartIncreasing(IsLeap(d.year));
    assert MonthStart(d.month + 1, IsLeap(d.year)) <= MonthStart(13, IsLeap(d.year));
  }

  /** Years start in order: a later year starts after an earlier one ends. */
  lemma YearStartsOrder(a: int, b: int)
    requires a < b
    ensures DayFromYear(a + 1) <= DayFromYear(b)
  {
    DayFromYearIncreasing(a, b);
    YearLength(a);
  }

  lemma DaysFromCivilOrderAcrossYears(a: Date, b: Date)
    requires ValidDate(a) && ValidDate(b) && a.year < b.year
    ensures DaysFromCivil(a) < DaysFromCivil(b)
  {
    DaysFromCivilInYear(a);
    DaysFromCivilInYear(b);
    YearStartsOrder(a.year, b.year);
  }

  lemma DaysFromCivilOrderWithinYear(a: Date, b: Date)
    requires ValidDate(a) && ValidDate(b) && a.year == b.year && DateBefore(a, b)
    ensures DaysFromCivil(a) < DaysFromCivil(b)
  {
    MonthStartIncreasing(IsLeap(a.year));
  }

  /** Earlier dates have smaller day numbers. */
  lemma DaysFromCivilOrder(a: Date, b: Date)
    requires ValidDate(a) && ValidDate(b) && DateBefore(a, b)
    ensures DaysFromCivil(a) < DaysFromCivil(b)
  {
    if a.year < b.year {
      DaysFromCivilOrderAcrossYears(a, b);
    } else {
      DaysFromCivilOrderWithinYear(a, b);
    }
  }

  /** Later day numbers are exactly the later calendar dates. */
  lemma CivilFromDaysOrder(z1: int, z2: int)
    ensures z1 < z2 <==> DateBefore(CivilFromDays(z1), CivilFromDays(z2))
  {
    var d1, d2 := CivilFromDays(z1), CivilFromDays(z2);
    if z1 < z2 {
      if DateBefore(d2, d1) {
        DaysFromCivilOrder(d2, d1);
      }
    } else if DateBefore(d1, d2) {
      DaysFromCivilOrder(d1, d2);
    }
  }
}
