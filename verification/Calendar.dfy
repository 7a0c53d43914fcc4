/** The part of the ECMA-262 Date algebra that the time helpers rely on
    (sections 21.4.1.3 to 21.4.1.31 and 21.4.3.4), over unbounded integers. */
module Calendar {
  const MS_PER_DAY := 86_400_000
  const MAX_TIME := 8_640_000_000_000_000 // section 21.4.1.1

  predicate InRange(t: int) {
    -MAX_TIME <= t <= MAX_TIME
  }

  /** Day(t); the division floors, also for instants before 1970. */
  function Day(t: int): int {
    t / MS_PER_DAY
  }

  predicate LeapYear(y: int) {
    y % 4 == 0 && (y % 100 != 0 || y % 400 == 0)
  }

  /** DayFromYear(y): the day number of January 1st of year y. */
  function DayFromYear(y: int): int {
    365 * (y - 1970) + (y - 1969) / 4 - (y - 1901) / 100 + (y - 1601) / 400
  }

  lemma DivStep(a: int, k: int)
    requires k == 4 || k == 100 || k == 400
    ensures (a + 1) / k - a / k == if (a + 1) % k == 0 then 1 else 0
  {
  }

  lemma YearLength(y: int)
    ensures DayFromYear(y + 1) - DayFromYear(y) == if LeapYear(y) then 366 else 365
  {
    DivStep(y - 1969, 4);
    DivStep(y - 1901, 100);
    DivStep(y - 1601, 400);
  }

  lemma {:induction false} YearsIncrease(y: int, z: int)
    requires y <= z
    ensures DayFromYear(y) + 365 * (z - y) <= DayFromYear(z) <= DayFromYear(y) + 366 * (z - y)
    decreases z - y
  {
    if y < z {
      YearsIncrease(y, z - 1);
      YearLength(z - 1);
    }
  }

  /** Searches upwards from a year that is not too late. */
  function YearFrom(d: int, y: int): (r: int)
    requires DayFromYear(y) <= d
    ensures DayFromYear(r) <= d < DayFromYear(r + 1)
    decreases d - DayFromYear(y)
  {
    YearLength(y);
    if d < DayFromYear(y + 1) then y else YearFrom(d, y + 1)
  }

  /** YearFromTime on day numbers: the year whose first day is the last one not after d. */
  function YearFromDay(d: int): (y: int)
    ensures DayFromYear(y) <= d < DayFromYear(y + 1)
  {
    var y0 := 1970 + (if d < 0 then d / 365 else d / 366);
    assert DayFromYear(y0) <= d by {
      if d < 0 { YearsIncrease(y0, 1970); } else { YearsIncrease(1970, y0); }
    }
    YearFrom(d, y0)
  }

  lemma YearUnique(d: int, y: int)
    requires DayFromYear(y) <= d < DayFromYear(y + 1)
    ensures YearFromDay(d) == y
  {
    hide DayFromYear, YearFromDay;
    var r := YearFromDay(d);
    if r < y {
      YearsIncrease(r + 1, y);
    } else if y < r {
      YearsIncrease(y + 1, r);
    }
  }

  /** First day-in-year of a month, months counted from 0; index 12 is the year length. */
  function MonthStart(m: int, leap: bool): int
    requires 0 <= m <= 12
  {
    var l := if leap then 1 else 0;
    if m == 0 then 0
    else if m == 1 then 31
    else if m == 2 then 59 + l
    else if m == 3 then 90 + l
    else if m == 4 then 120 + l
    else if m == 5 then 151 + l
    else if m == 6 then 181 + l
    else if m == 7 then 212 + l
    else if m == 8 then 243 + l
    else if m == 9 then 273 + l
    else if m == 10 then 304 + l
    else if m == 11 then 334 + l
    else 365 + l
  }

  function MonthInYear(n: int, leap: bool): (m: int)
    requires 0 <= n < MonthStart(12, leap)
    ensures 0 <= m < 12 && MonthStart(m, leap) <= n < MonthStart(m + 1, leap)
  {
    if n < MonthStart(1, leap) then 0
    else if n < MonthStart(2, leap) then 1
    else if n < MonthStart(3, leap) then 2
    else if n < MonthStart(4, leap) then 3
    else if n < MonthStart(5, leap) then 4
    else if n < MonthStart(6, leap) then 5
    else if n < MonthStart(7, leap) then 6
    else if n < MonthStart(8, leap) then 7
    else if n < MonthStart(9, leap) then 8
    else if n < MonthStart(10, leap) then 9
    else if n < MonthStart(11, leap) then 10
    else 11
  }

  /** A proleptic Gregorian date; month 0 is January. */
  datatype Civil = Civil(year: int, month: int, date: int)

  function DaysInMonth(year: int, month: int): int {
    if month == 1 then (if LeapYear(year) then 29 else 28)
    else if month in {3, 5, 8, 10} then 30
    else 31
  }

  predicate ValidCivil(c: Civil) {
    0 <= c.month < 12 && 1 <= c.date <= DaysInMonth(c.year, c.month)
  }

  lemma MonthLength(y: int, m: int)
    requires 0 <= m < 12
    ensures MonthStart(m + 1, LeapYear(y)) - MonthStart(m, LeapYear(y)) == DaysInMonth(y, m)
  {
  }

  /** YearFromTime, MonthFromTime and DateFromTime of a day number. */
  function CivilFromDay(d: int): (c: Civil)
    ensures ValidCivil(c)
  {
    var y := YearFromDay(d);
    YearLength(y);
    var n := d - DayFromYear(y);
    var m := MonthInYear(n, LeapYear(y));
    MonthLength(y, m);
    Civil(y, m, n - MonthStart(m, LeapYear(y)) + 1)
  }

  /** MakeDay (section 21.4.1.29): the month may run past December. */
  function MakeDay(year: int, month: int, date: int): int {
    var ym := year + month / 12;
    DayFromYear(ym) + MonthStart(month % 12, LeapYear(ym)) + date - 1
  }

  lemma MonthStartsIncrease(m: int, n: int, leap: bool)
    requires 0 <= m < n <= 12
    ensures MonthStart(m, leap) + 28 <= MonthStart(n, leap)
  {
  }

  /** Day numbers and civil dates are in bijection. */
  lemma DayToCivilToDay(d: int)
    ensures var c := CivilFromDay(d); MakeDay(c.year, c.month, c.date) == d
  {
    var c := CivilFromDay(d);
    assert c.month / 12 == 0 && c.month % 12 == c.month;
  }

  lemma MonthUnique(n: int, m: int, leap: bool)
    requires 0 <= m < 12 && MonthStart(m, leap) <= n < MonthStart(m + 1, leap)
    requires 0 <= n < MonthStart(12, leap)
    ensures MonthInYear(n, leap) == m
  {
    var r := MonthInYear(n, leap);
    if r + 1 < m { MonthStartsIncrease(r + 1, m, leap); }
    if m + 1 < r { MonthStartsIncrease(m + 1, r, leap); }
  }

  lemma MakeDayInMonth(c: Civil)
    requires ValidCivil(c)
    ensures var n := MakeDay(c.year, c.month, c.date) - DayFromYear(c.year);
            && n == MonthStart(c.month, LeapYear(c.year)) + c.date - 1
            && MonthStart(c.month, LeapYear(c.year)) <= n < MonthStart(c.month + 1, LeapYear(c.year))
            && 0 <= n < MonthStart(12, LeapYear(c.year))
  {
    var leap := LeapYear(c.year);
    assert c.month / 12 == 0 && c.month % 12 == c.month;
    MonthLength(c.year, c.month);
    if c.month < 11 { MonthStartsIncrease(c.month + 1, 12, leap); }
    if 0 < c.month { MonthStartsIncrease(0, c.month, leap); }
  }

  lemma CivilToDayToCivil(c: Civil)
    requires ValidCivil(c)
    ensures CivilFromDay(MakeDay(c.year, c.month, c.date)) == c
  {
    hide DayFromYear, YearFromDay, MonthInYear;
    var d := MakeDay(c.year, c.month, c.date);
    MakeDayInMonth(c);
    YearLength(c.year);
    YearUnique(d, c.year);
    MonthUnique(d - DayFromYear(c.year), c.month, LeapYear(c.year));
  }

  /** The calendar a reader knows: the day after a date, month lengths spelled out. */
  function NextCivil(c: Civil): Civil {
    if c.date < DaysInMonth(c.year, c.month) then c.(date := c.date + 1)
    else if c.month < 11 then Civil(c.year, c.month + 1, 1)
    else Civil(c.year + 1, 0, 1)
  }

  lemma YearEnds(y: int)
    ensures MonthStart(0, LeapYear(y)) == 0
    ensures DayFromYear(y) + MonthStart(12, LeapYear(y)) == DayFromYear(y + 1)
  {
    YearLength(y);
  }

  lemma NextDay(c: Civil)
    requires ValidCivil(c)
    ensures var n := NextCivil(c);
            ValidCivil(n) && MakeDay(n.year, n.month, n.date) == MakeDay(c.year, c.month, c.date) + 1
  {
    hide MonthStart, DayFromYear, LeapYear, MakeDay;
    MakeDayInMonth(c);
    MakeDayInMonth(NextCivil(c));
    MonthLength(c.year, c.month);
    YearEnds(c.year);
    YearEnds(c.year + 1);
  }

  /** The arithmetic agrees with counting days one by one from 1 January 1970. */
  lemma CivilCounts(d: int)
    ensures CivilFromDay(0) == Civil(1970, 0, 1)
    ensures CivilFromDay(d + 1) == NextCivil(CivilFromDay(d))
  {
    CivilToDayToCivil(Civil(1970, 0, 1));
    var c := CivilFromDay(d);
    DayToCivilToDay(d);
    NextDay(c);
    CivilToDayToCivil(NextCivil(c));
  }

  predicate CivilBefore(a: Civil, b: Civil) {
    a.year < b.year
    || (a.year == b.year && (a.month < b.month || (a.month == b.month && a.date < b.date)))
  }

  lemma CivilFromDayBounds(d: int)
    ensures var c := CivilFromDay(d);
            && DayFromYear(c.year) <= d < DayFromYear(c.year + 1)
            && MonthStart(c.month, LeapYear(c.year)) <= d - DayFromYear(c.year)
            && d - DayFromYear(c.year) < MonthStart(c.month + 1, LeapYear(c.year))
            && c.date == d - DayFromYear(c.year) - MonthStart(c.month, LeapYear(c.year)) + 1
  {
  }

  lemma CivilOrderOneWay(d: int, e: int)
    requires d < e
    ensures CivilBefore(CivilFromDay(d), CivilFromDay(e))
  {
    hide CivilFromDay, MonthStart, DayFromYear, LeapYear;
    var a, b := CivilFromDay(d), CivilFromDay(e);
    CivilFromDayBounds(d);
    CivilFromDayBounds(e);
    if b.year < a.year {
      YearsIncrease(b.year + 1, a.year);
    } else if a.year == b.year && b.month < a.month {
      if b.month + 1 < a.month { MonthStartsIncrease(b.month + 1, a.month, LeapYear(a.year)); }
    }
  }

  lemma CivilOrder(d: int, e: int)
    ensures d < e <==> CivilBefore(CivilFromDay(d), CivilFromDay(e))
  {
    if d < e { CivilOrderOneWay(d, e); }
    if e < d { CivilOrderOneWay(e, d); }
  }
}
