/** The proleptic Gregorian calendar, and the bijection between its dates and
    day numbers on which the laws of `nmea_shift_tz` and `julian_date` rest. */
module Calendar {
  datatype Civil = Civil(y: int, m: int, d: int)

  predicate LeapYear(y: int) {
    y % 4 == 0 && (y % 100 != 0 || y % 400 == 0)
  }

  function DaysInMonth(m: int, y: int): (n: int)
    ensures 28 <= n <= 31
  {
    if m < 1 || m > 12 then 30
    else if m == 2 then if LeapYear(y) then 29 else 28
    else if m == 4 || m == 6 || m == 9 || m == 11 then 30
    else 31
  }

  predicate Valid(c: Civil) {
    c.y >= 1 && 1 <= c.m <= 12 && 1 <= c.d <= DaysInMonth(c.m, c.y)
  }

  // Chronological order, field by field.
  predicate Before(a: Civil, b: Civil) {
    a.y < b.y || (a.y == b.y && (a.m < b.m || (a.m == b.m && a.d < b.d)))
  }

  function DaysBeforeMonth(y: int, m: int): (n: int)
    requires 1 <= m <= 13
    ensures n >= 0
    decreases m
  {
    if m == 1 then 0 else DaysBeforeMonth(y, m - 1) + DaysInMonth(m - 1, y)
  }

  function DaysInYear(y: int): int {
    if LeapYear(y) then 366 else 365
  }

  function DaysBeforeYear(y: int): (n: int)
    requires y >= 1
    decreases y
  {
    if y == 1 then 0 else DaysBeforeYear(y - 1) + DaysInYear(y - 1)
  }

  /** Days counted one by one from 0001-01-01, which is day 1. */
  function DayNumber(c: Civil): int
    requires c.y >= 1 && 1 <= c.m <= 12
  {
    DaysBeforeYear(c.y) + DaysBeforeMonth(c.y, c.m) + c.d
  }

  function NextDay(c: Civil): (r: Civil)
    requires Valid(c)
    ensures Valid(r)
  {
    if c.d < DaysInMonth(c.m, c.y) then Civil(c.y, c.m, c.d + 1)
    else if c.m < 12 then Civil(c.y, c.m + 1, 1)
    else Civil(c.y + 1, 1, 1)
  }

  lemma NextDayNumber(c: Civil)
    requires Valid(c)
    ensures DayNumber(NextDay(c)) == DayNumber(c) + 1
  {
    MonthTable(c.y, c.m);
    var n := NextDay(c);
    if n.m == 1 && n.d == 1 {
      assert DaysBeforeYear(n.y) == DaysBeforeYear(c.y) + DaysInYear(c.y);
    }
  }

  function CommonYearDays(m: int): int
    requires 1 <= m <= 13
  {
    match m
    case 1 => 0 case 2 => 31 case 3 => 59 case 4 => 90 case 5 => 120
    case 6 => 151 case 7 => 181 case 8 => 212 case 9 => 243 case 10 => 273
    case 11 => 304 case 12 => 334 case _ => 365
  }

  /** Closed form of the month table. */
  lemma MonthTable(y: int, m: int)
    requires 1 <= m <= 13
    ensures DaysBeforeMonth(y, m) ==
            CommonYearDays(m)
            + if m > 2 && LeapYear(y) then 1 else 0
    decreases m
  {
    if m > 1 { MonthTable(y, m - 1); }
  }

  lemma QuarterStep(y: int)
    ensures y / 4 == (y - 1) / 4 + if y % 4 == 0 then 1 else 0
  {}

  lemma CenturyStep(y: int)
    ensures y / 100 == (y - 1) / 100 + if y % 100 == 0 then 1 else 0
  {
    var q, r := (y - 1) / 100, (y - 1) % 100;
    assert y == 100 * q + (r + 1);
    assert r == 99 ==> y == 100 * (q + 1);
  }

  lemma FourCenturyStep(y: int)
    ensures y / 400 == (y - 1) / 400 + if y % 400 == 0 then 1 else 0
  {
    var q, r := (y - 1) / 400, (y - 1) % 400;
    assert y == 400 * q + (r + 1);
    assert r == 399 ==> y == 400 * (q + 1);
  }

  lemma CenturyInFours(y: int)
    ensures y % 100 == 0 ==> y % 4 == 0
  {
    if y % 100 == 0 { assert y == 4 * (25 * (y / 100)); }
  }

  lemma FourCenturyInCenturies(y: int)
    ensures y % 400 == 0 ==> y % 100 == 0
  {
    if y % 400 == 0 { assert y == 100 * (4 * (y / 400)); }
  }

  lemma LeapStep(y: int)
    ensures y / 4 - y / 100 + y / 400 ==
            (y - 1) / 4 - (y - 1) / 100 + (y - 1) / 400 + if LeapYear(y) then 1 else 0
  {
    QuarterStep(y);
    CenturyStep(y);
    FourCenturyStep(y);
    CenturyInFours(y);
    FourCenturyInCenturies(y);
  }

  /** Closed form of the year count. */
  lemma {:induction false} YearClosedForm(y: int)
    requires y >= 1
    ensures DaysBeforeYear(y) ==
            365 * (y - 1) + (y - 1) / 4 - (y - 1) / 100 + (y - 1) / 400
    decreases y
  {
    if y > 1 {
      YearClosedForm(y - 1);
      LeapStep(y - 1);
    }
  }

  lemma {:induction false} MonthsMonotone(y: int, m: int, n: int)
    requires 1 <= m < n <= 13
    ensures DaysBeforeMonth(y, m) + DaysInMonth(m, y) <= DaysBeforeMonth(y, n)
    decreases n
  {
    if m + 1 < n { MonthsMonotone(y, m, n - 1); }
  }

  lemma {:induction false} YearsMonotone(y: int, z: int)
    requires 1 <= y < z
    ensures DaysBeforeYear(y) + DaysInYear(y) <= DaysBeforeYear(z)
    decreases z
  {
    if y + 1 < z {
      YearsMonotone(y, z - 1);
    }
  }

  /** Where a date falls inside its year. */
  lemma WithinYear(c: Civil)
    requires Valid(c)
    ensures DaysBeforeYear(c.y) < DayNumber(c)
    ensures DayNumber(c) <= DaysBeforeYear(c.y) + DaysInYear(c.y)
  {
    MonthTable(c.y, c.m);
  }

  /** Day numbers order valid dates exactly as the calendar does. */
  lemma DayNumberOrder(a: Civil, b: Civil)
    requires Valid(a) && Valid(b)
    ensures Before(a, b) <==> DayNumber(a) < DayNumber(b)
    ensures a == b <==> DayNumber(a) == DayNumber(b)
  {
    if Before(a, b) {
      StrictlyIncreasing(a, b);
    } else if Before(b, a) {
      StrictlyIncreasing(b, a);
    }
  }

  lemma StrictlyIncreasing(a: Civil, b: Civil)
    requires Valid(a) && Valid(b) && Before(a, b)
    ensures DayNumber(a) < DayNumber(b)
  {
    if a.y < b.y {
      WithinYear(a);
      WithinYear(b);
      YearsMonotone(a.y, b.y);
    } else if a.m < b.m {
      MonthsMonotone(a.y, a.m, b.m);
    }
  }

  ghost predicate Numbered(c: Civil, n: int) {
    Valid(c) && DayNumber(c) == n
  }

  lemma NumberedNext(p: Civil, n: int)
    requires Numbered(p, n - 1)
    ensures Numbered(NextDay(p), n)
  {
    NextDayNumber(p);
  }

  lemma NumberedFirst()
    ensures Numbered(Civil(1, 1, 1), 1)
  {}

  /** Every day number from 1 on is the number of a valid date. */
  lemma {:induction false} DateExists(n: int)
    requires n >= 1
    ensures exists c :: Numbered(c, n)
    decreases n
  {
    hide Numbered, NextDay;
    if n == 1 {
      NumberedFirst();
    } else {
      DateExists(n - 1);
      var p :| Numbered(p, n - 1);
      NumberedNext(p, n);
    }
  }

  /** The date with a given day number; by DayNumberOrder there is only one. */
  ghost function CivilOf(n: int): (c: Civil)
    requires n >= 1
    ensures Valid(c) && DayNumber(c) == n
  {
    DateExists(n);
    var c :| Numbered(c, n);
    c
  }

  lemma CivilOfDayNumber(c: Civil)
    requires Valid(c)
    ensures DayNumber(c) >= 1 && CivilOf(DayNumber(c)) == c
  {
    YearClosedForm(c.y);
    WithinYear(c);
    DayNumberOrder(CivilOf(DayNumber(c)), c);
  }

  /** The dates before year y are those numbered up to the last day before it. */
  lemma YearSplit(c: Civil, y: int)
    requires Valid(c) && y >= 1
    ensures c.y < y <==>
            DayNumber(c) <= 365 * (y - 1) + (y - 1) / 4 - (y - 1) / 100 + (y - 1) / 400
  {
    WithinYear(c);
    YearClosedForm(y);
    if c.y < y {
      YearsMonotone(c.y, y);
    } else if y < c.y {
      YearsMonotone(y, c.y);
    }
  }
}
