/** `julian_date` of astro/astro.c in exact arithmetic: the closed-form
    formula counts calendar days. */
module Astro {
  import opened Machine
  import opened Calendar

  function DayFraction(hour: int, minute: int, second: int): real {
    (hour as real + minute as real / 60.0 + second as real / 3600.0) / 24.0
  }

  function JulianDate(year: int, month: int, day: int, hour: int, minute: int, second: int): real {
    var y := if month <= 2 then year - 1 else year;
    var m := if month <= 2 then month + 12 else month;
    var a := TruncDiv(y, 100);
    var b := 2 - a + TruncDiv(a, 4);
    (365.25 * (y + 4716) as real).Floor as real
    + (30.6001 * (m + 1) as real).Floor as real
    + day as real + b as real - 1524.5
    + DayFraction(hour, minute, second)
  }

  const JD_EPOCH := 1721424.5

  lemma FloorUnique(x: real, n: int)
    requires n as real <= x < (n + 1) as real
    ensures x.Floor == n
  {}

  /** floor(365.25 * n) is 365 days a year and one more every fourth. */
  lemma YearTerm(n: int)
    ensures (365.25 * n as real).Floor == 365 * n + n / 4
  {
    var q, r := n / 4, n % 4;
    assert n == 4 * q + r;
    assert 365.25 * n as real == (365 * n + q) as real + 0.25 * r as real;
    FloorUnique(365.25 * n as real, 365 * n + q);
  }

  function MonthDays(m: int): int
    requires 4 <= m <= 15
  {
    match m
    case 4 => 122 case 5 => 153 case 6 => 183 case 7 => 214 case 8 => 244 case 9 => 275
    case 10 => 306 case 11 => 336 case 12 => 367 case 13 => 397 case 14 => 428 case _ => 459
  }

  /** floor(30.6001 * m) for the months counted from March. */
  lemma MonthTerm(m: int)
    requires 4 <= m <= 15
    ensures (30.6001 * m as real).Floor ==
            MonthDays(m)
  {
    FloorUnique(30.6001 * m as real, MonthDays(m));
  }

  lemma YearParts(y: int)
    ensures (y + 4716) / 4 == y / 4 + 1179 && y / 100 / 4 == y / 400
  {}

  // The same terms as integers, before the fraction and the half-day epoch.
  lemma IntegerTerms(c: Civil, y: int, m: int)
    requires c.y >= 1 && 1 <= c.m <= 12
    requires y == (if c.m <= 2 then c.y - 1 else c.y)
    requires m == (if c.m <= 2 then c.m + 12 else c.m)
    ensures 365 * (y + 4716) + (y + 4716) / 4 + MonthDays(m + 1) + c.d
            + (2 - y / 100 + y / 100 / 4) == DayNumber(c) + 1722949
  {
    hide DaysBeforeYear, DaysBeforeMonth, LeapYear;
    YearClosedForm(c.y);
    MonthTable(c.y, c.m);
    LeapStep(c.y);
    YearParts(y);
  }

  /** The Meeus formula equals the day count of the calendar, for every year
      from 1 on, every month and any day. */
  lemma JulianCountsDays(c: Civil, hour: int, minute: int, second: int)
    requires c.y >= 1 && 1 <= c.m <= 12
    ensures JulianDate(c.y, c.m, c.d, hour, minute, second)
            == DayNumber(c) as real + JD_EPOCH + DayFraction(hour, minute, second)
    ensures JulianDate(c.y, c.m, c.d, hour, minute, second)
            == DayNumber(c) as real + 1721424.5
               + hour as real / 24.0 + minute as real / 1440.0 + second as real / 86400.0
  {
    var y := if c.m <= 2 then c.y - 1 else c.y;
    var m := if c.m <= 2 then c.m + 12 else c.m;
    YearTerm(y + 4716);
    MonthTerm(m + 1);
    IntegerTerms(c, y, m);
  }

  /** Midnights of successive days are exactly 1 apart, across every month,
      year and century boundary. */
  lemma JulianNextDay(c: Civil)
    requires Valid(c)
    ensures var n := NextDay(c);
      JulianDate(n.y, n.m, n.d, 0, 0, 0) == JulianDate(c.y, c.m, c.d, 0, 0, 0) + 1.0
  {
    JulianCountsDays(c, 0, 0, 0);
    JulianCountsDays(NextDay(c), 0, 0, 0);
    NextDayNumber(c);
  }

  lemma JulianOrder(a: Civil, b: Civil)
    requires Valid(a) && Valid(b)
    ensures Before(a, b) <==> JulianDate(a.y, a.m, a.d, 0, 0, 0) < JulianDate(b.y, b.m, b.d, 0, 0, 0)
    ensures a == b <==> JulianDate(a.y, a.m, a.d, 0, 0, 0) == JulianDate(b.y, b.m, b.d, 0, 0, 0)
  {
    JulianCountsDays(a, 0, 0, 0);
    JulianCountsDays(b, 0, 0, 0);
    DayNumberOrder(a, b);
  }
}
