/** `nmea_shift_tz` of nmea/nmea.c: two day-stepping loops over a two-digit
    date, proved to add the offset to one linear count of minutes. */
module TimeShift {
  import opened Machine
  import opened Calendar
  import Astro

  datatype Time = Time(h: uint8, m: uint8, s: uint8)
  datatype Date = Date(d: uint8, m: uint8, y: uint8)

  /** Two-digit years denote 1970-2069. */
  function FullYear(y: uint8): int {
    if y >= 70 then 1900 + y else 2000 + y
  }

  function Full(date: Date): Civil { Civil(FullYear(date.y), date.m, date.d) }

  predicate ValidDate(date: Date) {
    date.y < 100 && Valid(Full(date))
  }

  predicate ValidTime(t: Time) { t.h < 24 && t.m < 60 }

  // The date as the C struct stores it: only two digits of the year remain.
  function Pack(c: Civil): Date
    requires Valid(c)
  {
    Date(c.d, c.m, c.y % 100)
  }

  /** Minutes since the eve of 0001-01-01, the count that an offset shifts. */
  function Minutes(date: Date, t: Time): int
    requires ValidDate(date)
  {
    DayNumber(Full(date)) * 1440 + t.h * 60 + t.m
  }

  // Day numbers of 1970-01-01 and 2070-01-01, see WindowYears.
  const FIRST_DAY := 719163
  const END_DAY := 755688

  predicate InWindow(minutes: int) {
    FIRST_DAY * 1440 <= minutes < END_DAY * 1440
  }

  /** The window is the years 1970-2069. */
  lemma WindowYears(c: Civil)
    requires Valid(c)
    ensures 1970 <= c.y <==> FIRST_DAY <= DayNumber(c)
    ensures c.y < 2070 <==> DayNumber(c) < END_DAY
  {
    YearSplit(c, 1970);
    YearSplit(c, 2070);
  }

  // The years on either side of it have 365 days each.
  lemma NearYears(c: Civil)
    requires Valid(c)
    ensures 1969 <= c.y <==> FIRST_DAY - 365 <= DayNumber(c)
    ensures c.y < 2071 <==> DayNumber(c) < END_DAY + 365
  {
    YearSplit(c, 1969);
    YearSplit(c, 2071);
  }

  lemma MinutesInWindow(date: Date, t: Time)
    requires ValidDate(date)
    ensures FIRST_DAY <= DayNumber(Full(date)) < END_DAY
    ensures Minutes(date, t) >= FIRST_DAY * 1440
    ensures ValidTime(t) ==> InWindow(Minutes(date, t))
  {
    WindowYears(Full(date));
  }

  function ClockAt(minute: int, second: uint8): (t: Time)
    requires 0 <= minute < 1440
    ensures ValidTime(t) && t.h * 60 + t.m == minute && t.s == second
  {
    Time(minute / 60, minute % 60, second)
  }

  /** The two-digit date and the wall clock at a minute of that count. */
  ghost function AtMinute(n: int, second: uint8): (Date, Time)
    requires n >= 1440
  {
    (Pack(CivilOf(n / 1440)), ClockAt(n % 1440, second))
  }

  /** The calendar and the clock `tz` minutes later. */
  ghost function Shifted(date: Date, t: Time, tz: int16): (Date, Time)
    requires ValidDate(date)
  {
    MinutesInWindow(date, t);
    AtMinute(Minutes(date, t) + tz, t.s)
  }

  predicate ShiftInWindow(date: Date, t: Time, tz: int)
    requires ValidDate(date)
  {
    InWindow(Minutes(date, t) + tz)
  }

  // The stepping loops walk a valid date toward the target day.
  ghost predicate OnTrack(c: Civil, delta: int, target: int) {
    && Valid(c)
    && DayNumber(c) + delta == target
    && -100 <= delta <= 100
    && FIRST_DAY - 100 <= target < END_DAY + 100
  }

  lemma YearRange(c: Civil)
    requires Valid(c) && FIRST_DAY - 365 <= DayNumber(c) < END_DAY + 365
    ensures 1969 <= c.y <= 2070
  {
    NearYears(c);
  }

  lemma TrackNext(c: Civil, delta: int, target: int)
    requires OnTrack(c, delta, target) && delta > 0
    ensures Valid(c) && 1969 <= c.y <= 2070
    ensures OnTrack(NextDay(c), delta - 1, target)
  {
    YearRange(c);
    NextDayNumber(c);
  }

  function PrevDay(c: Civil): (r: Civil)
    requires Valid(c) && c.y > 1
    ensures Valid(r) && NextDay(r) == c
  {
    if c.d > 1 then Civil(c.y, c.m, c.d - 1)
    else if c.m > 1 then Civil(c.y, c.m - 1, DaysInMonth(c.m - 1, c.y))
    else Civil(c.y - 1, 12, 31)
  }

  lemma TrackPrev(c: Civil, delta: int, target: int)
    requires OnTrack(c, delta, target) && delta < 0
    ensures Valid(c) && 1969 <= c.y <= 2070
    ensures OnTrack(PrevDay(c), delta + 1, target)
  {
    YearRange(c);
    NextDayNumber(PrevDay(c));
  }

  lemma MinuteSplit(day: int, clock: int)
    requires 0 <= clock < 1440
    ensures (day * 1440 + clock) / 1440 == day && (day * 1440 + clock) % 1440 == clock
  {}

  lemma PackFull(c: Civil)
    requires Valid(c)
    ensures Full(Pack(c)) == c <==> 1970 <= c.y < 2070
  {}

  lemma FullPack(date: Date)
    requires ValidDate(date)
    ensures Pack(Full(date)) == date
  {}

  lemma AtMinutes(date: Date, t: Time)
    requires ValidDate(date) && ValidTime(t)
    ensures Minutes(date, t) >= 1440
    ensures AtMinute(Minutes(date, t), t.s) == (date, t)
  {
    hide DayNumber, Pack;
    MinutesInWindow(date, t);
    CivilOfDayNumber(Full(date));
    FullPack(date);
    MinuteSplit(DayNumber(Full(date)), t.h * 60 + t.m);
  }

  // A moment of 1970-2069 is read back exactly.
  lemma MinutesAt(n: int, s: uint8)
    requires InWindow(n)
    ensures var (d, w) := AtMinute(n, s);
      ValidDate(d) && ValidTime(w) && Minutes(d, w) == n && w.s == s
  {
    var c := CivilOf(n / 1440);
    WindowYears(c);
    PackFull(c);
    assert n == 1440 * (n / 1440) + n % 1440;
  }

  /** The loop that walks forward, one day a turn. */
  method StepForward(date: (uint16, uint8, uint8), delta: int, ghost target: int)
    returns (year: uint16, mon: uint8, day: uint8)
    requires 0 <= delta <= 100
    ensures OnTrack(Civil(date.0, date.1, date.2), delta, target) ==> OnTrack(Civil(year, mon, day), 0, target)
  {
    year, mon, day := date.0, date.1, date.2;
    var dayDelta: int32 := delta;
    ghost var cur := Civil(year, mon, day);
    ghost var valid := OnTrack(cur, delta, target);
    while dayDelta > 0
      invariant 0 <= dayDelta <= 100
      invariant valid ==> OnTrack(cur, dayDelta, target) && cur == Civil(year, mon, day)
    {
      if valid {
        TrackNext(cur, dayDelta, target);
        cur := NextDay(cur);
      }
      var next: int32 := day + 1;
      if next > DaysInMonth(mon, year) {
        next := 1;
        mon := U8(mon + 1);
        if mon > 12 {
          mon := 1;
          year := U16(year + 1);
        }
      }
      day := next;
      dayDelta := dayDelta - 1;
    }
  }

  /** The loop that walks backward, one day a turn. */
  method StepBack(date: (uint16, uint8, uint8), delta: int, ghost target: int)
    returns (year: uint16, mon: uint8, day: uint8)
    requires -100 <= delta <= 0
    ensures OnTrack(Civil(date.0, date.1, date.2), delta, target) ==> OnTrack(Civil(year, mon, day), 0, target)
  {
    year, mon, day := date.0, date.1, date.2;
    var dayDelta: int32 := delta;
    ghost var cur := Civil(year, mon, day);
    ghost var valid := OnTrack(cur, delta, target);
    while dayDelta < 0
      invariant -100 <= dayDelta <= 0
      invariant valid ==> OnTrack(cur, dayDelta, target) && cur == Civil(year, mon, day)
    {
      if valid {
        TrackPrev(cur, dayDelta, target);
        cur := PrevDay(cur);
      }
      var prev: int32 := day - 1;
      if prev < 1 {
        mon := U8(mon - 1);
        if mon < 1 {
          mon := 12;
          year := U16(year - 1);
        }
        prev := DaysInMonth(mon, year);
      }
      day := prev;
      dayDelta := dayDelta + 1;
    }
  }

  /** The two loops that carry whole days out of a minute count. */
  method CarryDays(minutes: int32) returns (clock: int32, dayDelta: int32)
    requires -0x1_0000 <= minutes <= 0x1_0000
    ensures 0 <= clock < 1440
    ensures clock == minutes % 1440 && dayDelta == minutes / 1440
  {
    clock, dayDelta := minutes, 0;
    while clock < 0
      invariant -0x1_0000 <= clock <= 0x1_0000
      invariant minutes == dayDelta * 1440 + clock
    {
      clock := clock + 1440;
      dayDelta := dayDelta - 1;
    }
    while clock >= 1440
      invariant 0 <= clock <= 0x1_0000
      invariant minutes == dayDelta * 1440 + clock
    {
      clock := clock - 1440;
      dayDelta := dayDelta + 1;
    }
  }

  // What the three pieces of ShiftTz leave in a date that was valid.
  lemma ShiftedParts(date: Date, t: Time, tz: int16, delta: int, clock: int)
    requires ValidDate(date)
    requires delta == (t.h * 60 + t.m + tz) / 1440 && clock == (t.h * 60 + t.m + tz) % 1440
    ensures OnTrack(Full(date), delta, DayNumber(Full(date)) + delta)
    ensures Shifted(date, t, tz) ==
            (Pack(CivilOf(DayNumber(Full(date)) + delta)), ClockAt(clock, t.s))
  {
    MinutesInWindow(date, t);
    MinuteSplit(DayNumber(Full(date)) + delta, clock);
  }

  lemma TrackEnd(c: Civil, target: int)
    requires OnTrack(c, 0, target)
    ensures target >= 1 && Pack(CivilOf(target)) == Date(c.d, c.m, c.y % 100)
  {
    CivilOfDayNumber(c);
  }

  method ShiftTz(utcDate: Date, utcTime: Time, tzMin: int16) returns (outDate: Date, outTime: Time)
    ensures ValidTime(outTime) && outTime.s == utcTime.s
    ensures outTime.h * 60 + outTime.m == (utcTime.h * 60 + utcTime.m + tzMin) % 1440
    ensures ValidDate(utcDate) ==> (outDate, outTime) == Shifted(utcDate, utcTime, tzMin)
  {
    var total, dayDelta := CarryDays(utcTime.h * 60 + utcTime.m + tzMin);
    outTime := Time(U8(total / 60), U8(total % 60), utcTime.s);
    assert outTime == ClockAt(total, utcTime.s);

    var year: uint16 := if utcDate.y >= 70 then 1900 + utcDate.y else 2000 + utcDate.y;
    var mon, day := utcDate.m, utcDate.d;
    ghost var valid := ValidDate(utcDate);
    ghost var target := if valid then DayNumber(Full(utcDate)) + dayDelta else 0;
    if valid { ShiftedParts(utcDate, utcTime, tzMin, dayDelta, total); }
    if dayDelta > 0 {
      year, mon, day := StepForward((year, mon, day), dayDelta, target);
    } else {
      year, mon, day := StepBack((year, mon, day), dayDelta, target);
    }
    if valid { TrackEnd(Civil(year, mon, day), target); }
    outDate := Date(U8(day), mon, U8(year % 100));
  }

  /** Unpacking the shifted date gives back the true date exactly when the
      shifted moment is in 1970-2069. */
  lemma ShiftExact(date: Date, t: Time, tz: int16)
    requires ValidDate(date)
    ensures var (d, w) := Shifted(date, t, tz);
      (ValidDate(d) && Minutes(d, w) == Minutes(date, t) + tz)
      <==> ShiftInWindow(date, t, tz)
  {
    MinutesInWindow(date, t);
    var (d, w) := Shifted(date, t, tz);
    if ShiftInWindow(date, t, tz) {
      MinutesAt(Minutes(date, t) + tz, t.s);
    } else if ValidDate(d) {
      MinutesInWindow(d, w);
    }
  }

  /** Whatever the offset, a valid date shifts to a valid date. */
  lemma ShiftValid(date: Date, t: Time, tz: int16)
    requires ValidDate(date)
    ensures ValidDate(Shifted(date, t, tz).0) && ValidTime(Shifted(date, t, tz).1)
  {
    MinutesInWindow(date, t);
    var c := CivilOf((Minutes(date, t) + tz) / 1440);
    WindowYears(c);
    NearYears(c);
    PackFull(c);
  }

  /** 1969 and 2069, and 1970 and 2070, have the same calendar. */
  lemma SameCalendar(c: Civil)
    requires Valid(c) && 1969 <= c.y <= 1970
    ensures Valid(Civil(c.y + 100, c.m, c.d))
    ensures DayNumber(Civil(c.y + 100, c.m, c.d)) == DayNumber(c) + (END_DAY - FIRST_DAY)
  {
    hide DaysBeforeYear, DaysBeforeMonth, CommonYearDays;
    assert !LeapYear(c.y) && !LeapYear(c.y + 100);
    YearClosedForm(c.y);
    YearClosedForm(c.y + 100);
    MonthTable(c.y, c.m);
    MonthTable(c.y + 100, c.m);
  }

  // The length of the window in minutes.
  const CENTURY := (END_DAY - FIRST_DAY) * 1440

  /** Near either end of the window, moments a window apart get the same
      two-digit date. */
  lemma Wraps(n: int, s: uint8)
    requires (FIRST_DAY - 365) * 1440 <= n < (FIRST_DAY + 365) * 1440
    ensures AtMinute(n, s) == AtMinute(n + CENTURY, s)
  {
    hide DayNumber;
    var c := CivilOf(n / 1440);
    YearSplit(c, 1969);
    YearSplit(c, 1971);
    SameCalendar(c);
    CivilOfDayNumber(Civil(c.y + 100, c.m, c.d));
    MinuteSplit(n / 1440 + (END_DAY - FIRST_DAY), n % 1440);
  }

  // What a moment near the window is read back as: itself, or, outside the
  // window, the moment a window's length away that is inside it.
  ghost function ReadBack(n: int): int {
    if n < FIRST_DAY * 1440 then n + CENTURY
    else if n >= END_DAY * 1440 then n - CENTURY
    else n
  }

  lemma ReadBackAt(n: int, s: uint8)
    requires (FIRST_DAY - 50) * 1440 <= n < (END_DAY + 50) * 1440
    ensures var (d, w) := AtMinute(n, s);
      ValidDate(d) && ValidTime(w) && Minutes(d, w) == ReadBack(n) && w.s == s
  {
    hide DayNumber, CivilOf, Pack;
    if n < FIRST_DAY * 1440 {
      Wraps(n, s);
    } else if n >= END_DAY * 1440 {
      Wraps(n - CENTURY, s);
    }
    MinutesAt(ReadBack(n), s);
  }

  /** Shifting by a and then by b is shifting by a + b, also when the moment in
      between falls outside 1970-2069. */
  lemma ShiftAdd(date: Date, t: Time, a: int16, b: int16)
    requires ValidDate(date)
    requires -0x8000 <= a + b < 0x8000
    ensures var (d, w) := Shifted(date, t, a);
      ValidDate(d) && Shifted(d, w, b) == Shifted(date, t, a + b)
  {
    hide AtMinute, DayNumber;
    MinutesInWindow(date, t);
    var n := Minutes(date, t) + a;
    ReadBackAt(n, t.s);
    if n < FIRST_DAY * 1440 {
      Wraps(n + b, t.s);
    } else if n >= END_DAY * 1440 {
      Wraps(n - CENTURY + b, t.s);
    }
  }

  lemma ShiftZero(date: Date, t: Time)
    requires ValidDate(date) && ValidTime(t)
    ensures Shifted(date, t, 0) == (date, t)
  {
    AtMinutes(date, t);
  }

  /** Shifting back undoes a shift. */
  lemma ShiftInverse(date: Date, t: Time, z: int16)
    requires ValidDate(date) && ValidTime(t) && z > -0x8000
    ensures var (d, w) := Shifted(date, t, z);
      ValidDate(d) && Shifted(d, w, -z) == (date, t)
  {
    ShiftAdd(date, t, z, -z);
    ShiftZero(date, t);
  }

  function JulianOf(date: Date, t: Time): real {
    Astro.JulianDate(FullYear(date.y), date.m, date.d, t.h, t.m, t.s)
  }

  lemma JulianOfMinutes(date: Date, t: Time)
    requires ValidDate(date)
    ensures JulianOf(date, t) == Astro.JD_EPOCH + Minutes(date, t) as real / 1440.0 + t.s as real / 86400.0
  {
    Astro.JulianCountsDays(Full(date), t.h, t.m, t.s);
  }

  /** The stepping loops of one module agree with the closed-form date formula
      of the other: a shift moves the Julian date by tz/1440 of a day. */
  lemma JulianShift(date: Date, t: Time, tz: int16)
    requires ValidDate(date)
    ensures var (d, w) := Shifted(date, t, tz);
      JulianOf(d, w) == JulianOf(date, t) + tz as real / 1440.0 <==> ShiftInWindow(date, t, tz)
  {
    var (d, w) := Shifted(date, t, tz);
    ShiftValid(date, t, tz);
    ShiftExact(date, t, tz);
    JulianOfMinutes(date, t);
    JulianOfMinutes(d, w);
  }
}
