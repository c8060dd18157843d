/** Calendar dates as milliseconds since the first day of year 0, under the Gregorian leap rule. */
module Dates {
  import opened Wrappers

  const DAY := 86400000

  // Ticks are signed 64-bit numbers, from -TICKS up to TICKS - 1.
  const TICKS := 0x8000_0000_0000_0000

  datatype Fields = Fields(year: nat, month: nat, day: nat, hour: nat, minute: nat, second: nat, milli: nat)

  // ----- the calendar, counted out

  predicate Leap(y: nat) { y % 4 == 0 && (y % 100 != 0 || y % 400 == 0) }

  function YearDays(y: nat): nat { if Leap(y) then 366 else 365 }

  function MonthDays(y: nat, m: nat): nat {
    if m == 2 then (if Leap(y) then 29 else 28)
    else if m == 4 || m == 6 || m == 9 || m == 11 then 30
    else 31
  }

  ghost function DaysBeforeYear(y: nat): nat { if y == 0 then 0 else DaysBeforeYear(y - 1) + YearDays(y - 1) }

  ghost function DaysBeforeMonth(y: nat, m: nat): nat
    requires m >= 1
  {
    if m == 1 then 0 else DaysBeforeMonth(y, m - 1) + MonthDays(y, m - 1)
  }

  ghost predicate ValidDate(y: nat, m: nat, d: nat) { 1 <= m <= 12 && 1 <= d <= MonthDays(y, m) }

  ghost predicate ValidTime(h: nat, mi: nat, s: nat, ms: nat) { h < 24 && mi < 60 && s < 60 && ms < 1000 }

  ghost predicate Valid(f: Fields) {
    ValidDate(f.year, f.month, f.day) && ValidTime(f.hour, f.minute, f.second, f.milli)
  }

  /** How many days lie before the date. */
  ghost function DayNumber(y: nat, m: nat, d: nat): nat
    requires ValidDate(y, m, d)
  {
    DaysBeforeYear(y) + DaysBeforeMonth(y, m) + d - 1
  }

  ghost function TimeOfDay(h: nat, mi: nat, s: nat, ms: nat): nat { ((h * 60 + mi) * 60 + s) * 1000 + ms }

  ghost function Ticks(f: Fields): nat
    requires Valid(f)
  {
    DayNumber(f.year, f.month, f.day) * DAY + TimeOfDay(f.hour, f.minute, f.second, f.milli)
  }

  // ----- closed forms

  function LeapsBefore(y: nat): int { (y + 3) / 4 - (y + 99) / 100 + (y + 399) / 400 }

  lemma LeapStep(y: nat)
    ensures LeapsBefore(y + 1) == LeapsBefore(y) + if Leap(y) then 1 else 0
  {
    FoursUpTo(y);
    HundredsUpTo(y);
    FourHundredsUpTo(y);
    Multiples(y);
  }

  lemma FoursUpTo(y: nat)
    ensures (y + 4) / 4 == (y + 3) / 4 + if y % 4 == 0 then 1 else 0
  {}

  lemma HundredsUpTo(y: nat)
    ensures (y + 100) / 100 == (y + 99) / 100 + if y % 100 == 0 then 1 else 0
  {}

  lemma FourHundredsUpTo(y: nat)
    ensures (y + 400) / 400 == (y + 399) / 400 + if y % 400 == 0 then 1 else 0
  {}

  lemma Multiples(y: nat)
    ensures y % 400 == 0 ==> y % 100 == 0
    ensures y % 100 == 0 ==> y % 4 == 0
  {
    if y % 400 == 0 { Hundreds(4 * (y / 400)); }
    if y % 100 == 0 { Fours(25 * (y / 100)); }
  }

  lemma Hundreds(k: nat)
    ensures (100 * k) % 100 == 0
  {}

  lemma Fours(k: nat)
    ensures (4 * k) % 4 == 0
  {}

  lemma {:induction false} YearStart(y: nat)
    ensures DaysBeforeYear(y) == 365 * y + LeapsBefore(y)
  {
    if y > 0 {
      YearStart(y - 1);
      LeapStep(y - 1);
    }
  }

  const MONTH_DAYS: seq<nat> := [0, 31, 59, 90, 120, 151, 181, 212, 243, 273, 304, 334, 365]

  lemma MonthStart(y: nat, m: nat)
    requires 1 <= m <= 13
    ensures DaysBeforeMonth(y, m) == MONTH_DAYS[m - 1] + if m > 2 && Leap(y) then 1 else 0
  {
    if m > 1 { MonthStart(y, m - 1); }
  }

  // ----- fields to ticks

  // How many days the month may have for this day; only the leap day itself asks for one more.
  function DaysAllowed(y: nat, m: nat, d: nat): int
    requires 1 <= m <= 12
  {
    var leap := y % 4 == 0 && (y % 100 != 0 || y % 400 == 0);
    MONTH_DAYS[m] - MONTH_DAYS[m - 1] + if leap && d == 29 && m == 2 then 1 else 0
  }

  function DatePart(y: nat, m: nat, d: nat): int
    requires 1 <= m <= 12
  {
    var leap := y % 4 == 0 && (y % 100 != 0 || y % 400 == 0);
    y * 365 + y / 4 - y / 100 + y / 400 + MONTH_DAYS[m - 1] + d - if m <= 2 && leap then 1 else 0
  }

  function ConvertTo(f: Fields): Option<int> {
    if f.year > 1000000 || f.month < 1 || f.month > 12 || f.day < 1 || f.day > 31 || f.hour > 23 || f.minute > 59
      || f.second > 59 || f.milli > 999
    then None
    else if f.day > DaysAllowed(f.year, f.month, f.day) then None
    else Some(DatePart(f.year, f.month, f.day) * DAY + ((f.hour * 60 + f.minute) * 60 + f.second) * 1000 + f.milli)
  }

  lemma DatePartCounts(y: nat, m: nat, d: nat)
    requires 1 <= m <= 12 && 1 <= d <= 31
    ensures d <= DaysAllowed(y, m, d) <==> ValidDate(y, m, d)
    ensures ValidDate(y, m, d) ==> DatePart(y, m, d) == DayNumber(y, m, d)
  {
    MonthStart(y, m);
    YearStart(y);
    LeapsInclusive(y);
  }

  /** Exactly the valid fields up to year 1000000 are converted, to the days counted out before them. */
  lemma ConvertToCounts(f: Fields)
    ensures ConvertTo(f) == if Valid(f) && f.year <= 1000000 then Some(Ticks(f)) else None
  {
    if 1 <= f.month <= 12 && 1 <= f.day <= 31 { DatePartCounts(f.year, f.month, f.day); }
  }

  lemma LeapsInclusive(y: nat)
    ensures y / 4 - y / 100 + y / 400 + 1 == LeapsBefore(y) + if Leap(y) then 1 else 0
  {
    LeapStep(y);
    assert (y + 4) / 4 == y / 4 + 1 && (y + 100) / 100 == y / 100 + 1 && (y + 400) / 400 == y / 400 + 1;
  }

  // ----- ticks to fields

  // Division as the processor does it: towards zero.
  function Quotient(a: int, b: nat): int
    requires b > 0
  {
    if a >= 0 then a / b else -(-a / b)
  }

  function Remainder(a: int, b: nat): int
    requires b > 0
  {
    a - Quotient(a, b) * b
  }

  /** The days of the first r years of a block of four years, of which the first may be a leap year. */
  function BlockDays(r: nat, leap: bool): nat { 365 * r + if leap && r > 0 then 1 else 0 }

  /** The days before block q of century c, in a cycle of 400 years. */
  function CycleDays(c: nat, q: nat): int {
    36524 * c + 1461 * q + if c > 0 && q == 0 then 1 else 0
  }

  lemma CycleLeaps(c: nat, q: nat, r: nat)
    requires c < 4 && q < 25 && r < 4
    ensures var y := 100 * c + 4 * q + r; 365 * y + LeapsBefore(y) == CycleDays(c, q) + BlockDays(r, c == 0 || q > 0)
    ensures var y := 100 * c + 4 * q + r; Leap(y) <==> r == 0 && (c == 0 || q > 0)
  {
    CycleFours(c, q, r);
    CycleHundreds(c, 4 * q + r);
    OneCycle(100 * c + 4 * q + r);
  }

  lemma CycleFours(c: nat, q: nat, r: nat)
    requires r < 4
    ensures var y := 100 * c + 4 * q + r; (y + 3) / 4 == 25 * c + q + (if r > 0 then 1 else 0) && y % 4 == r
  {}

  lemma CycleHundreds(c: nat, m: nat)
    requires m < 100
    ensures var y := 100 * c + m; (y + 99) / 100 == c + (if m > 0 then 1 else 0) && y % 100 == m
  {}

  lemma OneCycle(y: nat)
    requires y < 400
    ensures (y + 399) / 400 == (if y > 0 then 1 else 0) && y % 400 == y
  {}

  lemma CycleYears(a: nat, y: nat)
    ensures LeapsBefore(400 * a + y) == 97 * a + LeapsBefore(y) && (Leap(400 * a + y) <==> Leap(y))
  {
    assert (400 * a + y + 3) / 4 == 100 * a + (y + 3) / 4;
    assert (400 * a + y + 99) / 100 == 4 * a + (y + 99) / 100;
    assert (400 * a + y + 399) / 400 == a + (y + 399) / 400;
    LeapCycle(a, y);
  }

  lemma LeapCycle(a: nat, y: nat)
    ensures Leap(400 * a + y) <==> Leap(y)
  {
    CycleBy4(a, y);
    CycleBy100(a, y);
    CycleBy400(a, y);
  }

  lemma CycleBy4(a: nat, y: nat)
    ensures (400 * a + y) % 4 == y % 4
  {}

  lemma CycleBy100(a: nat, y: nat)
    ensures (400 * a + y) % 100 == y % 100
  {}

  lemma CycleBy400(a: nat, y: nat)
    ensures (400 * a + y) % 400 == y % 400
  {}

  lemma YearFound(a: nat, c: nat, q: nat, r: nat)
    requires c < 4 && q < 25 && r < 4
    ensures var y := 400 * a + 100 * c + 4 * q + r;
      && DaysBeforeYear(y) == 146097 * a + CycleDays(c, q) + BlockDays(r, c == 0 || q > 0)
      && (Leap(y) <==> r == 0 && (c == 0 || q > 0))
  {
    var y := 100 * c + 4 * q + r;
    CycleLeaps(c, q, r);
    LeapCycle(a, y);
    DaysInCycles(a, y);
  }

  lemma DaysInCycles(a: nat, y: nat)
    ensures DaysBeforeYear(400 * a + y) == 146097 * a + (365 * y + LeapsBefore(y))
  {
    CycleYears(a, y);
    YearStart(400 * a + y);
    CyclesOver(a, y, LeapsBefore(y), LeapsBefore(400 * a + y));
  }

  lemma CyclesOver(a: nat, y: nat, leaps: int, leaps': int)
    requires leaps' == 97 * a + leaps
    ensures 365 * (400 * a + y) + leaps' == 146097 * a + (365 * y + leaps)
  {}

  // What a cast to an unsigned type of so many values makes of a number.
  function Cast(a: int, values: nat): nat
    requires values > 0
  {
    a % values
  }

  /** Quotient and remainder have the sign of the dividend. */
  lemma Truncated(a: int, b: int)
    requires b > 0
    ensures a == Quotient(a, b) * b + Remainder(a, b)
    ensures a >= 0 ==> Quotient(a, b) >= 0 && 0 <= Remainder(a, b) < b
    ensures a <= 0 ==> Quotient(a, b) <= 0 && -b < Remainder(a, b) <= 0
  {}

  /** A cast of a part below zero is no such part. */
  lemma NoneBelowZero(part: int, limit: int, values: int)
    requires -limit < part < limit && 0 < 2 * limit <= values
    ensures if part < 0 then Cast(part, values) >= limit else Cast(part, values) == part
  {
    if part < 0 { assert Cast(part, values) == Cast(part + values, values); }
  }

  // Century and block of four years of a day in a cycle of 400 years; of days before day 0 no block is positive.
  method SplitCycle(inCycle: int) returns (years100: int, years4: int, day4: int, leap: bool)
    requires -146097 < inCycle < 146097
    ensures inCycle >= 0 ==> 0 <= years100 < 4 && 0 <= years4 < 25 && leap == (years100 == 0 || years4 > 0)
    ensures inCycle >= 0 ==> inCycle == CycleDays(years100, years4) + day4 && 0 <= day4 < BlockDays(4, leap)
    ensures inCycle < 0 ==> -4 <= years100 <= 0 && -25 <= years4 <= 0 && -1461 <= day4 <= 0
    ensures inCycle < 0 && years100 == years4 == 0 ==> leap && day4 == inCycle
    ensures -1461 < inCycle < 0 ==> years100 == years4 == 0
  {
    var date := inCycle;
    years100 := Quotient(date - 1, 36524);
    years4, day4 := Quotient(date, 1461), Remainder(date, 1461);
    leap := true;
    if years100 != 0 {
      date := Remainder(date - 1, 36524);
      years4 := Quotient(date + 1, 1461);
      if years4 != 0 {
        day4 := Remainder(date + 1, 1461);
      } else {
        leap := false;
        day4 := date;
      }
    }
  }

  // The year of a day in a block of four years.
  method SplitBlock(inBlock: int, leap: bool) returns (yr: int, day4: int)
    requires -1461 <= inBlock < BlockDays(4, leap)
    ensures inBlock >= 0 ==> 0 <= yr < 4 && inBlock == BlockDays(yr, leap) + day4
    ensures inBlock >= 0 ==> 0 <= day4 < if yr == 0 && leap then 366 else 365
    ensures inBlock < 0 ==> -5 <= yr <= 0 && -365 < day4 <= 0 && (yr == 0 ==> day4 == inBlock)
    ensures -364 < inBlock < 0 && leap ==> yr == 0
  {
    day4 := inBlock;
    if leap {
      yr := Quotient(day4 - 1, 365);
      if yr != 0 { day4 := Remainder(day4 - 1, 365); }
    } else {
      yr := Quotient(day4, 365);
      day4 := Remainder(day4, 365);
    }
  }

  // Month and day from the 0-based day of the year; from day -2 down the loop runs off the table of months.
  method SplitMonths(day0: int, leap: bool, ghost y: nat) returns (ok: bool, month: nat, day: nat)
    requires leap == Leap(y) && -365 < day0 < YearDays(y)
    ensures ok <==> day0 >= -1
    ensures day0 >= 0 ==> ValidDate(y, month, day) && DaysBeforeMonth(y, month) + day == day0 + 1
    ensures day0 == -1 ==> month == 1 && day == 0
  {
    ok := true;
    if leap && day0 == 59 {
      month, day := 2, 29;
      MonthStart(y, 2);
    } else {
      var day4 := day0;
      if !leap || day4 < 60 { day4 := day4 + 1; }
      month := FindMonth(day4);
      if month > 12 {
        return false, month, 0;
      }
      day := Cast(day4 - MONTH_DAYS[month - 1], 256);
      MonthStart(y, month);
    }
  }

  /** The loop starts no later than at the month of the day. */
  lemma EstimatedMonth(day4: int)
    requires -365 < day4 <= 365
    ensures var m := Cast(day4, 256) / 32 + 1; 1 <= m <= 8 && (day4 >= 0 ==> m == 1 || MONTH_DAYS[m - 1] < day4)
    ensures day4 == 0 ==> Cast(day4, 256) / 32 + 1 == 1
    ensures Cast(day4, 65536) == if day4 < 0 then day4 + 65536 else day4
  {}

  // The loop over the table of months, from the estimated month; 13 when it leaves the table.
  method FindMonth(day4: int) returns (month: nat)
    requires -365 < day4 <= 365
    ensures 1 <= month <= 13 && (month == 13 <==> day4 < 0)
    ensures day4 > 0 ==> MONTH_DAYS[month - 1] < day4 <= MONTH_DAYS[month]
    ensures day4 == 0 ==> month == 1
  {
    month := Cast(day4, 256) / 32 + 1;
    EstimatedMonth(day4);
    while month <= 12 && Cast(day4, 65536) > MONTH_DAYS[month]
      invariant 1 <= month <= 13 && (month == 13 ==> day4 < 0)
      invariant day4 >= 0 ==> day4 > MONTH_DAYS[month - 1] || month == 1
    {
      month := month + 1;
    }
  }

  // convert_from: also the day of the week, from 1 for Sunday, and the day of the year. Ticks before day 0 run off the
  // table of months or come out as fields that convert_to refuses.
  method ConvertFrom(dt: int) returns (r: Option<Fields>, wday: nat, yday: nat)
    requires -TICKS <= dt < TICKS
    ensures r.Some? && Valid(r.value) && Ticks(r.value) == dt <==> dt >= 0
    ensures dt >= 0 ==> yday == DaysBeforeMonth(r.value.year, r.value.month) + r.value.day && wday == Weekday(dt / DAY)
    ensures dt < 0 && r.Some? ==> ConvertTo(r.value) == None
    ensures -364 * DAY < dt < 0 ==> (r == None <==> dt <= -2 * DAY)
  {
    var date, time := Quotient(dt, DAY), Remainder(dt, DAY);
    wday := DayOfWeek(date);
    var ok, year, month, day;
    ok, year, month, day, yday := SplitDays(date);
    if !ok {
      return None, wday, yday;
    }
    var hour, minute, second, milli := SplitTime(time);
    r := Some(Fields(year, month, day, hour, minute, second, milli));
    ConvertToCounts(r.value);
  }

  method DayOfWeek(date: int) returns (wday: nat)
    ensures date >= 0 ==> wday == Weekday(date)
  {
    wday := Cast(Cast(Remainder(date - 1, 7), 256) + 1, 256);
  }

  // Year and 0-based day of the year; before day 0 the year is zero or, being unsigned, far off.
  method SplitYear(date: int) returns (year: nat, leap: bool, day4: int)
    requires -TICKS / DAY <= date <= TICKS / DAY
    ensures date >= 0 ==> DaysBeforeYear(year) + day4 == date && 0 <= day4 < YearDays(year) && leap == Leap(year)
    ensures date < 0 ==> -365 < day4 <= 0 && (year > 1000000 || (leap && day4 == date))
    ensures -364 < date < 0 ==> leap && day4 == date
  {
    var years400 := Quotient(date, 146097);
    Truncated(date, 146097);
    var years100, years4, yr;
    years100, years4, day4, leap := SplitCycle(Remainder(date, 146097));
    yr, day4 := SplitBlock(day4, leap);
    var sum := years400 * 400 + years100 * 100 + years4 * 4 + yr;
    NoneBelowZero(sum, 0x4000_0000, 0x1_0000_0000);
    year := Cast(sum, 0x1_0000_0000);
    if date >= 0 { YearFound(years400, years100, years4, yr); }
    leap := yr == 0 && leap;
  }

  // The date of a day.
  method SplitDays(date: int) returns (ok: bool, year: nat, month: nat, day: nat, yday: nat)
    requires -TICKS / DAY <= date <= TICKS / DAY
    ensures date >= 0 ==> ok && ValidDate(year, month, day) && DayNumber(year, month, day) == date
    ensures date >= 0 ==> yday == DaysBeforeMonth(year, month) + day
    ensures date < 0 && ok ==> year > 1000000 || day == 0
    ensures -364 < date < 0 ==> (ok <==> date == -1)
  {
    var leap, day4;
    year, leap, day4 := SplitYear(date);
    yday := Cast(Cast(day4, 65536) + 1, 65536);
    ok, month, day := SplitMonths(day4, leap, if date >= 0 then year else if leap then 0 else 1);
  }

  method SplitTime(time: int) returns (hour: nat, minute: nat, second: nat, milli: nat)
    requires -DAY < time < DAY
    ensures time >= 0 ==> ValidTime(hour, minute, second, milli) && TimeOfDay(hour, minute, second, milli) == time
    ensures time < 0 ==> !ValidTime(hour, minute, second, milli)
  {
    if time == 0 {
      return 0, 0, 0, 0;
    }
    var seconds := Quotient(time, 1000);
    milli := Cast(Remainder(time, 1000), 65536);
    second := Cast(Remainder(seconds, 60), 256);
    var minutes := Quotient(seconds, 60);
    minute := Cast(Remainder(minutes, 60), 256);
    hour := Cast(Quotient(minutes, 60), 256);
    Truncated(time, 1000);
    Truncated(seconds, 60);
    Truncated(minutes, 60);
    NoneBelowZero(Remainder(time, 1000), 1000, 65536);
    NoneBelowZero(Remainder(seconds, 60), 60, 256);
    NoneBelowZero(Remainder(minutes, 60), 60, 256);
    NoneBelowZero(Quotient(minutes, 60), 24, 256);
  }

  /** The day of the week, 1 for Sunday to 7 for Saturday; day 0 comes out as 0. */
  function Weekday(days: nat): nat { if days == 0 then 0 else (days - 1) % 7 + 1 }

  /** From day 1 on the days of the week follow one another, and January 1 of year 1 is a Monday. */
  lemma WeekdaysFollow(days: nat)
    ensures days >= 1 ==> 1 <= Weekday(days) <= 7 && Weekday(days + 1) == Weekday(days) % 7 + 1
    ensures Weekday(DayNumber(1, 1, 1)) == 2
  {
    YearStart(1);
  }

  /** The days the library counts from in other date formats: December 30, 1899 and January 1, 1970. */
  lemma Epochs()
    ensures DayNumber(1899, 12, 30) == 693959
    ensures DayNumber(1970, 1, 1) == 693959 + 25569
  {
    YearStart(1899);
    MonthStart(1899, 12);
    YearStart(1970);
  }

  // ----- bijection and order

  ghost predicate Earlier(f: Fields, g: Fields) {
    f.year < g.year || (f.year == g.year && (f.month < g.month || (f.month == g.month && (f.day < g.day || (f.day == g.day &&
      (f.hour < g.hour || (f.hour == g.hour && (f.minute < g.minute || (f.minute == g.minute &&
        (f.second < g.second || (f.second == g.second && f.milli < g.milli)))))))))))
  }

  lemma {:induction false} YearsRise(y: nat, z: nat)
    requires y <= z
    ensures y < z ==> DaysBeforeYear(y) + YearDays(y) <= DaysBeforeYear(z)
  {
    if y + 1 < z { YearsRise(y, z - 1); }
  }

  lemma {:induction false} MonthsRise(y: nat, m: nat, n: nat)
    requires 1 <= m <= n
    ensures m < n ==> DaysBeforeMonth(y, m) + MonthDays(y, m) <= DaysBeforeMonth(y, n)
  {
    if m + 1 < n { MonthsRise(y, m, n - 1); }
  }

  lemma InsideYear(y: nat, m: nat, d: nat)
    requires ValidDate(y, m, d)
    ensures DaysBeforeMonth(y, m) + d <= YearDays(y)
  {
    MonthStart(y, m);
  }

  lemma DaysRise(f: Fields, g: Fields)
    requires Valid(f) && Valid(g)
    requires f.year < g.year || (f.year == g.year && (f.month < g.month || (f.month == g.month && f.day < g.day)))
    ensures DayNumber(f.year, f.month, f.day) < DayNumber(g.year, g.month, g.day)
  {
    InsideYear(f.year, f.month, f.day);
    if f.year < g.year {
      YearsRise(f.year, g.year);
    } else if f.month < g.month {
      MonthsRise(f.year, f.month, g.month);
    }
  }

  /** Ticks rise exactly with the fields, compared from the year down. */
  lemma TicksOrder(f: Fields, g: Fields)
    requires Valid(f) && Valid(g)
    ensures Ticks(f) < Ticks(g) <==> Earlier(f, g)
    ensures Ticks(f) == Ticks(g) <==> f == g
  {
    if Earlier(f, g) { TicksRise(f, g); } else if Earlier(g, f) { TicksRise(g, f); }
  }

  lemma TicksRise(f: Fields, g: Fields)
    requires Valid(f) && Valid(g) && Earlier(f, g)
    ensures Ticks(f) < Ticks(g)
  {
    if f.year != g.year || f.month != g.month || f.day != g.day { DaysRise(f, g); }
  }

  /** Fields to ticks and back: the only fields that convert_from can give back are the ones converted. */
  lemma ThereAndBack(f: Fields, g: Fields)
    requires ConvertTo(f).Some? && Valid(g) && Ticks(g) == ConvertTo(f).value
    ensures g == f
  {
    ConvertToCounts(f);
    TicksOrder(f, g);
  }

  /** Ticks to fields and back: the same ticks, if and only if they lie before year 1000001. */
  lemma BackAndThere(dt: nat, f: Fields)
    requires Valid(f) && Ticks(f) == dt
    ensures ConvertTo(f) == if dt < DaysBeforeYear(1000001) * DAY then Some(dt as int) else None
  {
    ConvertToCounts(f);
    InsideYear(f.year, f.month, f.day);
    if f.year <= 1000000 { YearsRise(f.year, 1000001); } else { YearsRise(1000001, f.year); }
  }

  // convert_to and then convert_from.
  method FieldsReturn(f: Fields) returns (g: Option<Fields>)
    ensures g == if Valid(f) && f.year <= 1000000 then Some(f) else None
  {
    ConvertToCounts(f);
    var t := ConvertTo(f);
    if t == None {
      return None;
    }
    TicksInRange(f);
    var back, wday, yday := ConvertFrom(t.value);
    ThereAndBack(f, back.value);
    return back;
  }

  lemma TicksInRange(f: Fields)
    requires Valid(f) && f.year <= 1000000
    ensures Ticks(f) < TICKS
  {
    InsideYear(f.year, f.month, f.day);
    YearsRise(f.year, 1000001);
    YearStart(1000001);
  }

  // convert_from and then convert_to.
  method TicksReturn(dt: int) returns (t: Option<int>)
    requires -TICKS <= dt < TICKS
    ensures t == if 0 <= dt < DaysBeforeYear(1000001) * DAY then Some(dt) else None
  {
    var f, wday, yday := ConvertFrom(dt);
    if f == None {
      return None;
    }
    if dt >= 0 { BackAndThere(dt, f.value); }
    return ConvertTo(f.value);
  }
}
