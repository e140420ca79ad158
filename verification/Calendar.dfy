/** mkgmtime: a broken-down UTC time as seconds since the Epoch (section 4.16 of
    the POSIX.1-2017 Base Definitions), against a calendar counted day by day. */
module Calendar {
  datatype Tm = Tm(sec: int, min: int, hour: int, mday: int, mon: int, year: int)

  /** A day of the Gregorian calendar; months count from 0, days from 1. */
  datatype Date = Date(year: int, month: nat, day: nat)

  // ----- The reference calendar -----

  predicate IsLeap(y: int) {
    y % 4 == 0 && (y % 100 != 0 || y % 400 == 0)
  }

  function YearLength(y: int): nat {
    if IsLeap(y) then 366 else 365
  }

  const MONTH_LENGTHS: seq<nat> := [31, 28, 31, 30, 31, 30, 31, 31, 30, 31, 30, 31]

  function MonthLength(y: int, m: nat): nat
    requires m < 12
  {
    if m == 1 && IsLeap(y) then 29 else MONTH_LENGTHS[m]
  }

  predicate IsDate(d: Date) {
    d.year >= 1970 && d.month < 12 && 1 <= d.day <= MonthLength(d.year, d.month)
  }

  const EPOCH := Date(1970, 0, 1)

  function NextDay(d: Date): (n: Date)
    requires IsDate(d)
    ensures IsDate(n)
  {
    if d.day < MonthLength(d.year, d.month) then Date(d.year, d.month, d.day + 1)
    else if d.month < 11 then Date(d.year, d.month + 1, 1)
    else Date(d.year + 1, 0, 1)
  }

  /** The date n days after the Epoch, one day at a time. */
  function DateAfter(n: nat): (d: Date)
    ensures IsDate(d)
  {
    if n == 0 then EPOCH else NextDay(DateAfter(n - 1))
  }

  // ----- Counting whole years and months -----

  function DaysBeforeYear(y: int): nat
    requires y >= 1970
    decreases y
  {
    if y == 1970 then 0 else DaysBeforeYear(y - 1) + YearLength(y - 1)
  }

  function DaysBeforeMonth(y: int, m: nat): nat
    requires m <= 12
  {
    if m == 0 then 0 else DaysBeforeMonth(y, m - 1) + MonthLength(y, m - 1)
  }

  /** The number of days from the Epoch to a day of a year; day may be any number. */
  function DayNumber(y: int, m: nat, day: int): int
    requires y >= 1970 && m < 12
  {
    DaysBeforeYear(y) + DaysBeforeMonth(y, m) + (day - 1)
  }

  /** The number of a day is the number of steps that reach it. */
  lemma NextDayNumber(d: Date)
    requires IsDate(d)
    ensures DayNumber(NextDay(d).year, NextDay(d).month, NextDay(d).day)
         == DayNumber(d.year, d.month, d.day) + 1
  {
    if d.day == MonthLength(d.year, d.month) && d.month == 11 {
      MonthsMakeYear(d.year);
    }
  }

  /** The month table of the program, and the leap day behind February. */
  const M_TO_D: seq<int> := [0, 31, 59, 90, 120, 151, 181, 212, 243, 273, 304, 334]

  lemma DaysBeforeMonthIs(y: int, m: nat)
    requires m < 12
    ensures DaysBeforeMonth(y, m) == M_TO_D[m] + if m > 1 && IsLeap(y) then 1 else 0
  {
    if m > 0 {
      DaysBeforeMonthIs(y, m - 1);
    }
  }

  lemma MonthsMakeYear(y: int)
    ensures DaysBeforeMonth(y, 12) == YearLength(y)
  {
    DaysBeforeMonthIs(y, 11);
  }

  lemma {:induction false} DayByDay(n: nat)
    ensures var d := DateAfter(n); DayNumber(d.year, d.month, d.day) == n
  {
    if n > 0 {
      DayByDay(n - 1);
      NextDayNumber(DateAfter(n - 1));
    }
  }

  function PreviousDay(d: Date): (p: Date)
    requires IsDate(d) && d != EPOCH
    ensures IsDate(p) && NextDay(p) == d
  {
    if d.day > 1 then Date(d.year, d.month, d.day - 1)
    else if d.month > 0 then Date(d.year, d.month - 1, MonthLength(d.year, d.month - 1))
    else Date(d.year - 1, 11, 31)
  }

  /** Every date from the Epoch on is reached, by as many steps as its number. */
  lemma {:induction false} EveryDateCounted(d: Date)
    requires IsDate(d)
    ensures DayNumber(d.year, d.month, d.day) >= 0
    ensures DateAfter(DayNumber(d.year, d.month, d.day)) == d
    decreases d.year, d.month, d.day
  {
    if d != EPOCH {
      var p := PreviousDay(d);
      EveryDateCounted(p);
      NextDayNumber(p);
    }
  }

  // ----- mkgmtime -----

  /** Integer division of C. */
  function Quotient(a: int, b: int): int
    requires b > 0
  {
    if a >= 0 then a / b else -((-a) / b)
  }

  function Remainder(a: int, b: int): int
    requires b > 0
  {
    a - Quotient(a, b) * b
  }

  function ToShort(x: int): (r: int)
    ensures -0x8000 <= r < 0x8000
    ensures -0x8000 <= x < 0x8000 ==> r == x
  {
    var m := x % 0x1_0000;
    if m < 0x8000 then m else m - 0x1_0000
  }

  /** The year and month that tm means: months outside 0..11 carry into the year. */
  function CivilYear(tm: Tm): int { tm.year + 1900 + tm.mon / 12 }
  function CivilMonth(tm: Tm): nat { tm.mon % 12 }

  /** Seconds since the Epoch by counting years, months, days, hours and minutes. */
  function EpochSeconds(tm: Tm): int
    requires CivilYear(tm) >= 1970
  {
    ((DayNumber(CivilYear(tm), CivilMonth(tm), tm.mday) * 24 + tm.hour) * 60 + tm.min) * 60 + tm.sec
  }

  /** What the closed form adds for leap years up to y, February included. */
  function LeapDays(y: int): int {
    Quotient(y - 1968, 4) - Quotient(y - 1900, 100) + Quotient(y - 1600, 400)
  }

  lemma FourStep(y: int)
    requires y >= 1970
    ensures Quotient(y - 1968, 4) == Quotient(y - 1 - 1968, 4) + if y % 4 == 0 then 1 else 0
  {
  }

  lemma HundredStep(y: int)
    requires y >= 1970
    ensures Quotient(y - 1900, 100) == Quotient(y - 1 - 1900, 100) + if y % 100 == 0 then 1 else 0
  {
  }

  lemma FourHundredStep(y: int)
    requires y >= 1970
    ensures Quotient(y - 1600, 400) == Quotient(y - 1 - 1600, 400) + if y % 400 == 0 then 1 else 0
  {
  }

  lemma LeapDaysStep(y: int)
    requires y >= 1970
    ensures LeapDays(y) == LeapDays(y - 1) + if IsLeap(y) then 1 else 0
  {
    hide Quotient;
    FourStep(y);
    HundredStep(y);
    FourHundredStep(y);
    assert y % 400 == 0 ==> y % 100 == 0;
    assert y % 100 == 0 ==> y % 4 == 0;
  }

  lemma {:induction false} DaysBeforeYearIs(y: int)
    requires y >= 1970
    ensures DaysBeforeYear(y) == (y - 1970) * 365 + LeapDays(y - 1)
    decreases y
  {
    if y > 1970 {
      DaysBeforeYearIs(y - 1);
      LeapDaysStep(y - 1);
    }
  }

  /** The closed form counts the days before a month. */
  lemma ClosedForm(y: int, m: nat)
    requires y >= 1970 && m < 12
    ensures (y - 1970) * 365 + M_TO_D[m] + LeapDays(if m <= 1 then y - 1 else y)
         == DaysBeforeYear(y) + DaysBeforeMonth(y, m)
  {
    hide LeapDays, DaysBeforeYear, DaysBeforeMonth;
    DaysBeforeYearIs(y);
    LeapDaysStep(y);
    DaysBeforeMonthIs(y, m);
  }

  /** The truncating division of C, once a negative month is brought back to 0..11,
      carries months into years as floor division does. */
  lemma MonthCarry(mon: int)
    ensures var r := Remainder(mon, 12);
            && -12 < r < 12
            && mon % 12 == (if r < 0 then r + 12 else r)
            && mon / 12 == (if r < 0 then Quotient(mon, 12) - 1 else Quotient(mon, 12))
  {
  }

  /** What result holds after the assignments that count the days before a month. */
  function DayPartials(y: int, m: nat): (r: seq<int>)
    requires m < 12
    ensures |r| == 4
  {
    var z := if m <= 1 then y - 1 else y;
    var table := (y - 1970) * 365 + M_TO_D[m];
    var fours := table + Quotient(z - 1968, 4);
    var hundreds := fours - Quotient(z - 1900, 100);
    [table, fours, hundreds, hundreds + Quotient(z - 1600, 400)]
  }

  /** And then after those that add the day and the time. */
  function TimePartials(before: int, tm: Tm): (r: seq<int>)
    ensures |r| == 8
  {
    var days := before + tm.mday - 1;
    var hours := days * 24 + tm.hour;
    var minutes := hours * 60 + tm.min;
    [days + 1, days, days * 24, hours, hours * 60, minutes, minutes * 60, minutes * 60 + tm.sec]
  }

  function Partials(tm: Tm): (r: seq<int>)
    ensures |r| == 12
  {
    var first := DayPartials(CivilYear(tm), CivilMonth(tm));
    first + TimePartials(first[3], tm)
  }

  /** When month and year fit the program's shorts. */
  predicate InShorts(tm: Tm) {
    -0x8000 <= tm.mon < 0x8000 && 1970 <= CivilYear(tm) < 0x8000
  }

  /** Whatever tm holds, the month index stays inside the table. When month and
      year fit the program's shorts and the date is not before the Epoch, the
      result is the number of seconds since the Epoch. */
  method Mkgmtime(tm: Tm) returns (result: int, ghost steps: seq<int>)
    ensures InShorts(tm) ==> result == EpochSeconds(tm)
    ensures InShorts(tm) ==> steps == Partials(tm)
  {
    hide Quotient, Remainder, DayPartials, TimePartials, DayNumber;
    var month := ToShort(tm.mon);
    MonthCarry(month);
    var year := ToShort(tm.year + Quotient(month, 12) + 1900);
    month := Remainder(month, 12);
    if month < 0 {
      year := ToShort(year - 1);
      month := month + 12;
    }
    assert InShorts(tm) ==> year == CivilYear(tm) && month == CivilMonth(tm);
    ghost var more;
    result, steps := CountDays(year, month);
    result, more := AddTime(tm, result);
    steps := steps + more;
    if InShorts(tm) {
      DaysCounted(tm);
    }
  }

  /** The first half of mkgmtime: the days before the month. */
  method CountDays(y: int, month: nat) returns (result: int, ghost steps: seq<int>)
    requires -0x8000 <= y < 0x8000 && month < 12
    ensures y > -0x8000 ==> steps == DayPartials(y, month) && result == steps[3]
  {
    hide Quotient;
    var year := y;
    result := (year - 1970) * 365 + M_TO_D[month];
    steps := [result];
    if month <= 1 {
      year := ToShort(year - 1);
    }
    result := result + Quotient(year - 1968, 4);
    steps := steps + [result];
    result := result - Quotient(year - 1900, 100);
    steps := steps + [result];
    result := result + Quotient(year - 1600, 400);
    steps := steps + [result];
  }

  lemma DaysCounted(tm: Tm)
    requires CivilYear(tm) >= 1970
    ensures DayPartials(CivilYear(tm), CivilMonth(tm))[3] + tm.mday - 1
         == DayNumber(CivilYear(tm), CivilMonth(tm), tm.mday)
  {
    hide Quotient, DaysBeforeYear, DaysBeforeMonth;
    ClosedForm(CivilYear(tm), CivilMonth(tm));
  }

  /** The second half of mkgmtime: from the days before the month on. */
  method AddTime(tm: Tm, before: int) returns (result: int, ghost steps: seq<int>)
    ensures result == (((before + tm.mday - 1) * 24 + tm.hour) * 60 + tm.min) * 60 + tm.sec
    ensures steps == TimePartials(before, tm)
  {
    result := before + tm.mday;
    steps := [result];
    result := result - 1;
    steps := steps + [result];
    result := result * 24;
    steps := steps + [result];
    result := result + tm.hour;
    steps := steps + [result];
    result := result * 60;
    steps := steps + [result];
    result := result + tm.min;
    steps := steps + [result];
    result := result * 60;
    steps := steps + [result];
    result := result + tm.sec;
    steps := steps + [result];
  }

  // ----- Order and range -----

  lemma DayInYear(d: Date)
    requires IsDate(d)
    ensures DaysBeforeYear(d.year) <= DayNumber(d.year, d.month, d.day) < DaysBeforeYear(d.year + 1)
  {
    DaysBeforeMonthIs(d.year, d.month);
  }

  lemma {:induction false} YearsGrow(y: int, z: int)
    requires 1970 <= y <= z
    ensures DaysBeforeYear(y) <= DaysBeforeYear(z)
    decreases z - y
  {
    if y < z {
      YearsGrow(y, z - 1);
    }
  }

  lemma {:induction false} MonthsGrow(y: int, m: nat, n: nat)
    requires m < n <= 12
    ensures DaysBeforeMonth(y, m) + MonthLength(y, m) <= DaysBeforeMonth(y, n)
  {
    if m + 1 < n {
      MonthsGrow(y, m, n - 1);
    }
  }

  predicate DateBefore(a: Date, b: Date) {
    || a.year < b.year
    || (a.year == b.year && a.month < b.month)
    || (a.year == b.year && a.month == b.month && a.day < b.day)
  }

  lemma DaysGrow(a: Date, b: Date)
    requires IsDate(a) && IsDate(b) && DateBefore(a, b)
    ensures DayNumber(a.year, a.month, a.day) < DayNumber(b.year, b.month, b.day)
  {
    if a.year < b.year {
      DayInYear(a);
      DayInYear(b);
      YearsGrow(a.year + 1, b.year);
    } else if a.month < b.month {
      MonthsGrow(a.year, a.month, b.month);
    }
  }

  /** A valid UTC date and time, not before the Epoch. */
  predicate IsTime(tm: Tm) {
    && 0 <= tm.mon < 12 && IsDate(DateOf(tm))
    && 0 <= tm.hour < 24 && 0 <= tm.min < 60 && 0 <= tm.sec < 60
  }

  function DateOf(tm: Tm): Date
    requires 0 <= tm.mon
  {
    Date(tm.year + 1900, tm.mon, if tm.mday >= 0 then tm.mday else 0)
  }

  predicate TimeBefore(a: Tm, b: Tm)
    requires 0 <= a.mon && 0 <= b.mon
  {
    || DateBefore(DateOf(a), DateOf(b))
    || (DateOf(a) == DateOf(b)
        && (a.hour < b.hour
            || (a.hour == b.hour && a.min < b.min)
            || (a.hour == b.hour && a.min == b.min && a.sec < b.sec)))
  }

  /** Later times have larger numbers. */
  lemma StrictlyMonotone(a: Tm, b: Tm)
    requires IsTime(a) && IsTime(b) && TimeBefore(a, b)
    ensures EpochSeconds(a) < EpochSeconds(b)
  {
    hide DayNumber;
    assert CivilYear(a) == DateOf(a).year && CivilYear(b) == DateOf(b).year;
    if DateBefore(DateOf(a), DateOf(b)) {
      DaysGrow(DateOf(a), DateOf(b));
    }
  }

  const LAST_INT32 := Tm(7, 14, 3, 19, 0, 138)  // 2038-01-19 03:14:07

  lemma LastInt32()
    ensures EpochSeconds(LAST_INT32) == 0x7FFF_FFFF
  {
    hide DaysBeforeYear, LeapDays;
    DaysBeforeYearIs(2038);
    assert LeapDays(2037) == 17 by { LeapDaysIn2037(); }
  }

  lemma LeapDaysIn2037()
    ensures LeapDays(2037) == 17
  {
  }

  lemma {:induction false} YearIsLong(y: int)
    requires y >= 1970
    ensures (y - 1970) * 365 <= DaysBeforeYear(y)
    decreases y
  {
    if y > 1970 {
      YearIsLong(y - 1);
    }
  }

  /** What mkgmtime holds on the way is never negative, and never more than it returns but
      for the 1 that the day of the month is on the first day of all: if the result fits a
      time_t, so does everything before it. */
  lemma IntermediatesFit(tm: Tm, i: nat)
    requires IsTime(tm) && i < |Partials(tm)|
    ensures 0 <= Partials(tm)[i] && (Partials(tm)[i] <= EpochSeconds(tm) || Partials(tm)[i] == 1)
  {
    hide DayPartials, TimePartials, DayNumber, EpochSeconds;
    var y, m := CivilYear(tm), CivilMonth(tm);
    var days := DayNumber(y, m, tm.mday);
    DaysCounted(tm);
    DaysBound(tm);
    SecondsOf(tm, days);
    if i < 4 {
      DayPartialsFit(y, m, i, days, EpochSeconds(tm));
    } else {
      TimePartialsFit(tm, DayPartials(y, m)[3], i - 4);
    }
  }

  lemma DaysBound(tm: Tm)
    requires IsTime(tm)
    ensures (CivilYear(tm) - 1970) * 365 <= DayNumber(CivilYear(tm), CivilMonth(tm), tm.mday)
    ensures DayPartials(CivilYear(tm), CivilMonth(tm))[3] <= DayNumber(CivilYear(tm), CivilMonth(tm), tm.mday)
  {
    DaysCounted(tm);
    hide DayPartials, DayNumber, DaysBeforeYear;
    DayInYear(DateOf(tm));
    YearIsLong(CivilYear(tm));
  }

  lemma SecondsOf(tm: Tm, days: int)
    requires IsTime(tm) && days == DayNumber(CivilYear(tm), CivilMonth(tm), tm.mday) && days >= 0
    ensures 86_400 * days <= EpochSeconds(tm)
    ensures EpochSeconds(tm) == ((days * 24 + tm.hour) * 60 + tm.min) * 60 + tm.sec
  {
    hide DayNumber;
  }

  lemma DayPartialsFit(y: int, m: nat, i: nat, days: int, total: int)
    requires y >= 1970 && m < 12 && i < 4
    requires (y - 1970) * 365 <= days && DayPartials(y, m)[3] <= days && 86_400 * days <= total
    ensures 0 <= DayPartials(y, m)[i] <= total
  {
    hide Quotient;
    LeapTerms(y, m);
    assert 0 <= M_TO_D[m] <= 334;
  }

  lemma TimePartialsFit(tm: Tm, before: int, i: nat)
    requires IsTime(tm) && i < 8 && before + tm.mday - 1 >= 0
    ensures var r := TimePartials(before, tm);
            && 0 <= r[i] && (r[i] <= r[7] || r[i] == 1)
            && r[7] == (((before + tm.mday - 1) * 24 + tm.hour) * 60 + tm.min) * 60 + tm.sec
  {
    hide IsDate;
  }

  /** The terms of the closed form that count leap years. */
  lemma LeapTerms(y: int, m: nat)
    requires y >= 1970 && m < 12
    ensures var z := if m <= 1 then y - 1 else y;
            && 0 <= Quotient(z - 1968, 4) <= y - 1970
            && 0 <= Quotient(z - 1900, 100) <= y - 1970 && 0 <= Quotient(z - 1600, 400)
  {
  }

  /** A 31-bit time_t holds exactly the times up to 2038-01-19 03:14:07. */
  lemma FitsInt31(tm: Tm)
    requires IsTime(tm)
    ensures EpochSeconds(tm) < 0x8000_0000 <==> tm == LAST_INT32 || TimeBefore(tm, LAST_INT32)
  {
    hide EpochSeconds;
    LastInt32();
    if TimeBefore(tm, LAST_INT32) {
      StrictlyMonotone(tm, LAST_INT32);
    } else if tm != LAST_INT32 {
      TimesCompare(tm, LAST_INT32);
      StrictlyMonotone(LAST_INT32, tm);
    }
  }

  lemma TimesCompare(a: Tm, b: Tm)
    requires IsTime(a) && IsTime(b) && a != b && !TimeBefore(a, b)
    ensures TimeBefore(b, a)
  {
  }
}
