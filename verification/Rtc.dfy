// The real-time clock counts seconds from the first of January 2000, under a
// calendar in which every fourth year is a leap year; the Gregorian calendar
// agrees with it for a century.
module Rtc {
  import opened Words

  const SUM_MONTHDAY: seq<nat> := [0, 31, 59, 90, 120, 151, 181, 212, 243, 273, 304, 334, 365]
  const YEARDAY: seq<nat> := [0, 366, 731, 1096, 1461]

  datatype Date = Date(year: int, month: nat, day: nat, hour: nat, minute: nat, second: nat)

  datatype Calendar = EveryFourth | Gregorian

  predicate Leap(year: int) { year % 4 == 0 }

  predicate LeapIn(cal: Calendar, year: int) {
    Leap(year) && (cal == Gregorian ==> year % 100 != 0 || year % 400 == 0)
  }

  function DaysIn(cal: Calendar, year: int, month: nat): nat
    requires 1 <= month <= 12
  {
    if month == 2 then (if LeapIn(cal, year) then 29 else 28)
    else if month in {4, 6, 9, 11} then 30
    else 31
  }

  predicate ValidIn(cal: Calendar, t: Date) {
    && t.year >= 2000 && 1 <= t.month <= 12 && 1 <= t.day <= DaysIn(cal, t.year, t.month)
    && t.hour < 24 && t.minute < 60 && t.second < 60
  }

  // A date of the clock's own calendar.
  predicate ValidDate(t: Date) { ValidIn(EveryFourth, t) }

  const EPOCH: Date := Date(2000, 1, 1, 0, 0, 0)

  // The next second of the calendar.
  function Tick(cal: Calendar, t: Date): (r: Date)
    requires ValidIn(cal, t)
    ensures ValidIn(cal, r)
  {
    if t.second < 59 then t.(second := t.second + 1)
    else if t.minute < 59 then t.(second := 0, minute := t.minute + 1)
    else if t.hour < 23 then t.(second := 0, minute := 0, hour := t.hour + 1)
    else
      var d := t.(second := 0, minute := 0, hour := 0);
      if t.day < DaysIn(cal, t.year, t.month) then d.(day := t.day + 1)
      else if t.month < 12 then d.(day := 1, month := t.month + 1)
      else d.(day := 1, month := 1, year := t.year + 1)
  }

  // The date `n` seconds after the epoch.
  function Counted(cal: Calendar, n: nat): (t: Date)
    ensures ValidIn(cal, t)
  {
    if n == 0 then EPOCH else Tick(cal, Counted(cal, n - 1))
  }

  // ------------------------------------------------------------ the closed form

  function YearStart(y: nat): nat { y / 4 * 1461 + YEARDAY[y % 4] }

  function MonthStart(year: int, month: nat): nat
    requires 1 <= month <= 12
  {
    SUM_MONTHDAY[month - 1] + if Leap(year) && month >= 3 then 1 else 0
  }

  function Days(t: Date): nat
    requires ValidDate(t)
  {
    YearStart(t.year - 2000) + MonthStart(t.year, t.month) + t.day - 1
  }

  function Seconds(t: Date): nat
    requires ValidDate(t)
  {
    ((Days(t) * 24 + t.hour) * 60 + t.minute) * 60 + t.second
  }

  // The register is 32 bits wide; earlier years count as 2000.
  method Mktime(year: int, mon: nat, day: nat, hour: nat, min: nat, sec: nat) returns (counter: u32)
    requires ValidDate(Date(if year < 2000 then 2000 else year, mon, day, hour, min, sec))
    ensures counter == Seconds(Date(if year < 2000 then 2000 else year, mon, day, hour, min, sec)) % 0x1_0000_0000
  {
    var y := year;
    if y < 2000 {
      y := 2000;
    }
    y := y - 2000;
    var n := y / 4 * (365 * 3 + 366);
    n := n + YEARDAY[y % 4];
    if y % 4 != 0 {
      n := n + SUM_MONTHDAY[mon - 1];
    } else if mon >= 3 {
      n := n + SUM_MONTHDAY[mon - 1] + 1;
    } else {
      n := n + SUM_MONTHDAY[mon - 1];
    }
    n := n + day - 1;
    n := n * 24;
    n := n + hour;
    n := n * 60;
    n := n + min;
    n := n * 60;
    n := n + sec;
    counter := n % 0x1_0000_0000;
  }

  // ---------------------------------------------- the closed form is the counting

  lemma YearLength(y: nat)
    ensures YearStart(y + 1) == YearStart(y) + if Leap(y + 2000) then 366 else 365
  {
  }

  lemma MonthLength(year: int, month: nat)
    requires 1 <= month <= 12
    ensures month < 12 ==> MonthStart(year, month + 1) == MonthStart(year, month) + DaysIn(EveryFourth, year, month)
    ensures month == 12 ==> MonthStart(year, 12) + DaysIn(EveryFourth, year, 12) == if Leap(year) then 366 else 365
  {
  }

  lemma TickAddsOne(t: Date)
    requires ValidDate(t)
    ensures Seconds(Tick(EveryFourth, t)) == Seconds(t) + 1
  {
    hide YearStart, DaysIn;
    YearLength(t.year - 2000);
    MonthLength(t.year, t.month);
  }

  predicate Before(s: Date, t: Date) {
    if s.year != t.year then s.year < t.year
    else if s.month != t.month then s.month < t.month
    else if s.day != t.day then s.day < t.day
    else if s.hour != t.hour then s.hour < t.hour
    else if s.minute != t.minute then s.minute < t.minute
    else s.second < t.second
  }

  lemma {:induction false} YearsGrow(y: nat, z: nat)
    requires y < z
    ensures YearStart(y) + (if Leap(y + 2000) then 366 else 365) <= YearStart(z)
    decreases z
  {
    YearLength(z - 1);
    if y < z - 1 { YearsGrow(y, z - 1); }
  }

  lemma {:induction false} MonthsGrow(year: int, m: nat, n: nat)
    requires 1 <= m < n <= 12
    ensures MonthStart(year, m) + DaysIn(EveryFourth, year, m) <= MonthStart(year, n)
    decreases n
  {
    MonthLength(year, n - 1);
    if m < n - 1 { MonthsGrow(year, m, n - 1); }
  }

  lemma DaysGrow(s: Date, t: Date)
    requires ValidDate(s) && ValidDate(t) && Before(s, t)
    ensures Days(s) <= Days(t) && (Days(s) == Days(t) ==> s.year == t.year && s.month == t.month && s.day == t.day)
  {
    hide YearStart, MonthStart, DaysIn, Leap;
    if s.year < t.year {
      YearsGrow(s.year - 2000, t.year - 2000);
      MonthLength(s.year, s.month);
      MonthLength(s.year, 12);
      if s.month < 12 { MonthsGrow(s.year, s.month, 12); }
    } else if s.month < t.month {
      MonthsGrow(s.year, s.month, t.month);
    }
  }

  // Later dates have larger counts.
  lemma SecondsGrow(s: Date, t: Date)
    requires ValidDate(s) && ValidDate(t) && Before(s, t)
    ensures Seconds(s) < Seconds(t)
  {
    hide Days;
    DaysGrow(s, t);
  }

  lemma EpochSeconds()
    ensures ValidDate(EPOCH) && Seconds(EPOCH) == 0
  {
    assert YearStart(0) == 0 && MonthStart(2000, 1) == 0;
    assert Days(EPOCH) == 0;
    hide Days;
  }

  // The closed form of a date is the number of seconds counted to reach it, and
  // every date is reached.
  lemma {:induction false} CountedSeconds(n: nat)
    ensures Seconds(Counted(EveryFourth, n)) == n
  {
    hide Seconds, Tick;
    if n > 0 {
      CountedSeconds(n - 1);
      TickAddsOne(Counted(EveryFourth, n - 1));
    } else {
      EpochSeconds();
    }
  }

  lemma EveryDateIsCounted(t: Date)
    requires ValidDate(t)
    ensures Counted(EveryFourth, Seconds(t)) == t
  {
    hide Seconds, Counted;
    var s := Counted(EveryFourth, Seconds(t));
    CountedSeconds(Seconds(t));
    if Before(s, t) {
      SecondsGrow(s, t);
    } else if Before(t, s) {
      SecondsGrow(t, s);
    }
  }

  const OVERFLOW: Date := Date(2136, 2, 6, 6, 28, 16)

  lemma OverflowSeconds()
    ensures ValidDate(OVERFLOW) && Seconds(OVERFLOW) == 0x1_0000_0000
  {
    assert YearStart(136) == 49674 && MonthStart(2136, 2) == 31;
    assert Days(OVERFLOW) == 49710;
    hide Days;
  }

  // The 32-bit register holds the count of a date exactly when the date lies
  // before the one at which the count overflows.
  lemma RegisterIsExact(t: Date)
    requires ValidDate(t)
    ensures Seconds(t) % 0x1_0000_0000 == Seconds(t) <==> Before(t, OVERFLOW)
  {
    hide Seconds;
    OverflowSeconds();
    if Before(t, OVERFLOW) {
      SecondsGrow(t, OVERFLOW);
    } else if t != OVERFLOW {
      SecondsGrow(OVERFLOW, t);
    }
  }

  // ------------------------------------------------------ the Gregorian calendar

  // The second before a date.
  function Previous(t: Date): (r: Date)
    requires ValidIn(Gregorian, t) && t != EPOCH
    ensures ValidIn(Gregorian, r) && Tick(Gregorian, r) == t && Before(r, t)
  {
    if t.second > 0 then t.(second := t.second - 1)
    else if t.minute > 0 then t.(second := 59, minute := t.minute - 1)
    else if t.hour > 0 then t.(second := 59, minute := 59, hour := t.hour - 1)
    else
      var d := t.(second := 59, minute := 59, hour := 23);
      if t.day > 1 then d.(day := t.day - 1)
      else if t.month > 1 then d.(day := DaysIn(Gregorian, t.year, t.month - 1), month := t.month - 1)
      else d.(day := 31, month := 12, year := t.year - 1)
  }

  // The number of seconds between the epoch and a Gregorian date.
  function Elapsed(t: Date): nat
    requires ValidIn(Gregorian, t)
    decreases t.year, t.month, t.day, t.hour, t.minute, t.second
  {
    if t == EPOCH then 0 else 1 + Elapsed(Previous(t))
  }

  lemma {:induction false} ElapsedCounts(t: Date)
    requires ValidIn(Gregorian, t)
    ensures Counted(Gregorian, Elapsed(t)) == t
    decreases t.year, t.month, t.day, t.hour, t.minute, t.second
  {
    if t != EPOCH { ElapsedCounts(Previous(t)); }
  }

  const MARCH_2100: Date := Date(2100, 3, 1, 0, 0, 0)

  // A Gregorian second is a second of the clock's calendar, except the one that
  // skips the 29th of February of a year such as 2100.
  lemma GregorianTick(t: Date)
    requires ValidIn(Gregorian, t)
    ensures ValidDate(t) && ValidDate(Tick(Gregorian, t)) && Before(t, Tick(Gregorian, t))
    ensures Before(t, MARCH_2100) && Before(Tick(Gregorian, t), MARCH_2100) ==>
              Tick(Gregorian, t) == Tick(EveryFourth, t)
    ensures !Before(t, MARCH_2100) ==> !Before(Tick(Gregorian, t), MARCH_2100)
    ensures Before(t, MARCH_2100) && !Before(Tick(Gregorian, t), MARCH_2100) ==>
              t == Date(2100, 2, 28, 23, 59, 59) && Tick(Gregorian, t) == MARCH_2100
  {
  }

  // Before that day the clock shows the seconds that have passed, then more.
  predicate Agrees(t: Date, n: nat) {
    ValidDate(t) && if Before(t, MARCH_2100) then Seconds(t) == n else Seconds(t) > n
  }

  lemma AgreementTicks(s: Date, n: nat)
    requires ValidIn(Gregorian, s) && Agrees(s, n)
    ensures Agrees(Tick(Gregorian, s), n + 1)
  {
    GregorianTick(s);
    var t := Tick(Gregorian, s);
    if Before(s, MARCH_2100) && !Before(t, MARCH_2100) {
      LeapDay();
    } else if Before(s, MARCH_2100) {
      TickAddsOne(s);
    } else {
      SecondsGrow(s, t);
    }
    hide Seconds, Tick, Before, ValidIn, ValidDate;
  }

  lemma {:induction false} CalendarsAgree(n: nat)
    ensures Agrees(Counted(Gregorian, n), n)
  {
    if n == 0 {
      EpochSeconds();
      hide Seconds;
    } else {
      hide Agrees, Tick;
      CalendarsAgree(n - 1);
      AgreementTicks(Counted(Gregorian, n - 1), n - 1);
    }
  }

  lemma LeapDay()
    ensures ValidDate(Date(2100, 2, 28, 23, 59, 59)) && ValidDate(MARCH_2100)
    ensures Seconds(MARCH_2100) == Seconds(Date(2100, 2, 28, 23, 59, 59)) + 86401
  {
    var t := Date(2100, 2, 28, 23, 59, 59);
    assert Days(MARCH_2100) == Days(t) + 2;
    hide Days;
  }

  // The clock counts the seconds that have passed exactly for the dates before
  // the first of March 2100.
  lemma ClockIsGregorian(t: Date)
    requires ValidIn(Gregorian, t)
    ensures ValidDate(t) && (Seconds(t) == Elapsed(t) <==> Before(t, MARCH_2100))
  {
    hide Counted, Elapsed, Seconds, Before, ValidIn;
    ElapsedCounts(t);
    CalendarsAgree(Elapsed(t));
  }
}
