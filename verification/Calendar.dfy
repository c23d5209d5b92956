/** Seconds since the epoch and broken-down time: two loops that invert each other. */
module Calendar {
  import opened Words

  predicate IsLeap(year: int) { (year % 4 == 0 && year % 100 != 0) || year % 400 == 0 }

  function YearDays(year: int): int { if IsLeap(year) then 366 else 365 }

  const MONTH_DAYS: seq<int> := [31, 28, 31, 30, 31, 30, 31, 31, 30, 31, 30, 31]

  function MonthDays(leap: bool, mon: nat): int
    requires mon < 12
  {
    MONTH_DAYS[mon] + if leap && mon == 1 then 1 else 0
  }

  /** The days of the years from 1970 up to the one before. */
  function DaysBefore(year: int): (d: nat)
    decreases year
  {
    if year <= 1970 then 0 else DaysBefore(year - 1) + YearDays(year - 1)
  }

  /** The days of the months before mon. */
  function MonthsBefore(leap: bool, mon: nat): (d: nat)
    requires mon <= 12
  {
    if mon == 0 then 0 else MonthsBefore(leap, mon - 1) + MonthDays(leap, mon - 1)
  }

  /** The leap years up to y, counted from year 1. */
  function LeapYears(y: int): int { y / 4 - y / 100 + y / 400 }

  lemma {:induction false} OneMoreLeap(y: int)
    ensures LeapYears(y) == LeapYears(y - 1) + if IsLeap(y) then 1 else 0
  {
    Quotient(y, 4); Quotient(y, 100); Quotient(y, 400);
    Multiples(y);
  }

  lemma {:induction false} Multiples(y: int)
    ensures (y % 400 == 0 ==> y % 100 == 0) && (y % 100 == 0 ==> y % 4 == 0)
  {
  }

  /** The Gregorian rule in closed form. */
  lemma {:induction false} DaysBeforeIs(year: int)
    requires year >= 1970
    ensures DaysBefore(year) == 365 * (year - 1970) + (year - 1) / 4 - (year - 1) / 100 + (year - 1) / 400 - 477
    decreases year
  {
    hide IsLeap;
    if year > 1970 {
      DaysBeforeIs(year - 1);
      OneMoreLeap(year - 1);
    }
  }

  lemma {:induction false} Quotient(y: int, n: int)
    requires n > 1
    ensures y / n == (y - 1) / n + if y % n == 0 then 1 else 0
  {
    var q, r := y / n, y % n;
    assert y == q * n + r;
    if r == 0 {
      assert y - 1 == (q - 1) * n + (n - 1);
      DivModUnique(y - 1, n, q - 1, n - 1);
    } else {
      DivModUnique(y - 1, n, q, r - 1);
    }
  }

  /** The civil fields. */
  datatype Civil = Civil(year: int, mon: int, mday: int, hour: int, min: int, sec: int)

  predicate InMonth(c: Civil) { 0 <= c.mon < 12 && 1 <= c.mday <= MonthDays(IsLeap(c.year), c.mon) }

  /** A date and time that exists, from 1970 on. */
  predicate Normal(c: Civil)
  {
    c.year >= 1970 && InMonth(c) && 0 <= c.hour < 24 && 0 <= c.min < 60 && 0 <= c.sec < 60
  }

  /** The day of the year, from 0. */
  function YearDay(c: Civil): int
    requires 0 <= c.mon <= 12
  {
    MonthsBefore(IsLeap(c.year), c.mon) + c.mday - 1
  }

  function DayNumber(c: Civil): int
    requires 0 <= c.mon <= 12
  {
    DaysBefore(c.year) + YearDay(c)
  }

  /** Seconds since the epoch. */
  function Seconds(c: Civil): int
    requires 0 <= c.mon <= 12
  {
    DayNumber(c) * 86400 + c.hour * 3600 + c.min * 60 + c.sec
  }

  lemma {:induction false} MonthsGrow(leap: bool, a: nat, b: nat)
    requires a < b <= 12
    ensures MonthsBefore(leap, a) + MonthDays(leap, a) <= MonthsBefore(leap, b)
    decreases b
  {
    if a < b - 1 { MonthsGrow(leap, a, b - 1); }
  }

  lemma {:induction false} WholeYear(year: int)
    ensures MonthsBefore(IsLeap(year), 12) == YearDays(year)
  {
    var leap := IsLeap(year);
    var extra := if leap then 1 else 0;
    assert MonthsBefore(leap, 1) == 31;
    assert MonthsBefore(leap, 2) == 59 + extra;
    assert MonthsBefore(leap, 3) == 90 + extra;
    assert MonthsBefore(leap, 4) == 120 + extra;
    assert MonthsBefore(leap, 5) == 151 + extra;
    assert MonthsBefore(leap, 6) == 181 + extra;
    assert MonthsBefore(leap, 7) == 212 + extra;
    assert MonthsBefore(leap, 8) == 243 + extra;
    assert MonthsBefore(leap, 9) == 273 + extra;
    assert MonthsBefore(leap, 10) == 304 + extra;
    assert MonthsBefore(leap, 11) == 334 + extra;
  }

  lemma {:induction false} YearsGrow(a: int, b: int)
    requires 1970 <= a < b
    ensures DaysBefore(a) + YearDays(a) <= DaysBefore(b)
    decreases b
  {
    if a < b - 1 { YearsGrow(a, b - 1); }
  }

  /** A date lies in its year. */
  lemma {:induction false} InYear(c: Civil)
    requires InMonth(c)
    ensures 0 <= YearDay(c) < YearDays(c.year)
  {
    MonthsGrow(IsLeap(c.year), c.mon, 12);
    WholeYear(c.year);
  }

  /** Earlier in the calendar, year before month before day before time. */
  predicate Before(a: Civil, b: Civil)
  {
    if a.year != b.year then a.year < b.year
    else if a.mon != b.mon then a.mon < b.mon
    else if a.mday != b.mday then a.mday < b.mday
    else if a.hour != b.hour then a.hour < b.hour
    else if a.min != b.min then a.min < b.min
    else a.sec < b.sec
  }

  lemma {:induction false} DaysOrder(a: Civil, b: Civil)
    requires Normal(a) && Normal(b)
    requires a.year < b.year || (a.year == b.year && (a.mon < b.mon || (a.mon == b.mon && a.mday < b.mday)))
    ensures DayNumber(a) < DayNumber(b)
  {
    InYear(a); InYear(b);
    if a.year < b.year { YearsGrow(a.year, b.year); }
    else if a.mon < b.mon { MonthsGrow(IsLeap(a.year), a.mon, b.mon); }
  }

  /** Seconds follow the calendar. */
  lemma {:induction false} SecondsOrder(a: Civil, b: Civil)
    requires Normal(a) && Normal(b) && Before(a, b)
    ensures Seconds(a) < Seconds(b)
  {
    hide DayNumber, MonthDays;
    if a.year == b.year && a.mon == b.mon && a.mday == b.mday {
      assert DayNumber(a) == DayNumber(b) by { SameDay(a, b); }
    } else {
      DaysOrder(a, b);
      assert DayNumber(a) * 86400 + 86400 <= DayNumber(b) * 86400;
    }
  }

  lemma {:induction false} SameDay(a: Civil, b: Civil)
    requires 0 <= a.mon <= 12 && a.year == b.year && a.mon == b.mon && a.mday == b.mday
    ensures DayNumber(a) == DayNumber(b)
  {
  }

  /** Different times have different seconds. */
  lemma {:induction false} SecondsUnique(a: Civil, b: Civil)
    requires Normal(a) && Normal(b)
    ensures Seconds(a) == Seconds(b) <==> a == b
  {
    hide Seconds, MonthDays;
    if Before(a, b) { SecondsOrder(a, b); } else if Before(b, a) { SecondsOrder(b, a); }
  }

  // ----- Months and days of the week -----

  /** The months have 31 and 30 days in turn, and anew from August on; February has 28, or
      29 in a leap year. */
  lemma {:induction false} MonthLengths(leap: bool, mon: nat)
    requires mon < 12
    ensures MonthDays(leap, mon) == if mon == 1 then (if leap then 29 else 28) else if (mon < 7) == (mon % 2 == 0) then 31 else 30
  {
    assert mon == 0 || mon == 1 || mon == 2 || mon == 3 || mon == 4 || mon == 5 || mon == 6 || mon == 7 || mon == 8
      || mon == 9 || mon == 10 || mon == 11;
  }

  /** The days before a month in closed form. */
  lemma {:induction false} MonthsBeforeIs(leap: bool, mon: nat)
    requires mon < 12
    ensures MonthsBefore(leap, mon) == (367 * (mon + 1) - 362) / 12 - if mon < 2 then 0 else if leap then 1 else 2
    decreases mon
  {
    hide MonthDays;
    if mon > 0 {
      MonthsBeforeIs(leap, mon - 1);
      MonthLengths(leap, mon - 1);
    }
  }

  /** Zeller's congruence, counted from Sunday: January and February belong to the year
      before. */
  function Zeller(year: int, mon: int, mday: int): int
  {
    var y, m := if mon < 2 then year - 1 else year, if mon < 2 then mon + 13 else mon + 1;
    (mday + 13 * (m + 1) / 5 + y + y / 4 - y / 100 + y / 400 + 6) % 7
  }

  lemma {:induction false} SameRest(x: int, z: int, k: int)
    requires x == z + 7 * k
    ensures x % 7 == z % 7
  {
    DivModUnique(x, 7, z / 7 + k, z % 7);
  }

  /** The day of the week that both programs compute is the one of the Gregorian calendar. */
  lemma {:induction false} WeekdayIs(c: Civil)
    requires c.year >= 1970 && 0 <= c.mon < 12
    ensures (DayNumber(c) + 4) % 7 == Zeller(c.year, c.mon, c.mday)
  {
    hide DaysBefore, MonthsBefore, IsLeap;
    var y, leap := c.year, IsLeap(c.year);
    DaysBeforeIs(y);
    MonthsBeforeIs(leap, c.mon);
    var m := if c.mon < 2 then c.mon + 13 else c.mon + 1;
    var x, a := DayNumber(c) + 4, (y - 1) / 4 - (y - 1) / 100 + (y - 1) / 400;
    if c.mon < 2 {
      assert x == 365 * (y - 1970) + a - 477 + (if c.mon == 0 then 0 else 31) + c.mday + 3;
      SameRest(x, c.mday + 13 * (m + 1) / 5 + (y - 1) + a + 6, 52 * y - 102795 + 4 * c.mon);
    } else {
      OneMoreLeap(y);
      var b := LeapYears(y);
      assert x == 365 * (y - 1970) + b - 477 + (367 * (c.mon + 1) - 362) / 12 - 2 + c.mday + 3;
      MarchOn(c.mon);
      SameRest(x, c.mday + 13 * (m + 1) / 5 + y + b + 6, 52 * y - 102783 + 4 * (c.mon - 2));
    }
  }

  lemma {:induction false} MarchOn(mon: int)
    requires 2 <= mon < 12
    ensures (367 * (mon + 1) - 362) / 12 == 13 * (mon + 2) / 5 + 28 * (mon - 2) + 51
  {
    assert mon == 2 || mon == 3 || mon == 4 || mon == 5 || mon == 6 || mon == 7 || mon == 8 || mon == 9 || mon == 10 || mon == 11;
  }

  // ----- The program -----

  class Tm {
    var sec: int
    var min: int
    var hour: int
    var mday: int
    var mon: int
    /** Years since 1900. */
    var year: int
    var wday: int
    var yday: int
    var isdst: int

    constructor ()
    {
      sec, min, hour, mday, mon, year, wday, yday, isdst := 0, 0, 0, 1, 0, 70, 4, 0, 0;
    }

    function Fields(): Civil
      reads this
    {
      Civil(year + 1900, mon, mday, hour, min, sec)
    }
  }

  /** C's division and remainder. */
  lemma {:induction false} DayAndSecond(t: int)
    ensures var s := TruncMod(t, 86400);
      if s < 0 then TruncDiv(t - 86400, 86400) == t / 86400 && s + 86400 == t % 86400
      else TruncDiv(t, 86400) == t / 86400 && s == t % 86400
  {
    if t < 0 {
      var q, r := (-t) / 86400, (-t) % 86400;
      assert t == -q * 86400 - r;
      if r == 0 {
        DivModUnique(t, 86400, -q, 0);
      } else {
        DivModUnique(t, 86400, -q - 1, 86400 - r);
        DivModUnique(86400 - t, 86400, q + 1, r);
      }
    }
  }

  /** Breaks t down.  The fields always give t back; from the epoch on they are a date
      and time that exists, and before it the year stays 1970. */
  method GmtimeR(t: int, result: Tm)
    modifies result
    ensures 0 <= result.mon < 12 && Seconds(result.Fields()) == t
    ensures t >= 0 ==> Normal(result.Fields()) && result.yday == YearDay(result.Fields())
    ensures t < 0 ==> result.Fields() == Civil(1970, 0, t / 86400 + 1, result.hour, result.min, result.sec)
    ensures 0 <= result.hour < 24 && 0 <= result.min < 60 && 0 <= result.sec < 60
    ensures result.wday == (t / 86400 + 4) % 7 && result.isdst == 0
    ensures 0 <= t < 365 * 86400 ==> result.year == 70
  {
    hide DaysBefore, MonthsBefore, MonthDays;
    var secOfDay, t' := TruncMod(t, 86400), t;
    DayAndSecond(t);
    if secOfDay < 0 {
      secOfDay := secOfDay + 86400;
      t' := t' - 86400;
    }
    result.sec := secOfDay % 60;
    result.min := secOfDay / 60 % 60;
    result.hour := secOfDay / 3600;
    TimeOfDay(secOfDay);
    var days := TruncDiv(t', 86400);
    result.wday := TruncMod(days + 4, 7);
    if result.wday < 0 { result.wday := result.wday + 7; }
    WeekDay(days + 4);
    var year, yday := FindYear(days);
    result.year := year - 1900;
    result.yday := yday;
    var mon, mday := FindMonth(year, yday);
    result.mon := mon;
    result.mday := mday + 1;
    result.isdst := 0;
    NothingBefore();
    assert t == t / 86400 * 86400 + t % 86400;
  }

  lemma {:induction false} NothingBefore()
    ensures DaysBefore(1970) == 0 && MonthsBefore(true, 0) == 0 && MonthsBefore(false, 0) == 0
  {
  }

  lemma {:induction false} TimeOfDay(s: int)
    requires 0 <= s < 86400
    ensures 0 <= s / 3600 < 24 && 0 <= s / 60 % 60 < 60 && 0 <= s % 60 < 60
    ensures s / 3600 * 3600 + s / 60 % 60 * 60 + s % 60 == s
  {
    assert s / 3600 == s / 60 / 60;
  }

  lemma {:induction false} WeekDay(d: int)
    ensures var w := TruncMod(d, 7); (if w < 0 then w + 7 else w) == d % 7
  {
    if d < 0 {
      var q, r := (-d) / 7, (-d) % 7;
      assert d == -q * 7 - r;
      if r == 0 { DivModUnique(d, 7, -q, 0); } else { DivModUnique(d, 7, -q - 1, 7 - r); }
    }
  }

  /** Takes whole years off, from 1970 on. */
  method FindYear(days: int) returns (year: int, yday: int)
    ensures year >= 1970 && DaysBefore(year) + yday == days && yday < YearDays(year)
    ensures days >= 0 ==> yday >= 0
    ensures days < 365 ==> year == 1970
  {
    year, yday := 1970, days;
    while yday >= YearDays(year)
      invariant year >= 1970 && DaysBefore(year) + yday == days && (days >= 0 ==> yday >= 0) && (days < 365 ==> year == 1970)
      decreases yday
    {
      yday := yday - YearDays(year);
      year := year + 1;
    }
  }

  /** Takes whole months off. */
  method FindMonth(year: int, yday: int) returns (mon: nat, rest: int)
    requires yday < YearDays(year)
    ensures mon < 12 && MonthsBefore(IsLeap(year), mon) + rest == yday && rest < MonthDays(IsLeap(year), mon)
    ensures yday >= 0 ==> rest >= 0
    ensures yday < 0 ==> mon == 0
  {
    var leap := IsLeap(year);
    mon, rest := 0, yday;
    while mon < 12 && rest >= MonthDays(leap, mon)
      invariant mon <= 12 && MonthsBefore(leap, mon) + rest == yday && (yday >= 0 ==> rest >= 0) && (yday < 0 ==> mon == 0)
    {
      rest := rest - MonthDays(leap, mon);
      mon := mon + 1;
    }
    if mon == 12 { WholeYear(year); }
  }

  /** Adds everything up, and corrects the day of the week and of the year. */
  method Mktime(tm: Tm) returns (t: int)
    requires 0 <= tm.mon <= 12
    modifies tm`wday, tm`yday, tm`isdst
    ensures tm.Fields() == old(tm.Fields()) && t == Seconds(tm.Fields())
    ensures tm.wday == (DayNumber(tm.Fields()) + 4) % 7 && tm.yday == YearDay(tm.Fields()) && tm.isdst == 0
    ensures tm.year == 70 && tm.mon == 0 && tm.mday == 1 ==> t == tm.hour * 3600 + tm.min * 60 + tm.sec
  {
    hide MonthDays;
    var year := tm.year + 1900;
    var days := 0;
    var y := 1970;
    while y < year
      invariant 1970 <= y && (y <= year || y == 1970) && days == DaysBefore(y)
    {
      days := days + YearDays(y);
      y := y + 1;
    }
    YearsFrom(year, y);
    var months := AddMonths(IsLeap(year), tm.mon);
    days := days + months + tm.mday - 1;
    tm.wday := TruncMod(days + 4, 7);
    if tm.wday < 0 { tm.wday := tm.wday + 7; }
    WeekDay(days + 4);
    tm.yday := AddMonths(IsLeap(year), tm.mon);
    tm.yday := tm.yday + tm.mday - 1;
    tm.isdst := 0;
    t := days * 86400 + tm.hour * 3600 + tm.min * 60 + tm.sec;
  }

  lemma {:induction false} YearsFrom(year: int, y: int)
    requires y >= 1970 && y >= year && (y <= year || y == 1970)
    ensures DaysBefore(y) == DaysBefore(year)
  {
  }

  method AddMonths(leap: bool, mon: nat) returns (d: int)
    requires mon <= 12
    ensures d == MonthsBefore(leap, mon)
  {
    d := 0;
    var m := 0;
    while m < mon
      invariant 0 <= m <= mon && d == MonthsBefore(leap, m)
    {
      d := d + MonthDays(leap, m);
      m := m + 1;
    }
  }

  /** There and back: every second, also before the epoch. */
  method SecondsRoundTrip(t: int, tm: Tm) returns (back: int)
    modifies tm
    ensures back == t && tm.wday == (t / 86400 + 4) % 7
  {
    GmtimeR(t, tm);
    ghost var c, w := tm.Fields(), tm.wday;
    back := Mktime(tm);
    SameWeekDay(c, t);
  }

  lemma {:induction false} SameWeekDay(c: Civil, t: int)
    requires 0 <= c.mon <= 12 && Seconds(c) == t && 0 <= c.hour < 24 && 0 <= c.min < 60 && 0 <= c.sec < 60
    ensures DayNumber(c) == t / 86400
  {
    hide DayNumber;
    DivModUnique(t, 86400, DayNumber(c), c.hour * 3600 + c.min * 60 + c.sec);
  }

  /** Back and there: every date and time from 1970 on. */
  method CivilRoundTrip(tm: Tm, again: Tm) returns (t: int)
    requires tm != again && Normal(tm.Fields())
    modifies tm, again
    ensures again.Fields() == old(tm.Fields()) && again.wday == tm.wday && again.yday == tm.yday
  {
    hide Seconds, Normal, DayNumber, YearDay;
    var c := tm.Fields();
    MonthInRange(c);
    t := Mktime(tm);
    AfterEpoch(c);
    GmtimeR(t, again);
    SecondsUnique(c, again.Fields());
    Clock(c);
    SameWeekDay(c, t);
  }

  lemma {:induction false} MonthInRange(c: Civil)
    requires Normal(c)
    ensures 0 <= c.mon <= 12
  {
  }

  lemma {:induction false} Clock(c: Civil)
    requires Normal(c)
    ensures 0 <= c.hour < 24 && 0 <= c.min < 60 && 0 <= c.sec < 60
  {
  }

  lemma {:induction false} AfterEpoch(c: Civil)
    requires Normal(c)
    ensures 0 <= c.mon <= 12 && Seconds(c) >= 0
  {
    InYear(c);
  }
}
