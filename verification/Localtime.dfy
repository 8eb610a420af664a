/** Calendar decoding: nolocks_localtime of localtime.c. */
module Localtime {

  /** Division and remainder as in C: towards zero. */
  function Quot(a: int, b: int): int
    requires b > 0
  {
    if a >= 0 then a / b else -((-a) / b)
  }

  function Rem(a: int, b: int): int
    requires b > 0
  {
    a - Quot(a, b) * b
  }

  function IsLeapYear(year: int): (r: int)
    ensures r == 0 || r == 1
  {
    if year % 4 != 0 then 0 else if year % 100 != 0 then 1 else if year % 400 != 0 then 0 else 1
  }

  /** struct tm */
  datatype Tm = Tm(sec: int, min: int, hour: int, mday: int, mon: int, year: int, wday: int, yday: int, isdst: int)

  function MonthDays(leap: int, mon: int): int {
    if mon == 1 then 28 + leap else if mon == 3 || mon == 5 || mon == 8 || mon == 10 then 30 else 31
  }

  /** Days of the year before month mon. */
  function DaysBeforeMonth(leap: int, mon: nat): int {
    if mon == 0 then 0 else DaysBeforeMonth(leap, mon - 1) + MonthDays(leap, mon - 1)
  }

  /** Days from the Epoch to the first day of a year, as in section 4.16 of IEEE Std 1003.1-2017. */
  function DaysBeforeYear(year: int): int {
    (year - 1970) * 365 + (year - 1969) / 4 - (year - 1901) / 100 + (year - 1601) / 400
  }

  /** Seconds Since the Epoch, by the formula of that section. */
  function Epoch(tm: Tm): int {
    tm.sec + tm.min * 60 + tm.hour * 3600 + tm.yday * 86400 + (tm.year - 70) * 31536000
    + ((tm.year - 69) / 4) * 86400 - ((tm.year - 1) / 100) * 86400 + ((tm.year + 299) / 400) * 86400
  }

  /** The formula counts whole days by the calendar. */
  lemma EpochDays(tm: Tm)
    ensures Epoch(tm) == tm.sec + tm.min * 60 + tm.hour * 3600 + (DaysBeforeYear(tm.year + 1900) + tm.yday) * 86400
  {
  }

  lemma Fours(year: int)
    ensures (year - 1968) / 4 == (year - 1969) / 4 + if year % 4 == 0 then 1 else 0
  {
  }

  lemma Hundreds(year: int)
    ensures (year - 1900) / 100 == (year - 1901) / 100 + if year % 100 == 0 then 1 else 0
  {
  }

  lemma FourHundreds(year: int)
    ensures (year - 1600) / 400 == (year - 1601) / 400 + if year % 400 == 0 then 1 else 0
  {
  }

  lemma Multiples(year: int)
    ensures year % 100 == 0 ==> year % 4 == 0
    ensures year % 400 == 0 ==> year % 100 == 0
  {
    if year % 100 == 0 {
      var q := year / 100;
      assert year == 4 * (25 * q);
    }
    if year % 400 == 0 {
      var q := year / 400;
      assert year == 100 * (4 * q);
    }
  }

  /** The leap rule in one line, and the length of a year. */
  lemma YearLength(year: int)
    ensures IsLeapYear(year) == 1 <==> year % 400 == 0 || (year % 4 == 0 && year % 100 != 0)
    ensures DaysBeforeYear(year + 1) == DaysBeforeYear(year) + 365 + IsLeapYear(year)
  {
    Fours(year);
    Hundreds(year);
    FourHundreds(year);
    Multiples(year);
  }

  /** All fields are in their ranges and the date is the same by month and by day of the year. */
  predicate WellFormed(tm: Tm) {
    && 0 <= tm.sec < 60 && 0 <= tm.min < 60 && 0 <= tm.hour < 24 && 0 <= tm.mon < 12 && tm.year >= 70
    && 0 <= tm.yday < 365 + IsLeapYear(tm.year + 1900)
    && 1 <= tm.mday <= MonthDays(IsLeapYear(tm.year + 1900), tm.mon)
    && tm.yday == DaysBeforeMonth(IsLeapYear(tm.year + 1900), tm.mon) + tm.mday - 1
    && tm.wday == (DaysBeforeYear(tm.year + 1900) + tm.yday + 4) % 7
  }

  /** Time of day in C arithmetic; a negative time leaves a negative field. */
  lemma TimeOfDay(t: int)
    ensures var s := Rem(t, 86400);
            var hour, min, sec := Quot(s, 3600), Quot(Rem(s, 3600), 60), Rem(Rem(s, 3600), 60);
            && s == hour * 3600 + min * 60 + sec && t == Quot(t, 86400) * 86400 + s
            && (t >= 0 ==> 0 <= hour < 24 && 0 <= min < 60 && 0 <= sec < 60 && Quot(t, 86400) >= 0)
            && (t < 0 ==> hour < 0 || min < 0 || sec < 0 || Quot(t, 86400) < 0)
  {
  }

  /** The year loop: the year of a day number and the day in it. */
  method YearOf(days: int) returns (year: int, yday: int)
    ensures year >= 1970 && days == DaysBeforeYear(year) + yday && yday < 365 + IsLeapYear(year)
    ensures if days >= 0 then yday >= 0 else year == 1970 && yday == days
  {
    year, yday := 1970, days;
    while 365 + IsLeapYear(year) <= yday
      invariant year >= 1970 && days == DaysBeforeYear(year) + yday
      invariant if days >= 0 then yday >= 0 else year == 1970 && yday == days
      decreases yday
    {
      YearLength(year);
      yday := yday - 365 - IsLeapYear(year);
      year := year + 1;
    }
  }

  lemma WeekDay(days: int)
    ensures days >= 0 ==> Rem(days + 4, 7) == (days + 4) % 7
  {
  }

  lemma TwelveMonths(leap: int)
    requires leap == 0 || leap == 1
    ensures DaysBeforeMonth(leap, 12) == 365 + leap
  {
    assert DaysBeforeMonth(leap, 4) == 120 + leap;
    assert DaysBeforeMonth(leap, 8) == 243 + leap;
  }

  /** The days before each month, in numbers; the length of a month is the difference to the next one. */
  lemma {:induction false} MonthOffsets(leap: int, m: nat)
    requires m <= 12
    ensures DaysBeforeMonth(leap, m) == (367 * (m + 1) - 362) / 12 + if m < 2 then 0 else leap - 2
    ensures m < 12 ==> MonthDays(leap, m) == DaysBeforeMonth(leap, m + 1) - DaysBeforeMonth(leap, m)
  {
    if m > 0 {
      MonthOffsets(leap, m - 1);
    }
  }

  /** 29 February 2000 was a Tuesday, 11016 days after the Epoch. */
  lemma LeapDay(tm: Tm)
    requires WellFormed(tm) && tm.year == 100 && tm.mon == 1 && tm.mday == 29
    ensures tm.yday == 59 && tm.wday == 2 && Epoch(tm) == 11016 * 86400 + tm.hour * 3600 + tm.min * 60 + tm.sec
  {
    MonthOffsets(IsLeapYear(2000), 1);
  }

  /** The month loop. */
  method MonthOf(leap: int, yday: int) returns (mon: int, day: int)
    requires (leap == 0 || leap == 1) && yday < 365 + leap
    ensures 0 <= mon < 12 && day < MonthDays(leap, mon) && yday == DaysBeforeMonth(leap, mon) + day
    ensures if yday >= 0 then day >= 0 else mon == 0
    ensures yday == (367 * (mon + 1) - 362) / 12 + (if mon < 2 then 0 else leap - 2) + day
    ensures yday < (367 * (mon + 2) - 362) / 12 + if mon < 1 then 0 else leap - 2
  {
    mon, day := 0, yday;
    TwelveMonths(leap);
    while day >= MonthDays(leap, mon)
      invariant 0 <= mon < 12 && yday == DaysBeforeMonth(leap, mon) + day
      invariant if yday >= 0 then day >= 0 else mon == 0
      decreases 12 - mon
    {
      MonthsLeft(leap, mon, yday);
      day := day - MonthDays(leap, mon);
      mon := mon + 1;
    }
    MonthOffsets(leap, mon);
    MonthOffsets(leap, mon + 1);
  }

  lemma {:induction false} MonthsLeft(leap: int, mon: nat, yday: int)
    requires (leap == 0 || leap == 1) && mon < 12 && DaysBeforeMonth(leap, mon + 1) <= yday < 365 + leap
    ensures mon < 11
  {
    TwelveMonths(leap);
  }

  /**
   * nolocks_localtime: the fields are a date and time whose Seconds Since the Epoch are the adjusted
   * time, exactly when the adjusted time is not negative.
   */
  method NolocksLocaltime(t: int, tz: int, dst: int) returns (tm: Tm)
    ensures WellFormed(tm) <==> t - tz + 3600 * dst >= 0
    ensures Epoch(tm) == t - tz + 3600 * dst && tm.isdst == dst
    ensures var leap := if (tm.year + 1900) % 4 == 0 && ((tm.year + 1900) % 100 != 0 || (tm.year + 1900) % 400 == 0) then 1 else 0;
            && tm.yday == (367 * (tm.mon + 1) - 362) / 12 + (if tm.mon < 2 then 0 else leap - 2) + tm.mday - 1
            && tm.yday < (367 * (tm.mon + 2) - 362) / 12 + if tm.mon < 1 then 0 else leap - 2
  {
    var adjusted := t - tz + 3600 * dst;
    hide DaysBeforeYear, DaysBeforeMonth, MonthDays, IsLeapYear, Epoch;
    var days, seconds := Quot(adjusted, 86400), Rem(adjusted, 86400);
    TimeOfDay(adjusted);
    WeekDay(days);
    var hour, min, sec := Quot(seconds, 3600), Quot(Rem(seconds, 3600), 60), Rem(Rem(seconds, 3600), 60);
    var wday := Rem(days + 4, 7);
    var year, yday := YearOf(days);
    var mon, day := MonthOf(IsLeapYear(year), yday);
    tm := Tm(sec, min, hour, day + 1, mon, year - 1900, wday, yday, dst);
    EpochDays(tm);
    YearLength(year);
    Multiples(year);
  }

  // ---- decoding inverts the formula ----------------------------------------------------------------------

  lemma {:induction false} YearsGrow(a: int, b: int)
    requires a < b
    ensures DaysBeforeYear(a) + 365 + IsLeapYear(a) <= DaysBeforeYear(b)
    decreases b - a
  {
    YearLength(a);
    if a + 1 < b {
      YearsGrow(a + 1, b);
    }
  }

  lemma {:induction false} MonthsGrow(leap: int, a: nat, b: nat)
    requires a < b && 0 <= leap
    ensures DaysBeforeMonth(leap, a) + MonthDays(leap, a) <= DaysBeforeMonth(leap, b)
    decreases b - a
  {
    if a + 1 < b {
      MonthsGrow(leap, a, b - 1);
    }
  }

  /** Two dates at the same second are the same date. */
  lemma OneDate(a: Tm, b: Tm)
    requires WellFormed(a) && WellFormed(b) && Epoch(a) == Epoch(b) && a.isdst == b.isdst
    ensures a == b
  {
    hide DaysBeforeYear, DaysBeforeMonth, IsLeapYear, MonthDays, Epoch;
    EpochDays(a);
    EpochDays(b);
    var da, db := DaysBeforeYear(a.year + 1900) + a.yday, DaysBeforeYear(b.year + 1900) + b.yday;
    SameDay(da, a.sec + a.min * 60 + a.hour * 3600, db, b.sec + b.min * 60 + b.hour * 3600);
    SameYear(a.year + 1900, a.yday, b.year + 1900, b.yday);
    SameMonth(IsLeapYear(a.year + 1900), a.mon, a.mday, b.mon, b.mday);
  }

  lemma SameDay(d: int, s: int, e: int, u: int)
    requires s + d * 86400 == u + e * 86400 && 0 <= s < 86400 && 0 <= u < 86400
    ensures d == e && s == u
  {
  }

  lemma SameYear(a: int, i: int, b: int, j: int)
    requires DaysBeforeYear(a) + i == DaysBeforeYear(b) + j
    requires 0 <= i < 365 + IsLeapYear(a) && 0 <= j < 365 + IsLeapYear(b)
    ensures a == b && i == j
  {
    if a < b {
      YearsGrow(a, b);
    } else if b < a {
      YearsGrow(b, a);
    }
  }

  lemma SameMonth(leap: int, m: nat, i: int, n: nat, j: int)
    requires DaysBeforeMonth(leap, m) + i == DaysBeforeMonth(leap, n) + j && 0 <= leap
    requires 1 <= i <= MonthDays(leap, m) && 1 <= j <= MonthDays(leap, n)
    ensures m == n && i == j
  {
    if m < n {
      MonthsGrow(leap, m, n);
    } else if n < m {
      MonthsGrow(leap, n, m);
    }
  }
}
