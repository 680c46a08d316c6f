/** local_time.cpp: broken-down time, computed without locks. */
module Calendar {

  const SECS_MIN: int := 60
  const SECS_HOUR: int := 3600
  const SECS_DAY: int := 86400

  /** struct tm; years count from 1900, months and days of the year from 0. */
  datatype Tm = Tm(sec: int, min: int, hour: int, mday: int, mon: int, year: int, wday: int, yday: int)

  /** C's division and remainder: towards zero. */
  function Div(a: int, b: int): int
    requires b > 0
  {
    if a >= 0 then a / b else -(-a / b)
  }

  function Rem(a: int, b: int): int
    requires b > 0
  {
    a - b * Div(a, b)
  }

  /** is_leap_year, for years of our era. */
  predicate IsLeap(year: int) {
    year % 4 == 0 && (year % 100 != 0 || year % 400 == 0)
  }

  function LeapDay(year: int): int {
    if IsLeap(year) then 1 else 0
  }

  function MonthDays(year: int, mon: int): int
    requires 0 <= mon < 12
  {
    if mon == 1 then 28 + LeapDay(year)
    else if mon == 3 || mon == 5 || mon == 8 || mon == 10 then 30
    else 31
  }

  /** Days of the year before the month. */
  function MonthStart(year: int, mon: int): int
    requires 0 <= mon <= 12
  {
    if mon == 0 then 0 else MonthStart(year, mon - 1) + MonthDays(year, mon - 1)
  }

  /** Days before the year, since the epoch. */
  function YearStart(year: int): int
    requires year >= 1970
  {
    if year == 1970 then 0 else YearStart(year - 1) + 365 + LeapDay(year - 1)
  }

  predicate InRange(tm: Tm) {
    && 0 <= tm.sec < 60 && 0 <= tm.min < 60 && 0 <= tm.hour < 24
    && 70 <= tm.year && 0 <= tm.mon < 12 && 1 <= tm.mday <= MonthDays(tm.year + 1900, tm.mon)
    && 0 <= tm.wday < 7 && 0 <= tm.yday
  }

  /** Seconds Since the Epoch (POSIX.1-2017, Base Definitions, section 4.16). */
  function PosixSeconds(tm: Tm): int {
    tm.sec + tm.min * 60 + tm.hour * 3600 + tm.yday * 86400
    + (tm.year - 70) * 31536000 + (tm.year - 69) / 4 * 86400
    - (tm.year - 1) / 100 * 86400 + (tm.year + 299) / 400 * 86400
  }

  /** All fields describe one and the same day; the epoch was a Thursday. */
  ghost predicate Coherent(tm: Tm) {
    && InRange(tm)
    && tm.yday == MonthStart(tm.year + 1900, tm.mon) + tm.mday - 1
    && tm.wday == (YearStart(tm.year + 1900) + tm.yday + 4) % 7
  }

  // ---- the closed formula ----------------------------------------------------------

  lemma {:induction false} YearStartIsClosed(year: int)
    requires year >= 1970
    ensures YearStart(year) == (year - 1970) * 365 + (year - 1969) / 4 - (year - 1901) / 100 + (year - 1601) / 400
    decreases year
  {
    if year > 1970 {
      var y := year - 1;
      YearStartIsClosed(y);
      LeapsCount(y);
      LeapRule(y);
    }
  }

  lemma LeapsCount(y: int)
    ensures (y - 1968) / 4 - (y - 1969) / 4 == if y % 4 == 0 then 1 else 0
    ensures (y - 1900) / 100 - (y - 1901) / 100 == if y % 100 == 0 then 1 else 0
    ensures (y - 1600) / 400 - (y - 1601) / 400 == if y % 400 == 0 then 1 else 0
  {
    Fours(y - 1968);
    Hundreds(y - 1900);
    FourHundreds(y - 1600);
    assert (y - 1968) % 4 == y % 4;
    assert (y - 1900) % 100 == y % 100;
    assert (y - 1600) % 400 == y % 400;
  }

  lemma Hundredfold(k: int)
    ensures 100 * k % 100 == 0
  {
  }

  lemma Fourfold(k: int)
    ensures 4 * k % 4 == 0
  {
  }

  lemma Finer(y: int)
    ensures y % 400 == 0 ==> y % 100 == 0
    ensures y % 100 == 0 ==> y % 4 == 0
  {
    if y % 400 == 0 {
      assert y == 100 * (4 * (y / 400));
      Hundredfold(4 * (y / 400));
    }
    if y % 100 == 0 {
      assert y == 4 * (25 * (y / 100));
      Fourfold(25 * (y / 100));
    }
  }

  lemma LeapRule(y: int)
    ensures LeapDay(y) == (if y % 4 == 0 then 1 else 0) - (if y % 100 == 0 then 1 else 0) + (if y % 400 == 0 then 1 else 0)
  {
    Finer(y);
  }

  lemma Fours(z: int)
    ensures z / 4 - (z - 1) / 4 == if z % 4 == 0 then 1 else 0
  {
  }

  lemma Hundreds(z: int)
    ensures z / 100 - (z - 1) / 100 == if z % 100 == 0 then 1 else 0
  {
  }

  lemma FourHundreds(z: int)
    ensures z / 400 - (z - 1) / 400 == if z % 400 == 0 then 1 else 0
  {
  }

  lemma PosixByDays(tm: Tm)
    requires tm.year >= 70
    ensures PosixSeconds(tm) == (YearStart(tm.year + 1900) + tm.yday) * 86400 + tm.hour * 3600 + tm.min * 60 + tm.sec
  {
    YearStartIsClosed(tm.year + 1900);
  }

  lemma {:induction false} MonthsFillTheYear(year: int)
    ensures MonthStart(year, 12) == 365 + LeapDay(year)
  {
    assert MonthStart(year, 1) == 31;
    assert MonthStart(year, 2) == 59 + LeapDay(year);
    assert MonthStart(year, 4) == 120 + LeapDay(year);
    assert MonthStart(year, 6) == 181 + LeapDay(year);
    assert MonthStart(year, 8) == 243 + LeapDay(year);
    assert MonthStart(year, 10) == 304 + LeapDay(year);
  }

  // ---- the conversion --------------------------------------------------------------

  /** no_locks_localtime. From the epoch on, the fields are coherent and stand for the adjusted time;
      before it some field is out of range. */
  method NoLocksLocaltime(t: int, timezone: int, daylight: int) returns (tm: Tm)
    ensures var adjusted := t - timezone + 3600 * daylight;
            && (adjusted >= 0 ==> Coherent(tm) && PosixSeconds(tm) == adjusted)
            && (adjusted < 0 ==> !InRange(tm))
  {
    var adjusted := t - timezone + 3600 * daylight;
    var days := Div(adjusted, SECS_DAY);
    var seconds := Rem(adjusted, SECS_DAY);
    var hour := Div(seconds, SECS_HOUR);
    var min := Div(Rem(seconds, SECS_HOUR), SECS_MIN);
    var sec := Rem(Rem(seconds, SECS_HOUR), SECS_MIN);
    var wday := Rem(days + 4, 7);
    var year, yday := FindYear(days);
    var mon, mday := FindMonth(year, yday);
    tm := Tm(sec, min, hour, mday, mon, year - 1900, wday, yday);
    if adjusted >= 0 { PosixByDays(tm); }
  }

  /** The year, and the day in it; days before the epoch stay in 1970. */
  method FindYear(days: int) returns (year: int, yday: int)
    ensures days < 0 ==> year == 1970 && yday == days
    ensures days >= 0 ==> year >= 1970 && days == YearStart(year) + yday && 0 <= yday < 365 + LeapDay(year)
  {
    year, yday := 1970, days;
    while true
      invariant year >= 1970 && days == YearStart(year) + yday
      invariant if days < 0 then year == 1970 && yday == days else yday >= 0
      decreases yday
    {
      var daysThisYear := 365 + LeapDay(year);
      if daysThisYear > yday { break; }
      yday := yday - daysThisYear;
      year := year + 1;
    }
  }

  /** The month, and the day in it, from 1. */
  method FindMonth(year: int, yday: int) returns (mon: int, mday: int)
    requires yday < 365 + LeapDay(year)
    ensures 0 <= mon < 12 && yday == MonthStart(year, mon) + mday - 1
    ensures yday >= 0 ==> 1 <= mday <= MonthDays(year, mon)
    ensures yday < 0 ==> mday <= 0
  {
    MonthsFillTheYear(year);
    mon := 0;
    var days := yday;
    while days >= MonthDays(year, mon)
      invariant 0 <= mon < 12 && yday == MonthStart(year, mon) + days
      invariant if yday < 0 then mon == 0 else days >= 0
      decreases 12 - mon
    {
      days := days - MonthDays(year, mon);
      mon := mon + 1;
    }
    mday := days + 1;
  }

  // ---- only one set of fields stands for a time ------------------------------------

  lemma {:induction false} YearStartGrows(y: int, z: int)
    requires 1970 <= y < z
    ensures YearStart(y) + 365 + LeapDay(y) <= YearStart(z)
    decreases z
  {
    if y + 1 < z { YearStartGrows(y, z - 1); }
  }

  lemma {:induction false} MonthStartGrows(year: int, m: int, n: int)
    requires 0 <= m < n <= 12
    ensures MonthStart(year, m) + MonthDays(year, m) <= MonthStart(year, n)
    decreases n
  {
    if m + 1 < n { MonthStartGrows(year, m, n - 1); }
  }

  lemma DayIsInYear(tm: Tm)
    requires Coherent(tm)
    ensures 0 <= tm.yday < 365 + LeapDay(tm.year + 1900)
  {
    MonthStartGrows(tm.year + 1900, tm.mon, 12);
    MonthsFillTheYear(tm.year + 1900);
  }

  lemma SameYear(a: Tm, b: Tm)
    requires Coherent(a) && Coherent(b)
    requires YearStart(a.year + 1900) + a.yday == YearStart(b.year + 1900) + b.yday
    ensures a.year == b.year && a.yday == b.yday
  {
    DayIsInYear(a);
    DayIsInYear(b);
    if a.year < b.year {
      YearStartGrows(a.year + 1900, b.year + 1900);
    } else if b.year < a.year {
      YearStartGrows(b.year + 1900, a.year + 1900);
    }
  }

  lemma SameMonth(year: int, m: int, d: int, n: int, e: int)
    requires 0 <= m < 12 && 1 <= d <= MonthDays(year, m) && 0 <= n < 12 && 1 <= e <= MonthDays(year, n)
    requires MonthStart(year, m) + d == MonthStart(year, n) + e
    ensures m == n && d == e
  {
    if m < n {
      MonthStartGrows(year, m, n);
    } else if n < m {
      MonthStartGrows(year, n, m);
    }
  }

  lemma SameDivision(d: int, r: int, e: int, s: int)
    requires 0 <= r < 86400 && 0 <= s < 86400 && d * 86400 + r == e * 86400 + s
    ensures d == e && r == s
  {
  }

  /** Coherent fields that stand for the same time are the same: the conversion is injective, and every
      coherent set of fields is the conversion of the time it stands for. */
  lemma FieldsAreUnique(a: Tm, b: Tm)
    requires Coherent(a) && Coherent(b) && PosixSeconds(a) == PosixSeconds(b)
    ensures a == b
  {
    PosixByDays(a);
    PosixByDays(b);
    hide PosixSeconds, YearStart, MonthStart, MonthDays, LeapDay;
    var (x, y) := (a.hour * 3600 + a.min * 60 + a.sec, b.hour * 3600 + b.min * 60 + b.sec);
    SameDivision(YearStart(a.year + 1900) + a.yday, x, YearStart(b.year + 1900) + b.yday, y);
    SameClock(a.hour, a.min, a.sec, b.hour, b.min, b.sec);
    SameYear(a, b);
    SameMonth(a.year + 1900, a.mon, a.mday, b.mon, b.mday);
  }

  lemma SameClock(h: int, m: int, s: int, h': int, m': int, s': int)
    requires 0 <= m < 60 && 0 <= s < 60 && 0 <= m' < 60 && 0 <= s' < 60
    requires h * 3600 + m * 60 + s == h' * 3600 + m' * 60 + s'
    ensures h == h' && m == m' && s == s'
  {
  }
}
