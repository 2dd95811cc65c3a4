/** Broken-down UTC time: the two loop nests of the C library's gmtime_r and mktime, the fact
    that they invert each other, and the closed formula of section 4.16 (Seconds Since the
    Epoch) of POSIX.1-2017 Base Definitions. */
module Calendar {
  import opened Arith

  datatype Tm = Tm(sec: int, min: int, hour: int, mday: int, mon: int, year: int, wday: int, yday: int, isdst: int)

  const MONTH_DAYS: seq<int> := [31, 28, 31, 30, 31, 30, 31, 31, 30, 31, 30, 31]

  // the year is counted in an int
  const MAX_INT := 0x7FFF_FFFF
  const DAY_LIMIT := 784351576777
  const LIMIT := DAY_LIMIT * 86400

  predicate IsLeap(year: int) { (year % 4 == 0 && year % 100 != 0) || year % 400 == 0 }

  function YearLength(year: int): int { if IsLeap(year) then 366 else 365 }

  function MonthLength(year: int, mon: nat): int
    requires mon < 12
  {
    MONTH_DAYS[mon] + (if mon == 1 && IsLeap(year) then 1 else 0)
  }

  /** Days from 1970-01-01 to the first day of `year`. */
  function DaysBeforeYear(year: int): nat
    decreases if year < 1970 then 0 else year
  {
    if year <= 1970 then 0 else DaysBeforeYear(year - 1) + YearLength(year - 1)
  }

  /** Days from the first day of `year` to the first day of month `mon`. */
  function DaysBeforeMonth(year: int, mon: int): nat
    requires mon <= 12
    decreases if mon < 0 then 0 else mon
  {
    if mon <= 0 then 0 else DaysBeforeMonth(year, mon - 1) + MonthLength(year, mon - 1)
  }

  /** What mktime computes. */
  function Seconds(tm: Tm): int
    requires tm.mon <= 12
  {
    (DaysBeforeYear(tm.year + 1900) + DaysBeforeMonth(tm.year + 1900, tm.mon) + tm.mday - 1) * 86400
    + tm.hour * 3600 + tm.min * 60 + tm.sec
  }

  /** `tm` is a real calendar moment at or after the epoch, with consistent derived fields. */
  predicate Normal(tm: Tm) {
    && 0 <= tm.sec < 60 && 0 <= tm.min < 60 && 0 <= tm.hour < 24
    && 70 <= tm.year && 0 <= tm.mon < 12
    && 1 <= tm.mday <= MonthLength(tm.year + 1900, tm.mon)
    && tm.yday == DaysBeforeMonth(tm.year + 1900, tm.mon) + tm.mday - 1
    && tm.wday == (DaysBeforeYear(tm.year + 1900) + tm.yday + 4) % 7
    && tm.isdst == 0
  }

  lemma Clock(t: nat)
    ensures t == t / 60 / 60 / 24 * 86400 + t / 60 / 60 % 24 * 3600 + t / 60 % 60 * 60 + t % 60
    ensures t / 60 / 60 / 24 == t / 86400 && (t / 86400 < DAY_LIMIT <==> t < LIMIT)
  {
  }

  /** A moment as a date. The year overflows exactly from moment `LIMIT` on, which no date can hold; before
      that the date is the only consistent one with this count of seconds. */
  method GmTime(timep: nat) returns (ok: bool, tm: Tm)
    ensures ok <==> timep < LIMIT
    ensures ok ==> Normal(tm) && Seconds(tm) == timep == PosixSeconds(tm) && tm.year + 1900 <= MAX_INT
    ensures ok ==>
      && 0 <= tm.yday < YearLength(tm.year + 1900) && tm.yday == MonthStart(tm.year + 1900, tm.mon) + tm.mday - 1
      && tm.mday <= MonthStart(tm.year + 1900, tm.mon + 1) - MonthStart(tm.year + 1900, tm.mon)
      && 0 <= tm.wday < 7 && tm.wday == (timep / 86400 + 4) % 7
  {
    hide DaysBeforeYear, DaysBeforeMonth, MonthLength, YearLength, IsLeap, MonthStart, PosixSeconds;
    Clock(timep);
    var t := timep;
    var sec := t % 60;
    t := t / 60;
    var min := t % 60;
    t := t / 60;
    var hour := t % 24;
    t := t / 24;
    var wday := (t + 4) % 7;
    var year, yday;
    ok, year, yday := FindYear(t);
    if !ok {
      return false, Tm(0, 0, 0, 0, 0, 0, 0, 0, 0);
    }
    var mon, day := FindMonth(year, yday);
    tm := Tm(sec, min, hour, day + 1, mon, year - 1900, wday, yday, 0);
    MonthStarts(year, mon);
    MonthLengths(year, mon);
    PosixFormula(tm);
  }

  /** The first loop of gmtime_r: takes whole years off a day count, until the year overflows. */
  method FindYear(days: nat) returns (ok: bool, year: nat, t: nat)
    ensures ok <==> days < DAY_LIMIT
    ensures ok ==> 1970 <= year <= MAX_INT && DaysBeforeYear(year) + t == days && t < YearLength(year)
  {
    t := days;
    year := 1970;
    LastYear();
    while true
      invariant 1970 <= year <= MAX_INT && DaysBeforeYear(year) + t == days
      decreases t
    {
      var daysInYear := if IsLeap(year) then 366 else 365;
      if t < daysInYear {
        YearsUpTo(year);
        return true, year, t;
      }
      if year == MAX_INT {
        return false, year, t;
      }
      t := t - daysInYear;
      year := year + 1;
    }
  }

  /** The days before the first year that an int cannot hold. */
  lemma LastYear()
    ensures DaysBeforeYear(MAX_INT) + YearLength(MAX_INT) == DAY_LIMIT
  {
    DaysFormula(MAX_INT + 1 - 1900);
  }

  lemma YearsUpTo(year: nat)
    requires 1970 <= year <= MAX_INT
    ensures DaysBeforeYear(year) + YearLength(year) <= DAY_LIMIT
  {
    LastYear();
    if year < MAX_INT { YearsGrow(year, MAX_INT); }
  }

  /** The second loop: takes whole months off a day of the year. */
  method FindMonth(year: nat, yday: nat) returns (mon: nat, t: nat)
    requires yday < YearLength(year)
    ensures mon < 12 && DaysBeforeMonth(year, mon) + t == yday && t < MonthLength(year, mon)
  {
    t := yday;
    mon := 0;
    YearHasTwelve(year);
    while true
      invariant mon < 12 && DaysBeforeMonth(year, mon) + t == yday
      decreases 12 - mon
    {
      var dim := MONTH_DAYS[mon];
      if mon == 1 && IsLeap(year) {
        dim := dim + 1;
      }
      if t < dim {
        break;
      }
      t := t - dim;
      mon := mon + 1;
    }
  }

  method MkTime(tm: Tm) returns (t: int)
    requires tm.mon <= 12
    ensures t == Seconds(tm)
    ensures 70 <= tm.year && 0 <= tm.mon ==> t == PosixSeconds(tm)
  {
    var days := 0;
    var year := tm.year + 1900;
    var y := 1970;
    while y < year
      invariant 1970 <= y && (y <= year || y == 1970) && days == DaysBeforeYear(y)
    {
      days := days + (if IsLeap(y) then 366 else 365);
      y := y + 1;
    }
    assert days == DaysBeforeYear(year);
    var m := 0;
    while m < tm.mon
      invariant 0 <= m && (m <= tm.mon || m == 0) && days == DaysBeforeYear(year) + DaysBeforeMonth(year, m)
    {
      days := days + MONTH_DAYS[m];
      if m == 1 && IsLeap(year) {
        days := days + 1;
      }
      m := m + 1;
    }
    days := days + tm.mday - 1;
    if 70 <= tm.year && 0 <= tm.mon { PosixFormula(tm); }
    return days * 86400 + tm.hour * 3600 + tm.min * 60 + tm.sec;
  }

  /** Converting a moment to a date and back gives the moment, for exactly the moments whose year fits. */
  method ThereAndBack(t: nat) returns (ok: bool, r: int)
    ensures ok <==> t < LIMIT
    ensures ok ==> r == t
  {
    var tm;
    ok, tm := GmTime(t);
    r := 0;
    if ok {
      r := MkTime(tm);
    }
  }

  /** The first moment of a year that does not fit, and the last that does. */
  lemma YearFits(tm: Tm)
    requires Normal(tm)
    ensures tm.year + 1900 <= MAX_INT <==> Seconds(tm) < LIMIT
  {
    YdayInYear(tm);
    var y := tm.year + 1900;
    if y <= MAX_INT {
      YearsUpTo(y);
    } else {
      LastYear();
      YearsGrow(MAX_INT, y);
    }
  }

  /** The twelve months make up the year. */
  lemma YearHasTwelve(year: int)
    ensures DaysBeforeMonth(year, 12) == YearLength(year)
  {
    assert DaysBeforeMonth(year, 2) == 59 + (if IsLeap(year) then 1 else 0);
    assert DaysBeforeMonth(year, 4) == DaysBeforeMonth(year, 2) + 61;
    assert DaysBeforeMonth(year, 6) == DaysBeforeMonth(year, 4) + 61;
    assert DaysBeforeMonth(year, 8) == DaysBeforeMonth(year, 6) + 62;
    assert DaysBeforeMonth(year, 10) == DaysBeforeMonth(year, 8) + 61;
  }

  lemma {:induction false} MonthsGrow(year: int, m: nat, n: nat)
    requires m < n <= 12
    ensures DaysBeforeMonth(year, m) + MonthLength(year, m) <= DaysBeforeMonth(year, n)
    decreases n
  {
    if m < n - 1 { MonthsGrow(year, m, n - 1); }
  }

  lemma {:induction false} YearsGrow(y: nat, z: nat)
    requires 1970 <= y < z
    ensures DaysBeforeYear(y) + YearLength(y) <= DaysBeforeYear(z)
    decreases z
  {
    if y < z - 1 { YearsGrow(y, z - 1); }
  }

  /** The day of the year stays inside the year. */
  lemma YdayInYear(tm: Tm)
    requires Normal(tm)
    ensures 0 <= tm.yday < YearLength(tm.year + 1900)
  {
    var y := tm.year + 1900;
    YearHasTwelve(y);
    if tm.mon < 11 {
      MonthsGrow(y, tm.mon, 12);
    }
  }

  /** Different moments have different second counts, so gmtime_r and mktime are inverse to
      each other: GmTime returns the only normal time with the given count. */
  lemma SecondsInjective(a: Tm, b: Tm)
    requires Normal(a) && Normal(b) && Seconds(a) == Seconds(b)
    ensures a == b
  {
    YdayInYear(a);
    YdayInYear(b);
    var y, z := a.year + 1900, b.year + 1900;
    var d, e := DaysBeforeYear(y) + a.yday, DaysBeforeYear(z) + b.yday;
    SplitSeconds(d, a.hour, a.min, a.sec, e, b.hour, b.min, b.sec);
    if y < z { YearsGrow(y, z); assert false; }
    if z < y { YearsGrow(z, y); assert false; }
    if a.mon < b.mon { MonthsGrow(y, a.mon, b.mon); assert false; }
    if b.mon < a.mon { MonthsGrow(y, b.mon, a.mon); assert false; }
  }

  lemma SplitSeconds(d: int, h: int, m: int, s: int, d': int, h': int, m': int, s': int)
    requires 0 <= h < 24 && 0 <= m < 60 && 0 <= s < 60 && 0 <= h' < 24 && 0 <= m' < 60 && 0 <= s' < 60
    requires d * 86400 + h * 3600 + m * 60 + s == d' * 86400 + h' * 3600 + m' * 60 + s'
    ensures d == d' && h == h' && m == m' && s == s'
  {
    assert d == d';
    assert h == h';
    assert m == m';
  }

  // ---- the closed formula ----

  /** Leap days counted by the three divisions of the POSIX formula; `y` counts from 1900. */
  function LeapDays(y: nat): int
    requires y >= 70
  {
    (y - 69) / 4 - (y - 1) / 100 + (y + 299) / 400
  }

  lemma QuotientStep(x: nat, d: nat)
    requires d == 4 || d == 100 || d == 400
    ensures (x + 1) / d == x / d + (if (x + 1) % d == 0 then 1 else 0)
  {
  }

  lemma Residues(y: nat)
    ensures (y + 1900) % 4 == y % 4
  {
    assert y + 1900 == 4 * (y / 4 + 475) + y % 4;
  }

  lemma Residue100(y: nat)
    ensures (y + 1900) % 100 == y % 100
  {
    assert y + 1900 == 100 * (y / 100 + 19) + y % 100;
  }

  lemma Residue400(y: nat)
    ensures (y + 1900) % 400 == (y + 300) % 400
  {
    assert y + 1900 == 400 * ((y + 300) / 400 + 4) + (y + 300) % 400;
  }

  lemma CenturyIsMultipleOf4(x: nat)
    requires x % 100 == 0
    ensures x % 4 == 0
  {
    var k := 25 * (x / 100);
    assert x == 4 * k;
    MulMod(4, k);
  }

  lemma FourCenturies(x: nat)
    requires x % 400 == 0
    ensures x % 100 == 0
  {
    var k := 4 * (x / 400);
    assert x == 100 * k;
    MulMod(100, k);
  }

  lemma LeapStep(y: nat)
    requires y >= 70
    ensures LeapDays(y + 1) == LeapDays(y) + (if IsLeap(y + 1900) then 1 else 0)
  {
    QuotientStep(y - 69, 4);
    QuotientStep(y - 1, 100);
    QuotientStep(y + 299, 400);
    Residues(y);
    Residue400(y);
    Residue100(y);
    if (y + 1900) % 400 == 0 { FourCenturies(y + 1900); }
    if (y + 1900) % 100 == 0 { CenturyIsMultipleOf4(y + 1900); }
    assert (y - 68) % 4 == y % 4;
  }

  lemma {:induction false} DaysFormula(y: nat)
    requires y >= 70
    ensures DaysBeforeYear(y + 1900) == (y - 70) * 365 + LeapDays(y)
    decreases y
  {
    if y > 70 {
      DaysFormula(y - 1);
      LeapStep(y - 1);
    }
  }

  /** Days of the year before month `mon` in closed form: 367 days spread over twelve months, less the days that
      February lacks. */
  function MonthStart(year: int, mon: nat): int {
    (367 * mon + 5) / 12 - (if mon <= 1 then 0 else if IsLeap(year) then 1 else 2)
  }

  /** The table of month lengths has the closed form as its sums. */
  lemma MonthStarts(year: int, mon: nat)
    requires mon <= 12
    ensures DaysBeforeMonth(year, mon) == MonthStart(year, mon)
  {
    if mon > 0 { MonthStarts(year, mon - 1); }
  }

  lemma MonthLengths(year: int, mon: nat)
    requires mon < 12
    ensures MonthLength(year, mon) == MonthStart(year, mon + 1) - MonthStart(year, mon)
  {
    hide IsLeap;
    MonthStarts(year, mon);
    MonthStarts(year, mon + 1);
  }

  /** The POSIX expression, with the day of the year taken from month and day. */
  function PosixSeconds(tm: Tm): int
    requires 0 <= tm.mon
  {
    tm.sec + tm.min * 60 + tm.hour * 3600 + (MonthStart(tm.year + 1900, tm.mon) + tm.mday - 1) * 86400
    + (tm.year - 70) * 31536000 + ((tm.year - 69) / 4) * 86400
    - ((tm.year - 1) / 100) * 86400 + ((tm.year + 299) / 400) * 86400
  }

  /** The loop sum of mktime is the POSIX expression, for every day count, hour, minute and second. */
  lemma PosixFormula(tm: Tm)
    requires 70 <= tm.year && 0 <= tm.mon <= 12
    ensures Seconds(tm) == PosixSeconds(tm)
  {
    hide MonthStart, DaysBeforeYear, DaysBeforeMonth, IsLeap;
    DaysFormula(tm.year);
    MonthStarts(tm.year + 1900, tm.mon);
  }
}
