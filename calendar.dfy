/**
 * Calendar arithmetic of the real-time clock (xtime.c).
 *
 * The RTC holds a 32-bit seconds counter whose epoch is 1970-01-01. The
 * conversion routines add the distance from 1900-01-01 to it and split the
 * sum into year, month and day with the tables of cumulative month lengths.
 * Their leap-year rule is "every fourth year counted from 1900, but not
 * 1900 itself", so 2100 is treated as a leap year.
 */
module Calendar {
  import opened Bytes
  import opened CText

  /** DATE_TIME, seven packed bytes: day, month, year (16 bits), hour, minute, second. */
  datatype DateTime = DateTime(day: byte, month: byte, year: u16, hour: byte, min: byte, sec: byte)

  const TBIAS_DAYS: nat := 70 * 365 + 17
  const TBIAS_SECS: nat := TBIAS_DAYS * 86400
  const TBIAS_YEAR: nat := 1900

  /** Cumulative days before each month in a leap year. */
  const LMOS: seq<nat> := [0, 31, 60, 91, 121, 152, 182, 213, 244, 274, 305, 335]
  /** Cumulative days before each month in a common year. */
  const MOS: seq<nat> := [0, 31, 59, 90, 120, 151, 181, 212, 243, 273, 304, 334]

  /** MONTAB: the table for a year counted from 1900. */
  function MonTab(year: int): (r: seq<nat>)
    ensures |r| == 12
  {
    if year % 4 != 0 || year == 0 then MOS else LMOS
  }

  /** Days from 1900-01-01 to the first day of year 1900 + k (k >= 1). */
  function YearStart(k: nat): nat
    requires k >= 1
  {
    (k - 1) / 4 + 365 * k
  }

  function YearLen(k: nat): nat
  {
    if k % 4 == 0 then 366 else 365
  }

  /** Number of days of `month` (1..12) in year 1900 + k. */
  function MonthLen(k: nat, month: int): int
    requires 1 <= month <= 12
  {
    if month < 12 then MonTab(k)[month] - MonTab(k)[month - 1] else YearLen(k) - MonTab(k)[11]
  }

  /** A date and time the decoder can produce: 1901 or later, fields in range. */
  predicate ValidDate(dt: DateTime)
  {
    TBIAS_YEAR + 1 <= dt.year && DayOk(dt.year - TBIAS_YEAR, dt.month as int, dt.day as int)
    && dt.hour < 24 && dt.min < 60 && dt.sec < 60
  }

  /** Day `d` of month `m` exists in year 1900 + k (k >= 1). */
  predicate DayOk(k: nat, m: int, d: int)
  {
    k >= 1 && 1 <= m <= 12 && 1 <= d <= MonthLen(k, m)
  }

  /** Days elapsed from 1900-01-01 to day `d` of month `m` of year 1900 + k. */
  function DayNumber(k: nat, m: int, d: int): int
    requires k >= 1 && 1 <= m <= 12
  {
    YearStart(k) + MonTab(k)[m - 1] + d - 1
  }

  /** Days elapsed from 1900-01-01 to the date. */
  function DayIndex(dt: DateTime): nat
    requires ValidDate(dt)
  {
    DayNumber(dt.year - TBIAS_YEAR, dt.month as int, dt.day as int)
  }

  /** Seconds elapsed from 1900-01-01 00:00:00 to the date and time, without truncation. */
  function Total(dt: DateTime): nat
    requires ValidDate(dt)
  {
    DayIndex(dt) * 86400 + dt.hour * 3600 + dt.min * 60 + dt.sec
  }

  /** The first statement of SecToDtime: the counter plus the bias, in 32 bits. */
  function Biased(secsarg: u32): u32
  {
    (secsarg + TBIAS_SECS) % U32
  }

  /** A year counted from 1900 as the 32-bit subtraction gives it. */
  function YearFrom1900(year: u16): u32
  {
    if year >= TBIAS_YEAR then year - TBIAS_YEAR else year - TBIAS_YEAR + U32
  }

  /** DaysTo32 with its 32-bit subtraction: for year 0 the first term
   *  is (2^32 - 1) / 4. The sum stays below 2^32. */
  function DaysTo32(year: u32, mon: nat): u32
    requires mon < 12
  {
    (if year == 0 then U32 - 1 else year - 1) / 4 + MonTab(year)[mon]
  }

  /** DtimeToSec: a date and time to the RTC counter. Every step of the C code
   *  is 32-bit; sums and products commute with the reduction modulo 2^32, so
   *  the intermediate wraps are folded into the final one.
   *  A month outside 1..12 would index outside the month table. */
  function DtimeToSec(dt: DateTime): u32
    requires 1 <= dt.month <= 12
  {
    var year := YearFrom1900(dt.year);
    var days := DaysTo32(year, dt.month - 1) - 1 + 365 * year + dt.day - TBIAS_DAYS;
    (3600 * dt.hour + 60 * dt.min + dt.sec + days * 86400) % U32
  }

  // ---------------------------------------------------------------------------
  // Facts about the tables and the year layout

  lemma TablesAscend()
    ensures forall i :: 0 <= i < 11 ==> MOS[i] < MOS[i + 1] && LMOS[i] < LMOS[i + 1]
    ensures forall i :: 2 <= i < 12 ==> LMOS[i] == MOS[i] + 1
    ensures forall i :: 0 <= i < 11 ==> MOS[i + 1] - MOS[i] <= 31 && LMOS[i + 1] - LMOS[i] <= 31
    ensures MOS[0] == 0 && LMOS[0] == 0 && MOS[1] == 31 && LMOS[1] == 31
    ensures 365 - MOS[11] == 31 && 366 - LMOS[11] == 31
  {
  }

  lemma {:induction false} TableMonotone(t: seq<nat>, i: nat, j: nat)
    requires t == MOS || t == LMOS
    requires i <= j < 12
    ensures t[i] <= t[j]
    decreases j - i
  {
    TablesAscend();
    if i < j { TableMonotone(t, i + 1, j); }
  }

  /** For a year counted from 1900 (k >= 1) the table and the year length agree. */
  lemma MonTabMatchesYearLen(k: nat)
    requires k >= 1
    ensures MonTab(k) == (if YearLen(k) == 366 then LMOS else MOS)
  {
  }

  lemma YearStartStep(k: nat)
    requires k >= 1
    ensures YearStart(k + 1) == YearStart(k) + YearLen(k)
  {
  }

  lemma {:induction false} YearStartAfter(a: nat, b: nat)
    requires 1 <= a < b
    ensures YearStart(a) + YearLen(a) <= YearStart(b)
    decreases b - a
  {
    YearStartStep(a);
    if a + 1 < b {
      YearStartAfter(a + 1, b);
    }
  }

  /** A day index splits into year and day of year in one way only. */
  lemma YearOfDay(a: nat, ra: nat, b: nat, rb: nat)
    requires 1 <= a && 1 <= b && ra < YearLen(a) && rb < YearLen(b)
    requires YearStart(a) + ra == YearStart(b) + rb
    ensures a == b && ra == rb
  {
    if a < b { YearStartAfter(a, b); }
    if b < a { YearStartAfter(b, a); }
  }

  /** A day of year splits into month and day of month in one way only. */
  lemma MonthOfDay(k: nat, ma: int, da: int, mb: int, db: int)
    requires k >= 1 && 1 <= ma <= 12 && 1 <= mb <= 12
    requires 1 <= da <= MonthLen(k, ma) && 1 <= db <= MonthLen(k, mb)
    requires MonTab(k)[ma - 1] + da == MonTab(k)[mb - 1] + db
    ensures ma == mb && da == db
  {
    var t := MonTab(k);
    if ma < mb {
      TableMonotone(t, ma, mb - 1);
    }
    if mb < ma {
      TableMonotone(t, mb, ma - 1);
    }
  }

  /** The day of year of a day of a month lies inside its year. */
  lemma DayOfYearBound(k: nat, m: int, d: int)
    requires k >= 1 && 1 <= m <= 12 && 1 <= d <= MonthLen(k, m)
    ensures MonTab(k)[m - 1] + d - 1 < YearLen(k)
  {
    MonTabMatchesYearLen(k);
    TablesAscend();
    if m < 12 {
      TableMonotone(MonTab(k), m, 11);
    }
  }

  /** Valid dates are told apart by their exact second count. */
  lemma TotalInjective(a: DateTime, b: DateTime)
    requires ValidDate(a) && ValidDate(b)
    requires Total(a) == Total(b)
    ensures a == b
  {
    TotalParts(a, b);
    DayIndexInjective(a, b);
  }

  /** Equal second counts have equal day counts and equal times of day. */
  lemma TotalParts(a: DateTime, b: DateTime)
    requires ValidDate(a) && ValidDate(b)
    requires Total(a) == Total(b)
    ensures DayIndex(a) == DayIndex(b) && a.hour == b.hour && a.min == b.min && a.sec == b.sec
  {
    var ta, tb := a.hour * 3600 + a.min * 60 + a.sec, b.hour * 3600 + b.min * 60 + b.sec;
    assert DayIndex(a) * 86400 + ta == DayIndex(b) * 86400 + tb;
    SplitDay(DayIndex(a), ta, DayIndex(b), tb);
    SplitHour(a.hour, a.min * 60 + a.sec, b.hour, b.min * 60 + b.sec);
    SplitMinute(a.min, a.sec, b.min, b.sec);
  }

  /** Valid dates are told apart by their day count. */
  lemma DayIndexInjective(a: DateTime, b: DateTime)
    requires ValidDate(a) && ValidDate(b)
    requires DayIndex(a) == DayIndex(b)
    ensures a.year == b.year && a.month == b.month && a.day == b.day
  {
    YearDayInjective(a.year - TBIAS_YEAR, a.month as int, a.day as int, b.year - TBIAS_YEAR, b.month as int, b.day as int);
  }

  /** A day count splits into year, month and day in one way only. */
  lemma YearDayInjective(ka: nat, ma: int, da: int, kb: nat, mb: int, db: int)
    requires DayOk(ka, ma, da) && DayOk(kb, mb, db)
    requires DayNumber(ka, ma, da) == DayNumber(kb, mb, db)
    ensures ka == kb && ma == mb && da == db
  {
    DayOfYearBound(ka, ma, da);
    DayOfYearBound(kb, mb, db);
    YearOfDay(ka, MonTab(ka)[ma - 1] + da - 1, kb, MonTab(kb)[mb - 1] + db - 1);
    MonthOfDay(ka, ma, da, mb, db);
  }

  lemma SplitDay(x: int, r: int, y: int, t: int)
    requires 0 <= r < 86400 && 0 <= t < 86400
    requires x * 86400 + r == y * 86400 + t
    ensures x == y && r == t
  {
  }

  lemma SplitHour(x: int, r: int, y: int, t: int)
    requires 0 <= r < 3600 && 0 <= t < 3600
    requires x * 3600 + r == y * 3600 + t
    ensures x == y && r == t
  {
  }

  lemma SplitMinute(x: int, r: int, y: int, t: int)
    requires 0 <= r < 60 && 0 <= t < 60
    requires x * 60 + r == y * 60 + t
    ensures x == y && r == t
  {
  }

  /** DtimeToSec of a valid date is its exact second count, less the bias, in 32 bits. */
  lemma DtimeToSecOfValid(dt: DateTime)
    requires ValidDate(dt)
    ensures DtimeToSec(dt) == (Total(dt) - TBIAS_SECS) % U32
  {
    var k := dt.year - TBIAS_YEAR;
    assert YearFrom1900(dt.year) == k;
    assert DaysTo32(k, dt.month - 1) == (k - 1) / 4 + MonTab(k)[dt.month - 1];
  }

  lemma ModAddMultiple(x: int, q: int)
    ensures (x + q * U32) % U32 == x % U32
  {
  }

  // ---------------------------------------------------------------------------
  // Decoding the counter

  /** The body of SecToDtime after the bias is added: splits an exact second
   *  count since 1900 into a date and time. */
  method SplitSeconds(total: nat) returns (dt: DateTime)
    requires 365 * 86400 <= total < U32 + TBIAS_SECS
    ensures ValidDate(dt) && Total(dt) == total
  {
    var days := total / 86400;
    var secs := total % 86400;
    var hour := secs / 3600;
    secs := secs % 3600;
    var min := secs / 60;
    var sec := secs % 60;
    // year search, starting from an estimate that is never too small
    var year := days / 365;
    YearStartStep(year);
    var i := YearStart(year);
    while days < i
      invariant 1 <= year <= days / 365
      invariant i == YearStart(year)
      invariant days < YearStart(year) + YearLen(year)
      decreases year
    {
      year := year - 1;
      YearStartStep(year);
      i := YearStart(year);
    }
    days := days - i;
    // month search, from December backwards
    var pm := MonTab(year);
    MonTabMatchesYearLen(year);
    TablesAscend();
    var mon := 11;
    while days < pm[mon]
      invariant 0 <= mon < 12
      invariant mon < 11 ==> days < pm[mon + 1]
      decreases mon
    {
      mon := mon - 1;
    }
    assert DayOk(year, mon + 1, days - pm[mon] + 1);
    dt := DateTime(days - pm[mon] + 1, mon + 1, year + TBIAS_YEAR, hour, min, sec);
    assert DayIndex(dt) == total / 86400;
  }

  /** SecToDtime as written: the bias is added in 32 bits. The model covers
   *  biased counts from 1901 on. A smaller biased count (RTC counters
   *  2085978496 to 2117514495, after the 32-bit sum wraps) starts the C year
   *  search at year 0, where its 32-bit arithmetic wraps as well; that case
   *  is not modelled. */
  method SecToDtime(secsarg: u32) returns (dt: DateTime)
    requires Biased(secsarg) >= 365 * 86400
    ensures ValidDate(dt) && Total(dt) == Biased(secsarg)
    ensures DtimeToSec(dt) == secsarg
    ensures forall d :: ValidDate(d) && Total(d) == Biased(secsarg) ==> d == dt
  {
    dt := SplitSeconds(Biased(secsarg));
    BiasedCounter(dt, secsarg);
    forall d | ValidDate(d) && Total(d) == Biased(secsarg) ensures d == dt {
      TotalInjective(d, dt);
    }
  }

  lemma BiasedCounter(dt: DateTime, secsarg: u32)
    requires ValidDate(dt) && Total(dt) == Biased(secsarg)
    ensures DtimeToSec(dt) == secsarg
  {
    DtimeToSecOfValid(dt);
    UnbiasWrapped(Total(dt), secsarg);
  }

  /** Removing the bias again in 32 bits undoes adding it in 32 bits. */
  lemma UnbiasWrapped(t: int, c: int)
    requires 0 <= c < U32 && t == (c + TBIAS_SECS) % U32
    ensures (t - TBIAS_SECS) % U32 == c
  {
    if c + TBIAS_SECS >= U32 {
      ModAddMultiple(c, -1);
    }
  }

  /** GetTimeDate with the bias added without truncation, so that every
   *  counter value (1970 to 2106) decodes to the date it encodes. */
  method GetTimeDate(counter: u32) returns (dt: DateTime)
    ensures ValidDate(dt) && Total(dt) == counter + TBIAS_SECS
    ensures DtimeToSec(dt) == counter
    ensures forall d :: (ValidDate(d) && DtimeToSec(d) == counter && TBIAS_SECS <= Total(d) < U32 + TBIAS_SECS) ==> d == dt
  {
    dt := SplitSeconds(counter + TBIAS_SECS);
    DtimeToSecOfValid(dt);
    forall d | ValidDate(d) && DtimeToSec(d) == counter && TBIAS_SECS <= Total(d) < U32 + TBIAS_SECS
      ensures d == dt
    {
      SameCounterSameDate(d, dt, counter);
    }
  }

  lemma SameCounterSameDate(d: DateTime, dt: DateTime, counter: u32)
    requires ValidDate(d) && ValidDate(dt) && Total(dt) == counter + TBIAS_SECS
    requires DtimeToSec(d) == counter && TBIAS_SECS <= Total(d) < U32 + TBIAS_SECS
    ensures d == dt
  {
    DtimeToSecOfValid(d);
    UnbiasInRange(Total(d), counter);
    TotalInjective(d, dt);
  }

  /** Within one 2^32 window above the bias, the 32-bit counter pins the exact count. */
  lemma UnbiasInRange(t: int, c: int)
    requires TBIAS_SECS <= t < U32 + TBIAS_SECS && (t - TBIAS_SECS) % U32 == c
    ensures t == c + TBIAS_SECS
  {
  }

  /** The as-written decoder misreads dates after 2036-02-07 06:28:16: the RTC
   *  counter of 01.01.2050 00:00:00 decodes to 25.11.1913 17:31:44, and the
   *  counter of that first wrapped second makes the biased count 0, below the
   *  range the year search can handle. */
  lemma CounterWrapAfter2036()
    ensures Biased(U32 - TBIAS_SECS) == 0
    ensures ValidDate(DateTime(1, 1, 2050, 0, 0, 0)) && ValidDate(DateTime(25, 11, 1913, 17, 31, 44))
    ensures DtimeToSec(DateTime(1, 1, 2050, 0, 0, 0)) == 2524608000
    ensures Biased(2524608000) == Total(DateTime(25, 11, 1913, 17, 31, 44))
  {
    var d := DateTime(1, 1, 2050, 0, 0, 0);
    assert Total(d) == 4733596800;
    DtimeToSecOfValid(d);
  }

  // ---------------------------------------------------------------------------
  // Day of the week

  /** C division of ints, which truncates toward zero. */
  function CDiv(a: int, b: int): int
    requires b > 0
  {
    if a >= 0 then a / b else -((-a) / b)
  }

  /** DayOfWeek: 0 is Sunday. The intermediate values are 16-bit. */
  function DayOfWeek(day: byte, month: byte, year: u16): (r: byte)
    ensures r < 7
  {
    var a: u16 := CDiv(14 - month, 12) % 0x1_0000;
    var y: u16 := (year - a) % 0x1_0000;
    var m: u16 := (month + 12 * a - 2) % 0x1_0000;
    (7000 + (day + y + y / 4 - y / 100 + y / 400 + (31 * m) / 12)) % 7
  }

  lemma SameMod7(x: int, y: int)
    requires (x - y) % 7 == 0
    ensures x % 7 == y % 7
  {
  }

  /** For 1901..2099 the weekday formula agrees with the calendar the
   *  converters use: 1900-01-01 was a Monday, and each day advances it by one. */
  lemma DayOfWeekMatchesCalendar(dt: DateTime)
    requires ValidDate(dt) && dt.year <= 2099
    ensures DayOfWeek(dt.day, dt.month, dt.year) == (DayIndex(dt) + 1) % 7
  {
    var k := dt.year - TBIAS_YEAR;
    var pm := MonTab(k)[dt.month - 1];
    assert DayIndex(dt) + 1 == (k - 1) / 4 + 365 * k + pm + dt.day;
    if dt.month >= 3 {
      TablesAscend();
      assert (k - 1) / 4 + pm == k / 4 + MOS[dt.month - 1];
      MonthOffsetLate(dt.month);
      WeekdayLate(k, dt.day, MOS[dt.month - 1], (31 * (dt.month - 2)) / 12);
      DayOfWeekLate(dt.day, dt.month, dt.year);
    } else {
      var c := (31 * (dt.month + 10)) / 12;
      assert pm == (if dt.month == 1 then 0 else 31);
      assert c == pm + (if dt.month == 1 then 28 else 0);
      WeekdayEarly(k, dt.day, pm, c);
      DayOfWeekEarly(dt.day, dt.month, dt.year);
    }
  }

  lemma DayOfWeekLate(day: byte, month: byte, year: u16)
    requires 3 <= month <= 12
    ensures DayOfWeek(day, month, year)
         == (7000 + (day + year + year / 4 - year / 100 + year / 400 + (31 * (month - 2)) / 12)) % 7
  {
    assert CDiv(14 - month, 12) % 0x1_0000 == 0;
    assert (year - 0) % 0x1_0000 == year;
    assert (month + 12 * 0 - 2) % 0x1_0000 == month - 2;
  }

  lemma DayOfWeekEarly(day: byte, month: byte, year: u16)
    requires 1 <= month <= 2 && year >= 1
    ensures DayOfWeek(day, month, year)
         == (7000 + (day + (year - 1) + (year - 1) / 4 - (year - 1) / 100 + (year - 1) / 400 + (31 * (month + 10)) / 12)) % 7
  {
    assert CDiv(14 - month, 12) % 0x1_0000 == 1;
    assert (year - 1) % 0x1_0000 == year - 1;
    assert (month + 12 * 1 - 2) % 0x1_0000 == month + 10;
  }

  lemma WeekdayLate(k: int, day: int, mos: int, c: int)
    requires 1 <= k <= 199 && (mos - 1 - c) % 7 == 0
    ensures (7000 + (day + (1900 + k) + (1900 + k) / 4 - (1900 + k) / 100 + (1900 + k) / 400 + c)) % 7
         == (k / 4 + mos + 365 * k + day) % 7
  {
    var y := 1900 + k;
    assert y / 4 == 475 + k / 4;
    assert y / 100 - y / 400 == 15;
    var lhs := 7000 + (day + y + y / 4 - y / 100 + y / 400 + c);
    var rhs := k / 4 + mos + 365 * k + day;
    assert lhs - rhs == 9360 - 364 * k - (mos - 1 - c) - 1;
    SameMod7(lhs, rhs);
  }

  lemma WeekdayEarly(k: int, day: int, pm: int, c: int)
    requires 1 <= k <= 199 && (c - pm) % 7 == 0
    ensures (7000 + (day + (1899 + k) + (1899 + k) / 4 - (1899 + k) / 100 + (1899 + k) / 400 + c)) % 7
         == ((k - 1) / 4 + 365 * k + pm + day) % 7
  {
    var y := 1899 + k;
    assert y / 4 == 475 + (k - 1) / 4;
    assert y / 100 - y / 400 == 15;
    var lhs := 7000 + (day + y + y / 4 - y / 100 + y / 400 + c);
    var rhs := (k - 1) / 4 + 365 * k + pm + day;
    assert lhs - rhs == 9359 - 364 * k + (c - pm);
    SameMod7(lhs, rhs);
  }

  lemma MonthOffsetLate(month: int)
    requires 3 <= month <= 12
    ensures (MOS[month - 1] - 1 - (31 * (month - 2)) / 12) % 7 == 0
  {
  }

  // ---------------------------------------------------------------------------
  // Setting the clock from console text

  /** The character the routines read at position i of a string: past its end
   *  lies the terminating NUL (and zeros of the parameter row after it). */
  function CharAt(s: string, i: nat): char
  {
    if i < |s| then s[i] else NUL
  }

  /** One mask position: 'N' wants a digit; the separator wants punctuation. */
  predicate MaskMatch(c: char, m: char)
  {
    if m == 'N' then IsDigit(c) else IsPunct(c)
  }

  /** Number of mask positions the text satisfies. */
  function Score(s: string, mask: string): (n: nat)
    ensures n <= |mask|
    decreases |mask|
  {
    if mask == [] then 0
    else Score(s, mask[..|mask| - 1]) + (if MaskMatch(CharAt(s, |mask| - 1), mask[|mask| - 1]) then 1 else 0)
  }

  lemma {:induction false} ScoreFull(s: string, mask: string)
    ensures Score(s, mask) == |mask| <==> forall i :: 0 <= i < |mask| ==> MaskMatch(CharAt(s, i), mask[i])
    decreases |mask|
  {
    if mask != [] {
      var p := mask[..|mask| - 1];
      ScoreFull(s, p);
      assert forall i :: 0 <= i < |p| ==> p[i] == mask[i];
    }
  }

  /** The format-check loop shared by TimeSet and DateSet. */
  method MaskScore(s: string, mask: string) returns (chk: nat)
    ensures chk == Score(s, mask)
  {
    chk := 0;
    var idx := 0;
    while idx < |mask|
      invariant 0 <= idx <= |mask|
      invariant chk == Score(s, mask[..idx])
    {
      assert mask[..idx + 1][..idx] == mask[..idx];
      if MaskMatch(CharAt(s, idx), mask[idx]) {
        chk := chk + 1;
      }
      idx := idx + 1;
    }
    assert mask[..|mask|] == mask;
  }

  /** What a setter did: the value handed to SetTimeDate, if any, and the
   *  status it returned. `rtcOk` is the outcome of the RTC initialisation. */
  datatype SetOutcome = SetOutcome(ok: bool, written: Option<DateTime>)

  const TIME_MASK_LONG: string := "NN:NN:NN"
  const TIME_MASK_SHORT: string := "NN:NN"
  const DATE_MASK: string := "NN.NN.NNNN"

  function Written(dt: DateTime, rtcOk: bool): (o: SetOutcome)
  {
    SetOutcome(rtcOk, Some(dt))
  }

  const Rejected: SetOutcome := SetOutcome(false, None)

  lemma FullScoreLength(s: string, mask: string)
    requires mask != [] && Score(s, mask) == |mask|
    requires mask[|mask| - 1] == 'N'
    ensures |s| >= |mask|
  {
    ScoreFull(s, mask);
    assert MaskMatch(CharAt(s, |mask| - 1), 'N');
  }

  /** The mask TimeSet checks a text against: the long one for eight
   *  characters, the short one otherwise. */
  function TimeMask(time: string): (mask: string)
    ensures |time| == 8 ==> |mask| == 8
    ensures |time| != 8 ==> |mask| == 5
  {
    if |time| == 8 then TIME_MASK_LONG else TIME_MASK_SHORT
  }

  /** TimeSet: "HH:MM:SS" or "HH:MM" replaces the time of day of `now`. */
  method TimeSet(time: string, now: DateTime, rtcOk: bool) returns (r: SetOutcome)
    ensures r.written.Some? ==> r.written.value.hour < 24 && r.written.value.min < 60 && r.written.value.sec < 60
    ensures r.written.Some? ==> r.written.value.(hour := now.hour, min := now.min, sec := now.sec) == now
    ensures r.ok <==> r.written.Some? && rtcOk
    ensures |time| != 8 && |time| != 5 ==> r == Rejected
    ensures (|time| == 8 && Score(time, TIME_MASK_LONG) == 8) ==>
              (r.written.Some? <==> (Atoi(time) % 256 < 24 && Atoi(time[3..]) % 256 < 60 && Atoi(time[6..]) % 256 < 60))
    ensures r.written.Some? && |time| == 8 && Score(time, TIME_MASK_LONG) == 8 ==>
              r.written.value == now.(hour := Atoi(time) % 256, min := Atoi(time[3..]) % 256, sec := Atoi(time[6..]) % 256)
    ensures (|time| == 8 || |time| == 5) && Score(time, TimeMask(time)) == 5 ==>
              (r.written.Some? <==> (Atoi(time) % 256 < 24 && Atoi(time[3..]) % 256 < 60))
    ensures (r.written.Some? && Score(time, TimeMask(time)) == 5) ==>
              r.written.value == now.(hour := Atoi(time) % 256, min := Atoi(time[3..]) % 256, sec := 0)
    ensures Score(time, TimeMask(time)) != 8 && Score(time, TimeMask(time)) != 5 ==> r == Rejected
  {
    var mask: string;
    if |time| == 8 {
      mask := TIME_MASK_LONG;
    } else if |time| == 5 {
      mask := TIME_MASK_SHORT;
    } else {
      return Rejected;
    }
    var chk := MaskScore(time, mask);
    if chk == 8 {
      var h, m, s := Atoi(time) % 256, Atoi(time[3..]) % 256, Atoi(time[6..]) % 256;
      if h > 23 || m > 59 || s > 59 {
        return Rejected;
      }
      return Written(now.(hour := h, min := m, sec := s), rtcOk);
    }
    if chk == 5 {
      var h, m := Atoi(time) % 256, Atoi(time[3..]) % 256;
      if h > 23 || m > 59 {
        return Rejected;
      }
      return Written(now.(hour := h, min := m, sec := 0), rtcOk);
    }
    return Rejected;
  }

  /** DateSet: "DD.MM.YYYY" replaces the date of `now`; day 1..31, month 1..12
   *  and year up to 2100 are accepted, whatever the month's length. */
  method DateSet(date: string, now: DateTime, rtcOk: bool) returns (r: SetOutcome)
    ensures r.ok <==> r.written.Some? && rtcOk
    ensures Score(date, DATE_MASK) != 10 ==> r == Rejected
    ensures r.written.Some? ==>
              (|date| >= 10 && r.written.value ==
               now.(day := Atoi(date) % 256, month := Atoi(date[3..]) % 256, year := Atoi(date[6..]) % 0x1_0000))
    ensures r.written.Some? ==> 1 <= r.written.value.day <= 31 && 1 <= r.written.value.month <= 12
                                 && r.written.value.year <= 2100
    ensures (|date| >= 10 && Score(date, DATE_MASK) == 10 && 1 <= Atoi(date) % 256 <= 31
             && 1 <= Atoi(date[3..]) % 256 <= 12 && Atoi(date[6..]) % 0x1_0000 <= 2100) ==> r.written.Some?
  {
    var chk := MaskScore(date, DATE_MASK);
    if chk != 10 {
      return Rejected;
    }
    FullScoreLength(date, DATE_MASK);
    var d, m, y := Atoi(date) % 256, Atoi(date[3..]) % 256, Atoi(date[6..]) % 0x1_0000;
    if d < 1 || d > 31 || m < 1 || m > 12 || y > 2100 {
      return Rejected;
    }
    return Written(now.(day := d, month := m, year := y), rtcOk);
  }

  /** The text "HH:MM:SS" for a time of day. */
  function TimeText(h: nat, m: nat, s: nat): (t: string)
    requires h < 24 && m < 60 && s < 60
    ensures |t| == 8
  {
    Digits2(h) + ":" + Digits2(m) + ":" + Digits2(s)
  }

  /** The text "DD.MM.YYYY" for a date. */
  function DateText(d: nat, m: nat, y: nat): (t: string)
    requires d < 100 && m < 100 && y < 10000
    ensures |t| == 10
  {
    Digits2(d) + "." + Digits2(m) + "." + Digits4(y)
  }

  /** Every well-formed "HH:MM:SS" passes the format check and reads back. */
  lemma TimeTextAccepted(h: nat, m: nat, s: nat)
    requires h < 24 && m < 60 && s < 60
    ensures Score(TimeText(h, m, s), TIME_MASK_LONG) == 8
    ensures Atoi(TimeText(h, m, s)) == h && Atoi(TimeText(h, m, s)[3..]) == m && Atoi(TimeText(h, m, s)[6..]) == s
  {
    TimeTextScore(h, m, s);
    TimeTextReads(h, m, s);
  }

  lemma TimeTextScore(h: nat, m: nat, s: nat)
    requires h < 24 && m < 60 && s < 60
    ensures Score(TimeText(h, m, s), TIME_MASK_LONG) == 8
  {
    var t := TimeText(h, m, s);
    var a, b, c := Digits2(h), Digits2(m), Digits2(s);
    assert t == [a[0], a[1], ':', b[0], b[1], ':', c[0], c[1]];
    ScoreFull(t, TIME_MASK_LONG);
  }

  lemma TimeTextReads(h: nat, m: nat, s: nat)
    requires h < 24 && m < 60 && s < 60
    ensures Atoi(TimeText(h, m, s)) == h && Atoi(TimeText(h, m, s)[3..]) == m && Atoi(TimeText(h, m, s)[6..]) == s
  {
    var t := TimeText(h, m, s);
    assert t == Digits2(h) + (":" + Digits2(m) + ":" + Digits2(s));
    AtoiDigits2(h, ":" + Digits2(m) + ":" + Digits2(s));
    assert t[3..] == Digits2(m) + (":" + Digits2(s));
    AtoiDigits2(m, ":" + Digits2(s));
    assert t[6..] == Digits2(s) + [];
    AtoiDigits2(s, []);
  }

  /** Every well-formed "DD.MM.YYYY" passes the format check and reads back. */
  lemma DateTextAccepted(d: nat, m: nat, y: nat)
    requires d < 100 && m < 100 && y < 10000
    ensures Score(DateText(d, m, y), DATE_MASK) == 10
    ensures Atoi(DateText(d, m, y)) == d && Atoi(DateText(d, m, y)[3..]) == m && Atoi(DateText(d, m, y)[6..]) == y
  {
    DateTextScore(d, m, y);
    DateTextReads(d, m, y);
  }

  lemma DateTextScore(d: nat, m: nat, y: nat)
    requires d < 100 && m < 100 && y < 10000
    ensures Score(DateText(d, m, y), DATE_MASK) == 10
  {
    var t := DateText(d, m, y);
    var a, b, c := Digits2(d), Digits2(m), Digits4(y);
    assert t == [a[0], a[1], '.', b[0], b[1], '.', c[0], c[1], c[2], c[3]];
    ScoreFull(t, DATE_MASK);
  }

  lemma DateTextReads(d: nat, m: nat, y: nat)
    requires d < 100 && m < 100 && y < 10000
    ensures Atoi(DateText(d, m, y)) == d && Atoi(DateText(d, m, y)[3..]) == m && Atoi(DateText(d, m, y)[6..]) == y
  {
    var t := DateText(d, m, y);
    assert t == Digits2(d) + ("." + Digits2(m) + "." + Digits4(y));
    AtoiDigits2(d, "." + Digits2(m) + "." + Digits4(y));
    assert t[3..] == Digits2(m) + ("." + Digits4(y));
    AtoiDigits2(m, "." + Digits4(y));
    assert t[6..] == Digits4(y) + [];
    AtoiDigits4(y, []);
  }

  /** An eight-character text with three bad positions still passes as the
   *  short form: "12:34xyz" sets 12:34:00. */
  lemma GarbledLongTimeTakenAsShort()
    ensures Score("12:34xyz", TIME_MASK_LONG) == 5
    ensures Atoi("12:34xyz") == 12 && Atoi("12:34xyz"[3..]) == 34
  {
    GarbledScore();
    GarbledReads("12:34xyz", 12);
    GarbledReads("34xyz", 34);
    assert "12:34xyz"[3..] == "34xyz";
  }

  /** TimeSet on that text writes 12:34:00 into the clock. */
  method GarbledLongTimeSet(now: DateTime, rtcOk: bool) returns (r: SetOutcome)
    ensures r == Written(now.(hour := 12, min := 34, sec := 0), rtcOk)
  {
    var t := "12:34xyz";
    GarbledLongTimeTakenAsShort();
    assert |t| == 8 && TimeMask(t) == TIME_MASK_LONG;
    assert Score(t, TimeMask(t)) == 5;
    assert Atoi(t) % 256 == 12 && Atoi(t[3..]) % 256 == 34;
    r := TimeSet(t, now, rtcOk);
  }

  lemma GarbledReads(t: string, v: nat)
    requires 10 <= v < 100 && |t| >= 3
    requires t[0] == (48 + v / 10) as char && t[1] == (48 + v % 10) as char && !IsDigit(t[2])
    ensures Atoi(t) == v
  {
    assert t == Digits2(v) + t[2..];
    AtoiDigits2(v, t[2..]);
  }

  lemma GarbledScore()
    ensures Score("12:34xyz", TIME_MASK_LONG) == 5
  {
    var t := "12:34xyz";
    var mk := TIME_MASK_LONG;
    assert mk[..0] == [];
    assert Score(t, mk[..1]) == 1 by { assert mk[..1][..0] == mk[..0]; }
    assert Score(t, mk[..2]) == 2 by { assert mk[..2][..1] == mk[..1]; }
    assert Score(t, mk[..3]) == 3 by { assert mk[..3][..2] == mk[..2]; }
    assert Score(t, mk[..4]) == 4 by { assert mk[..4][..3] == mk[..3]; }
    assert Score(t, mk[..5]) == 5 by { assert mk[..5][..4] == mk[..4]; }
    assert Score(t, mk[..6]) == 5 by { assert mk[..6][..5] == mk[..5]; }
    assert Score(t, mk[..7]) == 5 by { assert mk[..7][..6] == mk[..6]; }
    assert Score(t, mk) == 5 by { assert mk[..7] == mk[..|mk| - 1]; }
  }

}
