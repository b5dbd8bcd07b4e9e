/** Seconds since the epoch against broken-down UTC time. */
module UtcTime {
  import opened Calendar

  datatype Tm = Tm(year: int, mon: int, mday: int, hour: int, min: int, sec: int, wday: int, yday: int, isDst: bool, gmtOffset: int)

  /** Julian day number of 1970-01-01. */
  const EPOCH := GetJulianDayNumber(1970, 1, 1)

  lemma EpochValue()
    ensures EPOCH == 2440588
  {
  }

  /** First second of -4800-03-01. */
  const FIRST_SECOND := (FIRST_DAY - 2440588) * 86400

  // ---------- the code ----------

  /** The days and seconds of the day, from C++'s truncating operators. */
  function SplitDays(secondsSinceEpoch: int): (r: (int, int))
    ensures r.0 * 86400 + r.1 == secondsSinceEpoch && 0 <= r.1 < 86400
  {
    var seconds := TruncMod(secondsSinceEpoch, 86400);
    var days := TruncDiv(secondsSinceEpoch, 86400);
    if seconds < 0 then (days - 1, seconds + 86400) else (days, seconds)
  }

  /** TimeZone::toUtcTime. */
  function ToUtcTime(secondsSinceEpoch: int, withYearDay: bool): Tm {
    var (days, seconds) := SplitDays(secondsSinceEpoch);
    var minutes := seconds / 60;
    var julian := days + EPOCH;
    var d := GetYearMonthDay(julian);
    Tm(d.year - 1900, d.month - 1, d.day, minutes / 60, minutes % 60, seconds % 60, WeekDay(julian),
       if withYearDay then julian - GetJulianDayNumber(d.year, 1, 1) else 0, false, 0)
  }

  /** TimeZone::fromUtcTime. */
  function FromUtcTime(utc: Tm): int {
    var days := GetJulianDayNumber(utc.year + 1900, utc.mon + 1, utc.mday) - EPOCH;
    days * 86400 + (utc.hour * 3600 + utc.min * 60 + utc.sec)
  }

  // ---------- round trips ----------

  function DateOf(utc: Tm): YearMonthDay {
    YearMonthDay(utc.year + 1900, utc.mon + 1, utc.mday)
  }

  predicate ValidClock(utc: Tm) {
    0 <= utc.hour < 24 && 0 <= utc.min < 60 && 0 <= utc.sec < 60
  }

  lemma ClockParts(seconds: int)
    requires 0 <= seconds < 86400
    ensures var minutes := seconds / 60;
      && minutes / 60 * 3600 + minutes % 60 * 60 + seconds % 60 == seconds
      && 0 <= minutes / 60 < 24
      && seconds / 3600 == minutes / 60
  {
  }

  /** Every second from -4800-03-01 on, negative ones included, survives toUtcTime and fromUtcTime. */
  lemma UtcRoundTrip(t: int, withYearDay: bool)
    requires t >= FIRST_SECOND
    ensures var utc := ToUtcTime(t, withYearDay);
      && FromUtcTime(utc) == t
      && ValidClock(utc) && ValidDate(DateOf(utc)) && InRange(DateOf(utc))
  {
    hide GetYearMonthDay, GetJulianDayNumber, IsLeap, TruncDiv, TruncMod, SplitDays;
    var (days, seconds) := SplitDays(t);
    EpochValue();
    assert days + EPOCH >= FIRST_DAY;
    NumberRoundTrip(days + EPOCH);
    ClockParts(seconds);
  }

  /** And every valid broken-down time in range survives the other way. */
  lemma TmRoundTrip(utc: Tm, withYearDay: bool)
    requires ValidClock(utc) && ValidDate(DateOf(utc)) && InRange(DateOf(utc))
    ensures FromUtcTime(utc) >= FIRST_SECOND
    ensures var back := ToUtcTime(FromUtcTime(utc), withYearDay);
      DateOf(back) == DateOf(utc) && back.hour == utc.hour && back.min == utc.min && back.sec == utc.sec
  {
    hide GetYearMonthDay, GetJulianDayNumber, IsLeap, TruncDiv, TruncMod, SplitDays;
    var d := DateOf(utc);
    DateRoundTrip(d);
    EpochValue();
    var days := GetJulianDayNumber(d.year, d.month, d.day) - EPOCH;
    var seconds := utc.hour * 3600 + utc.min * 60 + utc.sec;
    SplitUnique(FromUtcTime(utc), days, seconds);
    ClockUnique(utc.hour, utc.min, utc.sec);
  }

  lemma SplitUnique(t: int, days: int, seconds: int)
    requires t == days * 86400 + seconds && 0 <= seconds < 86400
    ensures SplitDays(t) == (days, seconds)
  {
    var r := SplitDays(t);
    assert (r.0 - days) * 86400 == seconds - r.1;
  }

  lemma ClockUnique(hour: int, min: int, sec: int)
    requires 0 <= hour < 24 && 0 <= min < 60 && 0 <= sec < 60
    ensures var seconds := hour * 3600 + min * 60 + sec;
      && 0 <= seconds < 86400
      && seconds % 60 == sec && seconds / 60 % 60 == min && seconds / 60 / 60 == hour
  {
    var seconds := hour * 3600 + min * 60 + sec;
    assert seconds == 60 * (60 * hour + min) + sec;
    assert seconds / 60 == 60 * hour + min;
  }

  /** Days of the year before a date. */
  function DayOfYear(d: YearMonthDay): int {
    (if d.month > 1 then DaysBefore(d.year, d.month) else 0) + d.day - 1
  }

  function DaysBefore(year: int, month: int): int
    decreases month
  {
    if month <= 1 then 0 else DaysBefore(year, month - 1) + DaysInMonth(year, month - 1)
  }

  /** Days before a month, from the March-based count. */
  lemma {:induction false} DaysBeforeForm(year: int, month: int)
    requires 1 <= month <= 12
    ensures DaysBefore(year, month) ==
              if month <= 2 then 31 * (month - 1)
              else (153 * (month - 3) + 2) / 5 + (if IsLeap(year) then 60 else 59)
    decreases month
  {
    if month > 1 {
      DaysBeforeForm(year, month - 1);
      hide IsLeap;
    }
  }

  /** tm_yday is the day of the year exactly for the years after -4800, whose 1 January is out of range. */
  lemma YearDayExact(d: YearMonthDay)
    requires ValidDate(d) && InRange(d)
    ensures GetJulianDayNumber(d.year, d.month, d.day) - GetJulianDayNumber(d.year, 1, 1) == DayOfYear(d) <==> d.year > -4800
  {
    hide GetJulianDayNumber, IsLeap;
    JulianForm(d);
    if d.year > -4800 {
      JulianForm(YearMonthDay(d.year, 1, 1));
      YearDayForm(d);
    } else {
      LastJanuary();
      YearDayForm(d);
    }
  }

  /** The year's days up to a date, from the March-based count. */
  lemma YearDayForm(d: YearMonthDay)
    requires ValidDate(d)
    ensures DayOfYear(d) == if d.month <= 2 then DayOfMarchYear(d) - 306
                            else DayOfMarchYear(d) + (if IsLeap(d.year) then 60 else 59)
    ensures d.year > -4800 ==> var y := d.year + 4799; var z := d.year + 4800;
              z / 4 - z / 100 + z / 400 == y / 4 - y / 100 + y / 400 + (if IsLeap(d.year) then 1 else 0)
  {
    DaysBeforeForm(d.year, d.month);
    if d.year > -4800 {
      FebruaryEnds(d.year + 4799);
    }
    hide IsLeap;
  }

  lemma LastJanuary()
    ensures GetJulianDayNumber(-4800, 1, 1) == -32103 && IsLeap(-4800)
  {
  }

  // ---------- gmtime_r and timegm: the same calendar for every second ----------

  /** `gmtime_r`: the date of the day's place in its 400-year cycle, moved by whole cycles. */
  function GmTime(t: int): Tm {
    var n := t / 86400 + EPOCH - FIRST_DAY;
    var seconds := t % 86400;
    var d := GetYearMonthDay(FIRST_DAY + n % 146097);
    Tm(d.year + 400 * (n / 146097) - 1900, d.month - 1, d.day, seconds / 3600, seconds / 60 % 60, seconds % 60,
       0, 0, false, 0)
  }

  /** `timegm`, on the fields gmtime_r fills. */
  function TimeGm(tm: Tm): int {
    var cycle := MarchYear(DateOf(tm)) / 400;
    var days := GetJulianDayNumber(tm.year + 1900 - 400 * cycle, tm.mon + 1, tm.mday) + 146097 * cycle - EPOCH;
    days * 86400 + tm.hour * 3600 + tm.min * 60 + tm.sec
  }

  lemma FirstCycle(j: int)
    requires FIRST_DAY <= j < FIRST_DAY + 146097
    ensures 0 <= MarchYear(GetYearMonthDay(j)) < 400
  {
    hide GetYearMonthDay, GetJulianDayNumber, IsLeap, TruncDiv;
    var d := GetYearMonthDay(j);
    NumberRoundTrip(j);
    JulianForm(d);
    DayOfMarchYearBound(d);
    if MarchYear(d) >= 400 {
      CycleBound(MarchYear(d));
    }
  }

  lemma CycleBound(y: int)
    requires y >= 400
    ensures 365 * y + y / 4 - y / 100 + y / 400 >= 146097
  {
    var q := y / 100;
    assert y / 4 >= 25 * q;
  }

  lemma GmRoundTrip(t: int)
    ensures TimeGm(GmTime(t)) == t && ValidClock(GmTime(t))
  {
    hide GetYearMonthDay, GetJulianDayNumber, IsLeap, TruncDiv, MarchYear;
    var n := t / 86400 + EPOCH - FIRST_DAY;
    var cycle, seconds := n / 146097, t % 86400;
    var j := FIRST_DAY + n % 146097;
    NumberRoundTrip(j);
    FirstCycle(j);
    var d := GetYearMonthDay(j);
    CycleOf(d, cycle);
    ClockParts(seconds);
    var tm := GmTime(t);
    assert DateOf(tm) == d.(year := d.year + 400 * cycle);
    assert tm.year + 1900 - 400 * cycle == d.year;
    assert j + 146097 * cycle - EPOCH == t / 86400;
    assert TimeGm(tm) == (t / 86400) * 86400 + (tm.hour * 3600 + tm.min * 60 + tm.sec);
  }

  lemma CycleOf(d: YearMonthDay, cycle: int)
    requires 0 <= MarchYear(d) < 400
    ensures MarchYear(d.(year := d.year + 400 * cycle)) / 400 == cycle
  {
    assert MarchYear(d.(year := d.year + 400 * cycle)) == MarchYear(d) + 400 * cycle;
  }

  lemma {:induction false} CyclesAway(j: int, k: nat)
    requires j >= FIRST_DAY
    ensures GetYearMonthDay(j + 146097 * k) == GetYearMonthDay(j).(year := GetYearMonthDay(j).year + 400 * k)
  {
    hide GetYearMonthDay, GetJulianDayNumber, IsLeap, TruncDiv;
    if k == 0 {
      assert j + 146097 * k == j;
    } else {
      CyclesAway(j, k - 1);
      var i := j + 146097 * (k - 1);
      var d := GetYearMonthDay(i);
      NumberRoundTrip(i);
      FourHundredYears(d);
      DateRoundTrip(d.(year := d.year + 400));
      assert j + 146097 * k == i + 146097;
    }
  }

  /** On the range of toUtcTime the two agree on date and clock. */
  lemma GmTimeIsUtcTime(t: int)
    requires t >= FIRST_SECOND
    ensures var a, b := GmTime(t), ToUtcTime(t, false);
      DateOf(a) == DateOf(b) && a.hour == b.hour && a.min == b.min && a.sec == b.sec
  {
    hide GetYearMonthDay, GetJulianDayNumber, IsLeap, TruncDiv, TruncMod, SplitDays;
    EpochValue();
    var n := t / 86400 + EPOCH - FIRST_DAY;
    var seconds := t % 86400;
    SplitUnique(t, t / 86400, seconds);
    assert n >= 0;
    CyclesAway(FIRST_DAY + n % 146097, n / 146097);
    assert FIRST_DAY + n % 146097 + 146097 * (n / 146097) == t / 86400 + EPOCH;
    ClockParts(seconds);
  }

  // ---------- the other fields ----------

  /** tm_yday is the day of the year, for every moment after the year -4800, and 0 when it is not asked for. */
  lemma YearDayField(t: int)
    requires t >= FIRST_SECOND
    ensures var utc := ToUtcTime(t, true);
      utc.yday == DayOfYear(DateOf(utc)) <==> DateOf(utc).year > -4800
    ensures ToUtcTime(t, false) == ToUtcTime(t, true).(yday := 0)
  {
    hide GetYearMonthDay, GetJulianDayNumber, DayOfYear, ValidDate, InRange, SplitDays, DateAfter, WeekDay;
    EpochValue();
    var julian := SplitDays(t).0 + EPOCH;
    assert julian >= FIRST_DAY;
    NumberRoundTrip(julian);
    YearDayExact(GetYearMonthDay(julian));
    assert DateOf(ToUtcTime(t, true)) == GetYearMonthDay(julian);
  }

  /** tm_wday counts the days of the week from the Thursday of the epoch, from day number -1 on. */
  lemma WeekDayField(t: int, withYearDay: bool)
    requires SplitDays(t).0 + EPOCH >= -1
    ensures ToUtcTime(t, withYearDay).wday == (4 + SplitDays(t).0) % 7
  {
    EpochValue();
    hide GetYearMonthDay, GetJulianDayNumber, SplitDays;
    var days := SplitDays(t).0;
    assert days + 2440589 == 4 + days + 7 * 348655;
    WeekShift(4 + days);
  }

  lemma WeekShift(n: int)
    ensures (n + 7 * 348655) % 7 == n % 7
  {
  }

  /** The date is that of the calendar so many days after the first one, the clock the seconds of the day. */
  lemma UtcDateAndClock(t: int, withYearDay: bool)
    requires t >= FIRST_SECOND
    ensures SplitDays(t).0 + 2440588 >= FIRST_DAY
    ensures var utc := ToUtcTime(t, withYearDay);
      && DateOf(utc) == DateAfter(SplitDays(t).0 + 2440588 - FIRST_DAY)
      && utc.hour * 3600 + utc.min * 60 + utc.sec == SplitDays(t).1
  {
    hide GetYearMonthDay, GetJulianDayNumber, ValidDate, InRange, SplitDays, DateAfter, WeekDay;
    EpochValue();
    ClockParts(SplitDays(t).1);
    NumberRoundTrip(SplitDays(t).0 + EPOCH);
  }
}
