/**
  Julian day numbers: the two conversions of Date, against the Gregorian calendar given by its leap-year rule alone.
  Day numbers are exact on the dates from 1 March 4801 BC (astronomical year -4800) on, where no operand is negative.
 */
module Calendar {

  datatype YearMonthDay = YearMonthDay(year: int, month: int, day: int)

  /** Integer division as C++ does it, towards zero. */
  function TruncDiv(a: int, b: int): int
    requires b > 0
  {
    if a >= 0 then a / b else -((-a) / b)
  }

  function TruncMod(a: int, b: int): int
    requires b > 0
  {
    a - TruncDiv(a, b) * b
  }

  // ---------- the code ----------

  function GetJulianDayNumber(year: int, month: int, day: int): int {
    var a := TruncDiv(14 - month, 12);
    var y := year + 4800 - a;
    var m := month + 12 * a - 3;
    day + TruncDiv(153 * m + 2, 5) + y * 365 + TruncDiv(y, 4) - TruncDiv(y, 100) + TruncDiv(y, 400) - 32045
  }

  function GetYearMonthDay(julianDayNumber: int): YearMonthDay {
    var a := julianDayNumber + 32044;
    var b := TruncDiv(4 * a + 3, 146097);
    var c := a - TruncDiv(b * 146097, 4);
    var d := TruncDiv(4 * c + 3, 1461);
    var e := c - TruncDiv(1461 * d, 4);
    var m := TruncDiv(5 * e + 2, 153);
    YearMonthDay(b * 100 + d - 4800 + TruncDiv(m, 10), m + 3 - 12 * TruncDiv(m, 10), e - TruncDiv(153 * m + 2, 5) + 1)
  }

  /** Date::weekDay. */
  function WeekDay(julianDayNumber: int): int {
    TruncMod(julianDayNumber + 1, 7)
  }

  // ---------- the calendar ----------

  predicate IsLeap(year: int) {
    year % 4 == 0 && (year % 100 != 0 || year % 400 == 0)
  }

  function DaysInMonth(year: int, month: int): int {
    if month == 2 then (if IsLeap(year) then 29 else 28)
    else if month == 4 || month == 6 || month == 9 || month == 11 then 30
    else 31
  }

  predicate ValidDate(d: YearMonthDay) {
    1 <= d.month <= 12 && 1 <= d.day <= DaysInMonth(d.year, d.month)
  }

  function NextDate(d: YearMonthDay): YearMonthDay {
    if d.day < DaysInMonth(d.year, d.month) then d.(day := d.day + 1)
    else if d.month < 12 then YearMonthDay(d.year, d.month + 1, 1)
    else YearMonthDay(d.year + 1, 1, 1)
  }

  /** From -4800-03-01 on. */
  predicate InRange(d: YearMonthDay) {
    d.year > -4800 || (d.year == -4800 && d.month >= 3)
  }

  const FIRST_DAY := -32044

  // ---------- day number of a date ----------

  /** Years counted from 1 March of -4800, months from March, days of that year from 0. */
  function MarchYear(d: YearMonthDay): int {
    if d.month <= 2 then d.year + 4799 else d.year + 4800
  }

  function MarchMonth(d: YearMonthDay): int {
    if d.month <= 2 then d.month + 9 else d.month - 3
  }

  function DayOfMarchYear(d: YearMonthDay): int {
    (153 * MarchMonth(d) + 2) / 5 + d.day - 1
  }

  lemma JulianForm(d: YearMonthDay)
    requires ValidDate(d) && InRange(d)
    ensures MarchYear(d) >= 0
    ensures var y := MarchYear(d);
      GetJulianDayNumber(d.year, d.month, d.day) == DayOfMarchYear(d) + 365 * y + y / 4 - y / 100 + y / 400 - 32044
  {
    assert TruncDiv(14 - d.month, 12) == if d.month <= 2 then 1 else 0;
  }

  /** The March-based year ends with February, so its length depends on the leap rule of the next calendar year. */
  lemma DayOfMarchYearBound(d: YearMonthDay)
    requires ValidDate(d)
    ensures 0 <= DayOfMarchYear(d) <= 365
    ensures !IsLeap(MarchYear(d) + 1 - 4800) ==> DayOfMarchYear(d) <= 364
  {
  }

  lemma MonthOfMarchYear(d: YearMonthDay)
    requires ValidDate(d)
    ensures (5 * DayOfMarchYear(d) + 2) / 153 == MarchMonth(d)
  {
    var m := MarchMonth(d);
    var e := DayOfMarchYear(d);
    assert 153 * m <= 5 * e + 2 < 153 * (m + 1);
  }

  /** The leap days of whole centuries and of the years of the last one. */
  lemma CenturySplit(y: int)
    requires y >= 0
    ensures var b, r := y / 100, y % 100;
      && y == 100 * b + r
      && y / 4 == 25 * b + r / 4
      && y / 400 == b / 4
      && 365 * y + y / 4 - y / 100 + y / 400 == 36524 * b + b / 4 + 365 * r + r / 4
  {
    var b, r := y / 100, y % 100;
    assert y == 4 * (25 * b) + r;
    assert y == 400 * (b / 4) + 100 * (b % 4) + r;
  }

  /** The last year of a century has 29 February 100 years times 4 only. */
  lemma LastYearOfCentury(y: int)
    requires y >= 0 && y % 100 == 99 && (y / 100) % 4 != 3
    ensures !IsLeap(y + 1 - 4800)
  {
    var z := y + 1 - 4800;
    var b := y / 100;
    assert z == 100 * (b - 47);
    assert z % 100 == 0;
  }

  /** The century is recovered from a day count of the era. */
  lemma Century(y: int, e: int)
    requires y >= 0 && 0 <= e <= 365 && (!IsLeap(y + 1 - 4800) ==> e <= 364)
    ensures var a := e + 365 * y + y / 4 - y / 100 + y / 400;
      a >= 0 && (4 * a + 3) / 146097 == y / 100
  {
    var b, r := y / 100, y % 100;
    CenturySplit(y);
    if r == 99 && b % 4 != 3 {
      LastYearOfCentury(y);
    }
    hide IsLeap;
    CenturyQuotient(b, 365 * r + r / 4 + e);
  }

  lemma CenturyQuotient(b: int, rest: int)
    requires b >= 0 && 0 <= rest <= 36524 && (b % 4 != 3 ==> rest <= 36523)
    ensures (4 * (36524 * b + b / 4 + rest) + 3) / 146097 == b
  {
    var x := 4 * (36524 * b + b / 4 + rest) + 3;
    assert 4 * (b / 4) == b - b % 4;
    assert x == 146097 * b - b % 4 + 4 * rest + 3;
  }

  /** The year of the century is recovered from a day count of the century. */
  lemma YearOfCentury(r: int, e: int)
    requires 0 <= r < 100 && 0 <= e <= 365 && (r % 4 != 3 ==> e <= 364)
    ensures (4 * (365 * r + r / 4 + e) + 3) / 1461 == r
  {
    var c := 365 * r + r / 4 + e;
    assert 4 * c + 3 == 1461 * r - r % 4 + 4 * e + 3;
  }

  /** The conversion from a day number, in terms of the March-based year and the day within it. */
  lemma YearMonthDayForm(y: int, e: int)
    requires y >= 0 && 0 <= e <= 365 && (!IsLeap(y + 1 - 4800) ==> e <= 364)
    ensures var m := (5 * e + 2) / 153;
      GetYearMonthDay(e + 365 * y + y / 4 - y / 100 + y / 400 - 32044) ==
        YearMonthDay(y - 4800 + m / 10, m + 3 - 12 * (m / 10), e - (153 * m + 2) / 5 + 1)
  {
    hide GetYearMonthDay, IsLeap;
    var a := e + 365 * y + y / 4 - y / 100 + y / 400;
    var b, r := y / 100, y % 100;
    Century(y, e);
    CenturyParts(y, e);
    LeapWithinCentury(y);
    YearOfCentury(r, e);
    FromParts(a, b, 365 * r + r / 4 + e, r, e);
  }

  lemma FromParts(a: int, b: int, c: int, r: int, e: int)
    requires a >= 0 && b >= 0 && c >= 0 && 0 <= r && e >= 0
    requires (4 * a + 3) / 146097 == b && a - (b * 146097) / 4 == c
    requires (4 * c + 3) / 1461 == r && c == 365 * r + r / 4 + e
    ensures var m := (5 * e + 2) / 153;
      GetYearMonthDay(a - 32044) ==
        YearMonthDay(100 * b + r - 4800 + m / 10, m + 3 - 12 * (m / 10), e - (153 * m + 2) / 5 + 1)
  {
    assert TruncDiv(4 * a + 3, 146097) == b;
    assert TruncDiv(b * 146097, 4) == (b * 146097) / 4;
    assert TruncDiv(4 * c + 3, 1461) == r;
    assert (1461 * r) / 4 == 365 * r + r / 4 by {
      assert 1461 * r == 4 * (365 * r) + r;
    }
    assert c - TruncDiv(1461 * r, 4) == e;
  }

  /** Converting a date to a day number and back gives the date, for every date in range. */
  lemma DateRoundTrip(d: YearMonthDay)
    requires ValidDate(d) && InRange(d)
    ensures GetYearMonthDay(GetJulianDayNumber(d.year, d.month, d.day)) == d
    ensures GetJulianDayNumber(d.year, d.month, d.day) >= FIRST_DAY
  {
    hide GetYearMonthDay, GetJulianDayNumber;
    JulianForm(d);
    DayOfMarchYearBound(d);
    MonthOfMarchYear(d);
    YearMonthDayForm(MarchYear(d), DayOfMarchYear(d));
    hide IsLeap;
  }

  lemma CenturyParts(y: int, e: int)
    requires y >= 0
    ensures var b, r := y / 100, y % 100;
      e + 365 * y + y / 4 - y / 100 + y / 400 - (b * 146097) / 4 == 365 * r + r / 4 + e
  {
    CenturySplit(y);
    var b := y / 100;
    assert b * 146097 == 4 * (36524 * b) + b;
  }

  lemma LeapWithinCentury(y: int)
    requires y >= 0
    ensures (y % 100) % 4 != 3 ==> !IsLeap(y + 1 - 4800)
  {
    var b, r := y / 100, y % 100;
    var z := y + 1 - 4800;
    if z % 4 == 0 {
      var q := z / 4;
      assert r + 1 == 4 * (q - 25 * b + 1200);
    }
  }

  /** Except at the end of February, the next day is the next one of the same March-based year. */
  lemma NextInMarchYear(d: YearMonthDay)
    requires ValidDate(d) && !(d.month == 2 && NextDate(d).month == 3)
    ensures MarchYear(NextDate(d)) == MarchYear(d) && DayOfMarchYear(NextDate(d)) == DayOfMarchYear(d) + 1
  {
    hide IsLeap;
    assert NextDate(d).month != d.month ==> MarchMonth(NextDate(d)) == MarchMonth(d) + 1;
  }

  lemma NextMarchYear(d: YearMonthDay)
    requires ValidDate(d) && d.month == 2 && NextDate(d).month == 3
    ensures MarchYear(NextDate(d)) == MarchYear(d) + 1 && DayOfMarchYear(NextDate(d)) == 0
    ensures DayOfMarchYear(d) == if IsLeap(MarchYear(d) + 1 - 4800) then 365 else 364
  {
    hide IsLeap;
  }

  lemma NextIsValid(d: YearMonthDay)
    requires ValidDate(d) && InRange(d)
    ensures ValidDate(NextDate(d)) && InRange(NextDate(d))
  {
    hide IsLeap;
  }

  /** Consecutive dates have consecutive day numbers. */
  lemma ConsecutiveDates(d: YearMonthDay)
    requires ValidDate(d) && InRange(d)
    ensures ValidDate(NextDate(d)) && InRange(NextDate(d))
    ensures var n := NextDate(d);
      GetJulianDayNumber(n.year, n.month, n.day) == GetJulianDayNumber(d.year, d.month, d.day) + 1
  {
    var n := NextDate(d);
    NextIsValid(d);
    hide GetJulianDayNumber, ValidDate, InRange, MarchYear, DayOfMarchYear, IsLeap, NextDate;
    JulianForm(d);
    JulianForm(n);
    if d.month == 2 && n.month == 3 {
      FebruaryEnds(MarchYear(d));
      NextMarchYear(d);
    } else {
      NextInMarchYear(d);
    }
  }

  /** How a quotient changes from one year to the next. */
  lemma Quotients(y: int)
    requires y >= 0
    ensures (y + 1) / 4 == y / 4 + (if (y + 1) % 4 == 0 then 1 else 0)
    ensures (y + 1) / 100 == y / 100 + (if (y + 1) % 100 == 0 then 1 else 0)
    ensures (y + 1) / 400 == y / 400 + (if (y + 1) % 400 == 0 then 1 else 0)
  {
  }

  /** 4800 is a multiple of all three, and 400 of 100, and 100 of 4. */
  lemma Remainders(z: int)
    ensures (z - 4800) % 4 == z % 4 && (z - 4800) % 100 == z % 100 && (z - 4800) % 400 == z % 400
    ensures (z % 100 == 0 ==> z % 4 == 0) && (z % 400 == 0 ==> z % 100 == 0)
  {
    Mod4(z);
    Mod100(z);
    Mod400(z);
  }

  lemma Mod4(z: int)
    ensures (z - 4800) % 4 == z % 4
  {
    assert z - 4800 == 4 * (z / 4 - 1200) + z % 4;
  }

  lemma Mod100(z: int)
    ensures (z - 4800) % 100 == z % 100 && (z % 100 == 0 ==> z % 4 == 0)
  {
    var q, r := z / 100, z % 100;
    Hundreds(q, r);
    Hundreds(q - 48, r);
    assert z == 100 * q + r && z - 4800 == 100 * (q - 48) + r;
  }

  lemma Hundreds(q: int, r: int)
    requires 0 <= r < 100
    ensures (100 * q + r) % 100 == r && (100 * q) % 4 == 0
  {
    var m := 100 * q + r;
    assert 100 * (m / 100 - q) == r - m % 100;
    Fours(25 * q);
    assert 100 * q == 4 * (25 * q);
  }

  lemma Fours(p: int)
    ensures (4 * p) % 4 == 0
  {
  }

  lemma Mod400(z: int)
    ensures (z - 4800) % 400 == z % 400 && (z % 400 == 0 ==> z % 100 == 0)
  {
    var q, r := z / 400, z % 400;
    FourHundreds(q, r);
    FourHundreds(q - 12, r);
    assert z == 400 * q + r && z - 4800 == 400 * (q - 12) + r;
  }

  lemma FourHundreds(q: int, r: int)
    requires 0 <= r < 400
    ensures (400 * q + r) % 400 == r && (400 * q) % 100 == 0
  {
    var m := 400 * q + r;
    assert 400 * (m / 400 - q) == r - m % 400;
    Hundreds(4 * q, 0);
    assert 400 * q == 100 * (4 * q);
  }

  lemma FebruaryEnds(y: int)
    requires y >= 0
    ensures var z := y + 1;
      z / 4 - z / 100 + z / 400 == y / 4 - y / 100 + y / 400 + (if IsLeap(z - 4800) then 1 else 0)
  {
    Quotients(y);
    Remainders(y + 1);
  }

  /** The n-th date of the calendar, counted from -4800-03-01. */
  function DateAfter(n: nat): YearMonthDay {
    if n == 0 then YearMonthDay(-4800, 3, 1) else NextDate(DateAfter(n - 1))
  }

  lemma {:induction false} DateAfterNumber(n: nat)
    ensures var d := DateAfter(n);
      ValidDate(d) && InRange(d) && GetJulianDayNumber(d.year, d.month, d.day) == FIRST_DAY + n
  {
    if n > 0 {
      DateAfterNumber(n - 1);
      ConsecutiveDates(DateAfter(n - 1));
    }
  }

  /**
    Converting a day number to a date and back gives the number, the date is a real one, and it is the one the calendar
    reaches by counting days under the leap-year rule.
   */
  lemma NumberRoundTrip(julianDayNumber: int)
    requires julianDayNumber >= FIRST_DAY
    ensures var d := GetYearMonthDay(julianDayNumber);
      && ValidDate(d) && InRange(d)
      && GetJulianDayNumber(d.year, d.month, d.day) == julianDayNumber
      && d == DateAfter(julianDayNumber - FIRST_DAY)
  {
    var d := DateAfter(julianDayNumber - FIRST_DAY);
    DateAfterNumber(julianDayNumber - FIRST_DAY);
    DateRoundTrip(d);
  }

  /** Day numbers repeat their dates every 400 years. */
  lemma FourHundredYears(d: YearMonthDay)
    requires ValidDate(d) && InRange(d)
    ensures ValidDate(d.(year := d.year + 400)) && InRange(d.(year := d.year + 400))
    ensures GetJulianDayNumber(d.year + 400, d.month, d.day) == GetJulianDayNumber(d.year, d.month, d.day) + 146097
  {
    var n := d.(year := d.year + 400);
    assert n.year % 4 == d.year % 4 && n.year % 100 == d.year % 100 && n.year % 400 == d.year % 400;
    JulianForm(d);
    JulianForm(n);
    var y := MarchYear(d);
    assert (y + 400) / 4 == y / 4 + 100 && (y + 400) / 100 == y / 100 + 4 && (y + 400) / 400 == y / 400 + 1;
  }

  /** The weekday is a day of the week, and the next day's is the next one, exactly from day number -1 on. */
  lemma WeekDayExact(julianDayNumber: int)
    ensures (0 <= WeekDay(julianDayNumber) < 7 && WeekDay(julianDayNumber + 1) == (WeekDay(julianDayNumber) + 1) % 7) <==>
              julianDayNumber >= -1
  {
    if julianDayNumber >= -1 {
      assert WeekDay(julianDayNumber) == (julianDayNumber + 1) % 7;
      assert WeekDay(julianDayNumber + 1) == (julianDayNumber + 2) % 7;
    } else {
      var k := -(julianDayNumber + 1);
      assert WeekDay(julianDayNumber) == -(k % 7);
      assert WeekDay(julianDayNumber + 1) == -((k - 1) % 7);
    }
  }

  predicate Int32(x: int) {
    -0x8000_0000 <= x < 0x8000_0000
  }

  /** Every intermediate value of getJulianDayNumber, its sum taken from left to right, fits an int. */
  predicate NumberFits(year: int, month: int, day: int) {
    var a := TruncDiv(14 - month, 12);
    var y := year + 4800 - a;
    var m := month + 12 * a - 3;
    var sum2 := day + TruncDiv(153 * m + 2, 5);
    var sum3 := sum2 + y * 365;
    var sum4 := sum3 + TruncDiv(y, 4);
    var sum5 := sum4 - TruncDiv(y, 100);
    var sum6 := sum5 + TruncDiv(y, 400);
    && Int32(14 - month) && Int32(year + 4800) && Int32(y) && Int32(month + 12 * a) && Int32(153 * m + 2)
    && Int32(sum2) && Int32(y * 365) && Int32(sum3) && Int32(sum4) && Int32(sum5) && Int32(sum6) && Int32(sum6 - 32045)
  }

  /** And of getYearMonthDay. */
  predicate DateFits(julianDayNumber: int) {
    var a := julianDayNumber + 32044;
    var b := TruncDiv(4 * a + 3, 146097);
    var c := a - TruncDiv(b * 146097, 4);
    var d := TruncDiv(4 * c + 3, 1461);
    var e := c - TruncDiv(1461 * d, 4);
    var m := TruncDiv(5 * e + 2, 153);
    && Int32(a) && Int32(4 * a + 3) && Int32(b * 146097) && Int32(c) && Int32(4 * c + 3) && Int32(1461 * d)
    && Int32(e) && Int32(5 * e + 2) && Int32(153 * m + 2) && Int32(e - TruncDiv(153 * m + 2, 5) + 1)
    && Int32(m + 3 - 12 * TruncDiv(m, 10)) && Int32(b * 100) && Int32(b * 100 + d - 4800 + TruncDiv(m, 10))
  }

  /** With 32-bit integers no intermediate value of either conversion overflows, up to day 536,838,867; the next one does. */
  lemma NoOverflow(julianDayNumber: int)
    requires FIRST_DAY <= julianDayNumber
    ensures DateFits(julianDayNumber) <==> julianDayNumber <= 536_838_867
    ensures var d := GetYearMonthDay(julianDayNumber);
      julianDayNumber <= 536_838_867 ==> NumberFits(d.year, d.month, d.day)
  {
    if julianDayNumber <= 536_838_867 {
      DatePartsFit(julianDayNumber);
      hide GetYearMonthDay, GetJulianDayNumber, IsLeap, DateFits, NumberFits;
      NumberRoundTrip(julianDayNumber);
      NumberPartsFit(GetYearMonthDay(julianDayNumber));
    }
  }

  lemma DatePartsFit(julianDayNumber: int)
    requires FIRST_DAY <= julianDayNumber <= 536_838_867
    ensures DateFits(julianDayNumber)
  {
    var a := julianDayNumber + 32044;
    var b := TruncDiv(4 * a + 3, 146097);
    assert 0 <= b <= 14699 && 0 <= 4 * a + 3 - b * 146097 < 146097;
    var c := a - TruncDiv(b * 146097, 4);
    assert 0 <= c <= 36524;
    var d := TruncDiv(4 * c + 3, 1461);
    assert 0 <= d <= 100;
    var e := c - TruncDiv(1461 * d, 4);
    assert 0 <= e <= 366;
  }

  lemma NumberPartsFit(d: YearMonthDay)
    requires ValidDate(d) && InRange(d) && GetJulianDayNumber(d.year, d.month, d.day) <= 536_838_867
    ensures NumberFits(d.year, d.month, d.day)
  {
    YearBound(d);
    hide GetJulianDayNumber, IsLeap;
    var y := d.year + 4800;
    assert 0 <= y <= 1_471_000;
  }

  lemma YearBound(d: YearMonthDay)
    requires ValidDate(d) && InRange(d)
    ensures 0 <= (d.year + 4800) * 365 <= GetJulianDayNumber(d.year, d.month, d.day) + 32044 + 365
  {
    JulianForm(d);
    hide GetJulianDayNumber;
    DayOfMarchYearBound(d);
    hide IsLeap;
    var y := MarchYear(d);
    assert y / 4 - y / 100 >= 0;
  }
}
