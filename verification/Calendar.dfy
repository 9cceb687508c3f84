/** The Julian-day arithmetic of flute/common/Date.cc and the UTC conversions of
    flute/common/Timezone.cc, against an independent Gregorian calendar. */
module Calendar {

  // C's integer division and remainder: truncation toward zero.
  function TDiv(a: int, b: int): int
    requires b > 0
  {
    if a >= 0 then a / b else -((-a) / b)
  }

  function TMod(a: int, b: int): int
    requires b > 0
  {
    a - b * TDiv(a, b)
  }

  predicate IsInt32(x: int) {
    -0x8000_0000 <= x <= 0x7fff_ffff
  }

  // ---------- The code ----------

  datatype YearMonthDay = YearMonthDay(year: int, month: int, day: int)

  function GetJulianDayNumber(year: int, month: int, day: int): int {
    var a := TDiv(14 - month, 12);
    var y := year + 4800 - a;
    var m := month + 12 * a - 3;
    day + TDiv(153 * m + 2, 5) + y * 365 + TDiv(y, 4) - TDiv(y, 100) + TDiv(y, 400) - 32045
  }

  function GetYearMonthDay(julianDayNumber: int): YearMonthDay {
    var a := julianDayNumber + 32044;
    var b := TDiv(4 * a + 3, 146097);
    var c := a - TDiv(b * 146097, 4);
    var d := TDiv(4 * c + 3, 1461);
    var e := c - TDiv(1461 * d, 4);
    var m := TDiv(5 * e + 2, 153);
    YearMonthDay(b * 100 + d - 4800 + TDiv(m, 10),
                 m + 3 - 12 * TDiv(m, 10),
                 e - TDiv(153 * m + 2, 5) + 1)
  }

  function JulianDay(date: YearMonthDay): int {
    GetJulianDayNumber(date.year, date.month, date.day)
  }

  // Every intermediate value of get_year_month_day, in the order it is computed.
  function Intermediates(julianDayNumber: int): seq<int> {
    var a := julianDayNumber + 32044;
    var b := TDiv(4 * a + 3, 146097);
    var c := a - TDiv(b * 146097, 4);
    var d := TDiv(4 * c + 3, 1461);
    var e := c - TDiv(1461 * d, 4);
    var m := TDiv(5 * e + 2, 153);
    [a, 4 * a, 4 * a + 3, b, b * 146097, c, 4 * c, 4 * c + 3, d, 1461 * d, e,
     5 * e, 5 * e + 2, m, 153 * m, 153 * m + 2, 12 * TDiv(m, 10), b * 100, b * 100 + d]
  }

  // ---------- The calendar ----------

  predicate IsLeap(year: int) {
    year % 4 == 0 && (year % 100 != 0 || year % 400 == 0)
  }

  function DaysInMonth(year: int, month: int): int {
    if month == 2 then (if IsLeap(year) then 29 else 28)
    else if month == 4 || month == 6 || month == 9 || month == 11 then 30
    else 31
  }

  predicate IsDate(d: YearMonthDay) {
    1 <= d.month <= 12 && 1 <= d.day <= DaysInMonth(d.year, d.month)
  }

  function NextDay(d: YearMonthDay): YearMonthDay {
    if d.day < DaysInMonth(d.year, d.month) then d.(day := d.day + 1)
    else if d.month < 12 then YearMonthDay(d.year, d.month + 1, 1)
    else YearMonthDay(d.year + 1, 1, 1)
  }

  predicate DateBefore(d: YearMonthDay, e: YearMonthDay) {
    d.year < e.year || (d.year == e.year && (d.month < e.month || (d.month == e.month && d.day < e.day)))
  }

  // The first day the code can name, 1 March 4801 BC, has number -32044.
  const FIRST_DAY := -32044
  // The last day for which 4 * a + 3 fits in 32 bits.
  const LAST_DAY := 536838867

  predicate SinceFirstDay(d: YearMonthDay) {
    d.year > -4800 || (d.year == -4800 && d.month >= 3)
  }

  // ---------- Julian days ----------

  // Days before year y of the calendar that starts its years on 1 March 4801 BC.
  function DaysBefore(y: nat): nat {
    365 * y + y / 4 - y / 100 + y / 400
  }

  lemma JulianDayShape(d: YearMonthDay)
    requires IsDate(d) && SinceFirstDay(d)
    ensures d.month >= 3 ==>
              && d.year + 4800 >= 0
              && JulianDay(d) == d.day + (153 * (d.month - 3) + 2) / 5 + DaysBefore(d.year + 4800) - 32045
    ensures d.month < 3 ==>
              && d.year + 4799 >= 0
              && JulianDay(d) == d.day + (153 * (d.month + 9) + 2) / 5 + DaysBefore(d.year + 4799) - 32045
  {
  }

  lemma YearLength(y: nat)
    ensures DaysBefore(y + 1) == DaysBefore(y) + if IsLeap(y + 1) then 366 else 365
  {
    NextFour(y);
    NextHundred(y);
    NextFourHundred(y);
    HundredsAreFours(y + 1);
  }

  lemma NextFour(y: nat)
    ensures (y + 1) / 4 == y / 4 + if (y + 1) % 4 == 0 then 1 else 0
  {
  }

  lemma NextHundred(y: nat)
    ensures (y + 1) / 100 == y / 100 + if (y + 1) % 100 == 0 then 1 else 0
  {
  }

  lemma NextFourHundred(y: nat)
    ensures (y + 1) / 400 == y / 400 + if (y + 1) % 400 == 0 then 1 else 0
  {
  }

  lemma HundredsAreFours(y: int)
    ensures y % 400 == 0 ==> y % 100 == 0
    ensures y % 100 == 0 ==> y % 4 == 0
  {
    FourHundreds(y / 400);
    Hundreds(y / 100);
    assert y % 400 == 0 ==> y == 400 * (y / 400);
    assert y % 100 == 0 ==> y == 100 * (y / 100);
  }

  lemma FourHundreds(q: int)
    ensures (400 * q) % 100 == 0
  {
  }

  lemma Hundreds(q: int)
    ensures (100 * q) % 4 == 0
  {
  }

  lemma LeapPeriod(year: int)
    ensures IsLeap(year + 4800) == IsLeap(year)
  {
    assert year + 4800 == 4 * (year / 4 + 1200) + year % 4;
    assert year + 4800 == 100 * (year / 100 + 48) + year % 100;
    assert year + 4800 == 400 * (year / 400 + 12) + year % 400;
  }

  /** The calendar's successor day has the successor number. */
  lemma NextDayHasNextNumber(d: YearMonthDay)
    requires IsDate(d) && SinceFirstDay(d)
    ensures IsDate(NextDay(d)) && SinceFirstDay(NextDay(d))
    ensures JulianDay(NextDay(d)) == JulianDay(d) + 1
  {
    if d.day == DaysInMonth(d.year, d.month) {
      if d.month == 2 {
        JulianDayShape(d);
        JulianDayShape(NextDay(d));
        YearLength(d.year + 4799);
        LeapPeriod(d.year);
      } else {
        MonthEnd(d);
      }
    }
  }

  lemma MonthEnd(d: YearMonthDay)
    requires IsDate(d) && SinceFirstDay(d) && d.month != 2 && d.day == DaysInMonth(d.year, d.month)
    ensures JulianDay(NextDay(d)) == JulianDay(d) + 1
  {
    hide DaysBefore, JulianDay;
    JulianDayShape(d);
    JulianDayShape(NextDay(d));
  }

  // The number splits into a century, a year of the century and a day of the year.
  lemma SplitCentury(a: nat) returns (b: nat, c: nat)
    ensures b == (4 * a + 3) / 146097 && c == a - (b * 146097) / 4
    ensures (b * 146097) / 4 == 36524 * b + b / 4
    ensures c <= 36524 && (c == 36524 ==> b % 4 == 3)
  {
    b := (4 * a + 3) / 146097;
    var k, r := b / 4, b % 4;
    assert b * 146097 == 4 * (36524 * b + k) + r;
    assert 146097 * b <= 4 * a + 3 < 146097 * b + 146097;
    c := a - (36524 * b + k);
  }

  lemma SplitYear(c: nat) returns (d: nat, e: nat)
    requires c <= 36524
    ensures d == (4 * c + 3) / 1461 && e == c - (1461 * d) / 4
    ensures (1461 * d) / 4 == 365 * d + d / 4
    ensures d <= 99 && e <= 365
    ensures e == 365 ==> d % 4 == 3 && (d == 99 ==> c == 36524)
  {
    d := (4 * c + 3) / 1461;
    var k, r := d / 4, d % 4;
    assert 1461 * d == 4 * (365 * d + k) + r;
    e := c - (365 * d + k);
  }

  lemma LongYearIsLeap(b: nat, d: nat)
    requires d <= 99 && d % 4 == 3 && (d == 99 ==> b % 4 == 3)
    ensures IsLeap(100 * b + d + 1)
  {
    assert (100 * b + d + 1) % 4 == 0;
    if d == 99 {
      assert 100 * b + d + 1 == 400 * (b / 4 + 1);
    } else {
      assert (100 * b + d + 1) % 100 == d + 1;
    }
  }

  lemma DaysBeforeSplit(b: nat, d: nat)
    requires d <= 99
    ensures DaysBefore(100 * b + d) == 36524 * b + b / 4 + 365 * d + d / 4
  {
    var y := 100 * b + d;
    assert y / 100 == b;
    assert y / 4 == 25 * b + d / 4;
    assert y / 400 == b / 4;
  }

  // The date the code gives, in terms of the split.
  lemma DateFromSplit(j: int, b: nat, d: nat, e: nat)
    requires FIRST_DAY <= j && e <= 365
    requires b == (4 * (j + 32044) + 3) / 146097
    requires var c := j + 32044 - (b * 146097) / 4;
             0 <= c && d == (4 * c + 3) / 1461 && e == c - (1461 * d) / 4
    ensures var m, y := (5 * e + 2) / 153, 100 * b + d;
            GetYearMonthDay(j) == YearMonthDay(y - 4800 + m / 10, m + 3 - 12 * (m / 10), e - (153 * m + 2) / 5 + 1)
  {
  }

  lemma DateOfYearDay(y: nat, e: nat)
    requires e <= 365 && (e == 365 ==> IsLeap(y + 1))
    ensures var m := (5 * e + 2) / 153;
            var date := YearMonthDay(y - 4800 + m / 10, m + 3 - 12 * (m / 10), e - (153 * m + 2) / 5 + 1);
            IsDate(date) && SinceFirstDay(date) && JulianDay(date) == e + 1 + DaysBefore(y) - 32045
  {
    hide DaysBefore, JulianDay, IsLeap;
    DayOfYearSplit(e);
    LeapPeriod(y + 1 - 4800);
    var m := (5 * e + 2) / 153;
    JulianDayShape(YearMonthDay(y - 4800 + m / 10, m + 3 - 12 * (m / 10), e - (153 * m + 2) / 5 + 1));
  }

  /** get_julian_day_number undoes get_year_month_day, whose result is a calendar date. */
  lemma NumberToDateToNumber(j: int)
    requires FIRST_DAY <= j
    ensures IsDate(GetYearMonthDay(j)) && SinceFirstDay(GetYearMonthDay(j))
    ensures JulianDay(GetYearMonthDay(j)) == j
  {
    hide DaysBefore, JulianDay, GetYearMonthDay, IsLeap;
    var b, c := SplitCentury(j + 32044);
    var d, e := SplitYear(c);
    DaysBeforeSplit(b, d);
    if e == 365 { LongYearIsLeap(b, d); }
    DateFromSplit(j, b, d, e);
    DateOfYearDay(100 * b + d, e);
  }

  lemma DayOfYearSplit(e: nat)
    requires e <= 365
    ensures var m := (5 * e + 2) / 153;
            && m <= 11
            && 1 <= e - (153 * m + 2) / 5 + 1
            && e - (153 * m + 2) / 5 + 1 <= (if m == 11 then (if e == 365 then 29 else 28)
                                             else if m == 1 || m == 3 || m == 6 || m == 8 then 30 else 31)
  {
  }

  lemma LaterInYear(d: YearMonthDay, e: YearMonthDay)
    requires IsDate(d) && IsDate(e) && SinceFirstDay(d) && d.year == e.year && DateBefore(d, e)
    ensures JulianDay(d) < JulianDay(e)
  {
    hide DaysBefore, JulianDay, IsLeap;
    JulianDayShape(d);
    JulianDayShape(e);
    if d.month < 3 <= e.month {
      YearLength(d.year + 4799);
      LeapPeriod(d.year);
    }
  }

  lemma {:induction false} NewYearsAscend(y: int, z: int)
    requires -4800 < y < z
    ensures JulianDay(YearMonthDay(y, 12, 31)) < JulianDay(YearMonthDay(z, 1, 1))
    decreases z - y
  {
    hide JulianDay;
    NextDayHasNextNumber(YearMonthDay(y, 12, 31));
    if y + 1 < z {
      NewYearsAscend(y + 1, z);
      LaterInYear(YearMonthDay(y + 1, 1, 1), YearMonthDay(y + 1, 12, 31));
    }
  }

  /** Later dates have larger numbers. */
  lemma NumbersAscend(d: YearMonthDay, e: YearMonthDay)
    requires IsDate(d) && IsDate(e) && SinceFirstDay(d) && DateBefore(d, e)
    ensures JulianDay(d) < JulianDay(e)
  {
    hide JulianDay;
    if d.year == e.year {
      LaterInYear(d, e);
    } else {
      var dec31, jan1 := YearMonthDay(d.year, 12, 31), YearMonthDay(e.year, 1, 1);
      if d != dec31 { LaterInYear(d, dec31); }
      if e != jan1 { LaterInYear(jan1, e); }
      if d.year == -4800 {
        NextDayHasNextNumber(dec31);
        if e.year > -4799 {
          LaterInYear(YearMonthDay(-4799, 1, 1), YearMonthDay(-4799, 12, 31));
          NewYearsAscend(-4799, e.year);
        }
      } else {
        NewYearsAscend(d.year, e.year);
      }
    }
  }

  /** get_year_month_day undoes get_julian_day_number on every calendar date. */
  lemma DateToNumberToDate(d: YearMonthDay)
    requires IsDate(d) && SinceFirstDay(d)
    ensures FIRST_DAY <= JulianDay(d)
    ensures GetYearMonthDay(JulianDay(d)) == d
  {
    var first := YearMonthDay(-4800, 3, 1);
    assert JulianDay(first) == FIRST_DAY;
    if d != first { NumbersAscend(first, d); }
    var r := GetYearMonthDay(JulianDay(d));
    NumberToDateToNumber(JulianDay(d));
    if DateBefore(d, r) { NumbersAscend(d, r); }
    if DateBefore(r, d) { NumbersAscend(r, d); }
  }

  /** No 32-bit overflow happens on the way exactly up to LAST_DAY. */
  lemma NoOverflow(j: int)
    requires FIRST_DAY <= j && IsInt32(j)
    ensures (forall i :: 0 <= i < |Intermediates(j)| ==> IsInt32(Intermediates(j)[i])) <==> j <= LAST_DAY
  {
    var b, c := SplitCentury(j + 32044);
    var d, e := SplitYear(c);
    var v := Intermediates(j);
    assert v[2] == 4 * (j + 32044) + 3;
    if j <= LAST_DAY {
      DayOfYearSplit(e);
      assert v[4] <= 4 * (j + 32044) + 3;
    } else {
      assert !IsInt32(v[2]);
    }
  }

  // The running sum of get_julian_day_number, term by term.
  function RunningSums(d: YearMonthDay): seq<int> {
    var a := TDiv(14 - d.month, 12);
    var y := d.year + 4800 - a;
    var m := d.month + 12 * a - 3;
    var s1 := d.day + TDiv(153 * m + 2, 5);
    var s2 := s1 + y * 365;
    var s3 := s2 + TDiv(y, 4);
    var s4 := s3 - TDiv(y, 100);
    var s5 := s4 + TDiv(y, 400);
    [y, m, y * 365, s1, s2, s3, s4, s5]
  }

  /** Nor does any date numbered up to LAST_DAY overflow on the way back. */
  lemma NoOverflowBack(d: YearMonthDay)
    requires IsDate(d) && SinceFirstDay(d) && JulianDay(d) <= LAST_DAY
    ensures forall i :: 0 <= i < |RunningSums(d)| ==> IsInt32(RunningSums(d)[i])
  {
    var y := d.year + if d.month < 3 then 4799 else 4800;
    assert 365 * y <= LAST_DAY + 32045;
    assert 0 <= y <= 1471000;
  }

  // ---------- UTC ----------

  const SECONDS_PER_DAY := 86400
  const JULIAN_DAY_OF_1970_01_01 := GetJulianDayNumber(1970, 1, 1)

  datatype Tm = Tm(year: int, mon: int, mday: int, hour: int, min: int, sec: int,
                   wday: int, yday: int, isDst: bool, gmtoff: int)

  function WeekDay(julianDayNumber: int): int {
    TMod(julianDayNumber + 1, 7)
  }

  // The day and the second of the day of a time, as to_utc_time splits it.
  function UtcSplit(t: int): (int, int) {
    var seconds, days := TMod(t, SECONDS_PER_DAY), TDiv(t, SECONDS_PER_DAY);
    if seconds < 0 then (days - 1, seconds + SECONDS_PER_DAY) else (days, seconds)
  }

  function UtcJulianDay(t: int): int {
    UtcSplit(t).0 + JULIAN_DAY_OF_1970_01_01
  }

  function ToUtcTime(t: int, yday: bool): Tm {
    var (days, seconds) := UtcSplit(t);
    var number := days + JULIAN_DAY_OF_1970_01_01;
    var ymd := GetYearMonthDay(number);
    Tm(ymd.year - 1900, ymd.month - 1, ymd.day,
       seconds / 60 / 60, seconds / 60 % 60, seconds % 60,
       WeekDay(number),
       if yday then number - GetJulianDayNumber(ymd.year, 1, 1) else 0,
       false, 0)
  }

  function FromUtcTime(tm: Tm): int {
    (GetJulianDayNumber(tm.year + 1900, tm.mon + 1, tm.mday) - JULIAN_DAY_OF_1970_01_01) * SECONDS_PER_DAY
    + tm.hour * 3600 + tm.min * 60 + tm.sec
  }

  // The times whose day the 32-bit calendar code handles.
  predicate InUtcRange(t: int) {
    FIRST_DAY <= UtcJulianDay(t) <= LAST_DAY
  }

  function TmDate(tm: Tm): YearMonthDay {
    YearMonthDay(tm.year + 1900, tm.mon + 1, tm.mday)
  }

  predicate IsClock(tm: Tm) {
    0 <= tm.hour <= 23 && 0 <= tm.min <= 59 && 0 <= tm.sec <= 59
  }

  predicate ClockBefore(x: Tm, y: Tm) {
    x.hour < y.hour || (x.hour == y.hour && (x.min < y.min || (x.min == y.min && x.sec < y.sec)))
  }

  predicate TmBefore(x: Tm, y: Tm) {
    DateBefore(TmDate(x), TmDate(y)) || (TmDate(x) == TmDate(y) && ClockBefore(x, y))
  }

  // Days from 1 January to the first of the month, counted month by month.
  function DaysBeforeMonth(year: int, month: int): int
    requires 1 <= month <= 12
  {
    if month == 1 then 0 else DaysBeforeMonth(year, month - 1) + DaysInMonth(year, month - 1)
  }

  lemma UtcSplitIsFloor(t: int)
    ensures UtcSplit(t) == (t / SECONDS_PER_DAY, t % SECONDS_PER_DAY)
  {
    var q, r := t / SECONDS_PER_DAY, t % SECONDS_PER_DAY;
    assert t == q * SECONDS_PER_DAY + r;
    if t < 0 && r != 0 {
      assert (-t) / SECONDS_PER_DAY == -q - 1;
    } else if t < 0 {
      assert (-t) / SECONDS_PER_DAY == -q;
    }
  }

  lemma ClockOf(t: int, yday: bool)
    ensures var tm := ToUtcTime(t, yday);
            IsClock(tm) && tm.hour * 3600 + tm.min * 60 + tm.sec == UtcSplit(t).1
  {
    UtcSplitIsFloor(t);
    var s := UtcSplit(t).1;
    var tm := ToUtcTime(t, yday);
    hide UtcSplit, GetYearMonthDay, WeekDay, GetJulianDayNumber;
    assert tm.hour == s / 60 / 60 && tm.min == s / 60 % 60 && tm.sec == s % 60;
  }

  lemma DateOf(t: int, yday: bool)
    requires FIRST_DAY <= UtcJulianDay(t)
    ensures var d := TmDate(ToUtcTime(t, yday));
            IsDate(d) && SinceFirstDay(d) && JulianDay(d) == UtcJulianDay(t) && d == GetYearMonthDay(UtcJulianDay(t))
  {
    hide GetYearMonthDay, JulianDay, IsDate, SinceFirstDay, WeekDay;
    NumberToDateToNumber(UtcJulianDay(t));
  }

  /** from_utc_time undoes to_utc_time, for times before 1970 too. */
  lemma UtcRoundTrip(t: int, yday: bool)
    requires InUtcRange(t)
    ensures FromUtcTime(ToUtcTime(t, yday)) == t
  {
    hide ToUtcTime, GetYearMonthDay, GetJulianDayNumber, UtcSplit;
    DateOf(t, yday);
    ClockOf(t, yday);
    UtcSplitIsFloor(t);
  }

  lemma SplitOfFields(tm: Tm)
    requires IsClock(tm)
    ensures UtcSplit(FromUtcTime(tm)).1 == tm.hour * 3600 + tm.min * 60 + tm.sec
    ensures UtcJulianDay(FromUtcTime(tm)) == JulianDay(TmDate(tm))
  {
    hide GetJulianDayNumber, UtcSplit;
    UtcSplitIsFloor(FromUtcTime(tm));
    DayAndRest(JulianDay(TmDate(tm)) - JULIAN_DAY_OF_1970_01_01, tm.hour * 3600 + tm.min * 60 + tm.sec);
  }

  lemma DayAndRest(day: int, rest: int)
    requires 0 <= rest < SECONDS_PER_DAY
    ensures (day * SECONDS_PER_DAY + rest) / SECONDS_PER_DAY == day
    ensures (day * SECONDS_PER_DAY + rest) % SECONDS_PER_DAY == rest
  {
  }

  lemma ClockReadingIsUnique(x: Tm, y: Tm)
    requires IsClock(x) && IsClock(y)
    requires x.hour * 3600 + x.min * 60 + x.sec == y.hour * 3600 + y.min * 60 + y.sec
    ensures x.hour == y.hour && x.min == y.min && x.sec == y.sec
  {
  }

  /** to_utc_time undoes from_utc_time on every date and clock reading. */
  lemma UtcRoundTripBack(tm: Tm)
    requires IsClock(tm) && IsDate(TmDate(tm)) && SinceFirstDay(TmDate(tm))
    ensures var back := ToUtcTime(FromUtcTime(tm), false);
            && TmDate(back) == TmDate(tm)
            && back.hour == tm.hour && back.min == tm.min && back.sec == tm.sec
  {
    hide *;
    var t := FromUtcTime(tm);
    DateToNumberToDate(TmDate(tm));
    SplitOfFields(tm);
    DateOf(t, false);
    ClockOf(t, false);
    ClockReadingIsUnique(tm, ToUtcTime(t, false));
  }

  /** A later time has lexicographically later fields. */
  lemma UtcAscends(t: int, u: int)
    requires InUtcRange(t) && InUtcRange(u) && t < u
    ensures TmBefore(ToUtcTime(t, false), ToUtcTime(u, false))
  {
    hide ToUtcTime, GetYearMonthDay, JulianDay, UtcSplit;
    DateOf(t, false);
    ClockOf(t, false);
    DateOf(u, false);
    ClockOf(u, false);
    UtcSplitIsFloor(t);
    UtcSplitIsFloor(u);
    var x, y := TmDate(ToUtcTime(t, false)), TmDate(ToUtcTime(u, false));
    if DateBefore(y, x) { NumbersAscend(y, x); }
  }

  lemma DayOfMonth(d: YearMonthDay)
    ensures JulianDay(d) == JulianDay(d.(day := 1)) + d.day - 1
  {
  }

  lemma {:induction false} MonthStart(year: int, month: int)
    requires year > -4800 && 1 <= month <= 12
    ensures JulianDay(YearMonthDay(year, month, 1)) == JulianDay(YearMonthDay(year, 1, 1)) + DaysBeforeMonth(year, month)
  {
    hide JulianDay, IsLeap;
    if month > 1 {
      MonthStart(year, month - 1);
      var last := YearMonthDay(year, month - 1, DaysInMonth(year, month - 1));
      NextDayHasNextNumber(last);
      DayOfMonth(last);
    }
  }

  // Before year 0 of the March calendar the truncating divisions lose a day.
  lemma FirstJanuaryIsLate()
    ensures GetJulianDayNumber(-4800, 1, 1) == GetJulianDayNumber(-4800, 3, 1) - 59
    ensures IsLeap(-4800)
  {
  }

  /** tm_yday counts the days since 1 January in every year but -4800, the first in range,
      whose 1 January precedes the first day the Julian day formula gets right. */
  lemma YearDayCounts(t: int)
    requires InUtcRange(t)
    ensures var tm := ToUtcTime(t, true);
            var d := TmDate(tm);
            && tm.year + 1900 >= -4800
            && IsDate(d)
            && (tm.yday == DaysBeforeMonth(d.year, d.month) + d.day - 1 <==> d.year > -4800)
    ensures ToUtcTime(t, false) == ToUtcTime(t, true).(yday := 0)
  {
    var tm := ToUtcTime(t, true);
    assert ToUtcTime(t, false) == tm.(yday := 0);
    var d := TmDate(tm);
    assert tm.yday == UtcJulianDay(t) - JulianDay(YearMonthDay(d.year, 1, 1));
    hide ToUtcTime, GetYearMonthDay, UtcSplit;
    DateOf(t, true);
    DayOfMonth(d);
    if d.year > -4800 {
      MonthStart(d.year, d.month);
    } else {
      FirstJanuaryIsLate();
      FirstYearMonths(d.month);
    }
  }

  lemma {:induction false} FirstYearMonths(month: int)
    requires 3 <= month <= 12
    ensures JulianDay(YearMonthDay(-4800, month, 1)) == FIRST_DAY - 60 + DaysBeforeMonth(-4800, month)
  {
    if month == 3 {
      assert JulianDay(YearMonthDay(-4800, 3, 1)) == FIRST_DAY;
      assert DaysBeforeMonth(-4800, 2) == 31;
    } else {
      hide JulianDay, IsLeap;
      FirstYearMonths(month - 1);
      var last := YearMonthDay(-4800, month - 1, DaysInMonth(-4800, month - 1));
      NextDayHasNextNumber(last);
      DayOfMonth(last);
    }
  }

  lemma WeekDayOfNumber(j: int)
    ensures 0 <= WeekDay(j) <= 6 <==> j >= -1 || (j + 1) % 7 == 0
    ensures j >= -1 ==> WeekDay(j + 1) == (WeekDay(j) + 1) % 7
  {
    if j >= -1 {
      assert WeekDay(j) == (j + 1) % 7;
    } else {
      var q, r := (-(j + 1)) / 7, (-(j + 1)) % 7;
      assert j + 1 == 7 * (-q) - r;
      assert (j + 1) % 7 == if r == 0 then 0 else 7 - r;
    }
  }

  /** tm_wday is a weekday that moves on by one each day, exactly from Julian day -1 on
      (or, before it, on the days when the remainder happens to vanish). */
  lemma WeekDayCycles(t: int)
    requires InUtcRange(t)
    ensures var w := ToUtcTime(t, false).wday;
            0 <= w <= 6 <==> UtcJulianDay(t) >= -1 || (UtcJulianDay(t) + 1) % 7 == 0
    ensures UtcJulianDay(t) >= -1 ==>
              ToUtcTime(t + SECONDS_PER_DAY, false).wday == (ToUtcTime(t, false).wday + 1) % 7
  {
    hide UtcSplit, GetYearMonthDay, WeekDay, GetJulianDayNumber;
    UtcSplitIsFloor(t);
    UtcSplitIsFloor(t + SECONDS_PER_DAY);
    WeekDayOfNumber(UtcJulianDay(t));
  }

  lemma EpochNumber()
    ensures GetJulianDayNumber(1970, 1, 1) == 2440588
  {
  }

  lemma EpochDay()
    ensures UtcSplit(0) == (0, 0) && WeekDay(2440588) == 4
  {
  }

  /** Time 0 is Thursday, 1 January 1970, midnight. */
  lemma Epoch()
    ensures JULIAN_DAY_OF_1970_01_01 == 2440588
    ensures ToUtcTime(0, true) == Tm(70, 0, 1, 0, 0, 0, 4, 0, false, 0)
  {
    hide GetJulianDayNumber, GetYearMonthDay, UtcSplit, WeekDay;
    EpochNumber();
    EpochDay();
    DateToNumberToDate(YearMonthDay(1970, 1, 1));
  }
}
