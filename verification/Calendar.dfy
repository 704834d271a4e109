/** Gregorian dates as Julian day numbers, and UTC break-down of seconds since the epoch. */
module Calendar {

  datatype YearMonthDay = YearMonthDay(year: int, month: int, day: int)

  datatype Tm = Tm(year: int, mon: int, mday: int, hour: int, min: int, sec: int, wday: int, yday: int)

  const KJULIAN_DAY_OF_1970_01_01 := 2440588
  const KSECONDS_PER_DAY := 86400
  const INT_MAX := 0x7fff_ffff

  /** C++ division: the quotient is truncated toward zero. */
  function CDiv(a: int, b: int): int
    requires b > 0
  {
    if a >= 0 then a / b else -((-a) / b)
  }

  /** C++ remainder: it takes the sign of the dividend. */
  function CMod(a: int, b: int): int
    requires b > 0
  {
    a - b * CDiv(a, b)
  }

  function GetJulianDayNumber(year: int, month: int, day: int): int {
    var a := CDiv(14 - month, 12);
    var y := year + 4800 - a;
    var m := month + 12 * a - 3;
    day + CDiv(153 * m + 2, 5) + y * 365 + CDiv(y, 4) - CDiv(y, 100) + CDiv(y, 400) - 32045
  }

  /** The values on the way from a day number to a date. */
  datatype Parts = Parts(b: int, c: int, d: int, e: int, m: int)

  function PartsOf(a: int): Parts {
    var b := CDiv(4 * a + 3, 146097);
    var c := a - CDiv(b * 146097, 4);
    var d := CDiv(4 * c + 3, 1461);
    var e := c - CDiv(1461 * d, 4);
    var m := CDiv(5 * e + 2, 153);
    Parts(b, c, d, e, m)
  }

  function GetYearMonthDay(julianDayNumber: int): YearMonthDay {
    var p := PartsOf(julianDayNumber + 32044);
    YearMonthDay(p.b * 100 + p.d - 4800 + CDiv(p.m, 10), p.m + 3 - 12 * CDiv(p.m, 10),
                 p.e - CDiv(153 * p.m + 2, 5) + 1)
  }

  function DayNumber(v: YearMonthDay): int {
    GetJulianDayNumber(v.year, v.month, v.day)
  }

  function WeekDay(julianDayNumber: int): int {
    CMod(julianDayNumber + 1, 7)
  }

  // ---- The calendar itself, stated without the conversion formulas ----

  predicate LeapYear(y: int) {
    y % 4 == 0 && (y % 100 != 0 || y % 400 == 0)
  }

  function DaysInMonth(y: int, m: int): int {
    if m == 2 then (if LeapYear(y) then 29 else 28)
    else if m in {4, 6, 9, 11} then 30
    else 31
  }

  predicate ValidDate(v: YearMonthDay) {
    1 <= v.month <= 12 && 1 <= v.day <= DaysInMonth(v.year, v.month)
  }

  /** From 1 March 4801 BC on (year -4800), where day number -32044 falls. */
  predicate InRange(v: YearMonthDay) {
    v.year > -4800 || (v.year == -4800 && v.month >= 3)
  }

  function NextDay(v: YearMonthDay): YearMonthDay {
    if v.day < DaysInMonth(v.year, v.month) then v.(day := v.day + 1)
    else if v.month < 12 then YearMonthDay(v.year, v.month + 1, 1)
    else YearMonthDay(v.year + 1, 1, 1)
  }

  // ---- The conversions in terms of years that start in March ----

  /** Days from 1 March of year -4800 to 1 March y years later. */
  function MarchYearStart(y: nat): int {
    365 * y + y / 4 - y / 100 + y / 400
  }

  /** Days from 1 March to the first of the m-th month after it. */
  function MonthStart(m: nat): int {
    (153 * m + 2) / 5
  }

  function MarchYear(v: YearMonthDay): int {
    v.year + 4800 - (if v.month <= 2 then 1 else 0)
  }

  function MarchMonth(v: YearMonthDay): int {
    if v.month <= 2 then v.month + 9 else v.month - 3
  }

  lemma DayNumberFromMarch(v: YearMonthDay)
    requires 1 <= v.month <= 12 && InRange(v)
    ensures MarchYear(v) >= 0 && 0 <= MarchMonth(v) <= 11
    ensures DayNumber(v) == MarchDay(v) - 32044
  {
  }

  lemma NextMarchYear(y: nat)
    ensures MarchYearStart(y + 1) - MarchYearStart(y) == if LeapYear(y + 1 - 4800) then 366 else 365
  {
    assert (y + 1 - 4800) % 4 == (y + 1) % 4;
    assert (y + 1 - 4800) % 100 == (y + 1) % 100;
    assert (y + 1 - 4800) % 400 == (y + 1) % 400;
    StepDiv(y, 4);
    StepDiv(y, 100);
    StepDiv(y, 400);
    HundredDividesFourHundred(y + 1);
  }

  lemma StepDiv(y: nat, k: nat)
    requires k in {4, 100, 400}
    ensures (y + 1) / k - y / k == if (y + 1) % k == 0 then 1 else 0
  {
  }

  lemma HundredDividesFourHundred(y: nat)
    ensures y % 100 == 0 ==> y % 4 == 0
    ensures y % 400 == 0 ==> y % 100 == 0
  {
    if y % 100 == 0 {
      assert y == 4 * (25 * (y / 100));
    }
    if y % 400 == 0 {
      assert y == 100 * (4 * (y / 400));
    }
  }

  lemma MarchYearsOrdered(y: nat, z: nat)
    requires y <= z
    ensures MarchYearStart(y) <= MarchYearStart(z)
    decreases z - y
  {
    if y < z {
      NextMarchYear(y);
      MarchYearsOrdered(y + 1, z);
    }
  }

  /** A valid date lies inside its month, and the month inside its March year. */
  lemma DayOfMarchYear(v: YearMonthDay)
    requires ValidDate(v) && InRange(v)
    ensures var m := MarchMonth(v);
            && MonthStart(m) <= v.day - 1 + MonthStart(m)
            && (m < 11 ==> v.day - 1 < MonthStart(m + 1) - MonthStart(m))
            && v.day - 1 + MonthStart(m) < MarchYearStart(MarchYear(v) + 1) - MarchYearStart(MarchYear(v))
  {
    NextMarchYear(MarchYear(v));
  }

  /** Days since 1 March of year -4800. */
  function MarchDay(v: YearMonthDay): int
    requires MarchYear(v) >= 0 && MarchMonth(v) >= 0
  {
    v.day - 1 + MonthStart(MarchMonth(v)) + MarchYearStart(MarchYear(v))
  }

  lemma MonthLength(v: YearMonthDay)
    requires ValidDate(v) && InRange(v)
    ensures MarchMonth(v) < 11 ==>
              MonthStart(MarchMonth(v) + 1) - MonthStart(MarchMonth(v)) == DaysInMonth(v.year, v.month)
    ensures MarchMonth(v) == 11 ==>
              MarchYearStart(MarchYear(v) + 1) - MarchYearStart(MarchYear(v)) - MonthStart(11)
              == DaysInMonth(v.year, v.month)
  {
    if MarchMonth(v) == 11 {
      NextMarchYear(MarchYear(v));
    }
  }

  lemma NextMarchDay(v: YearMonthDay)
    requires ValidDate(v) && InRange(v)
    ensures MarchYear(NextDay(v)) >= 0 && MarchMonth(NextDay(v)) >= 0
    ensures MarchDay(NextDay(v)) == MarchDay(v) + 1
  {
    MonthLength(v);
    if v.day == DaysInMonth(v.year, v.month) {
      if MarchMonth(v) == 11 {
        assert MarchYear(NextDay(v)) == MarchYear(v) + 1;
      } else {
        assert MarchYear(NextDay(v)) == MarchYear(v);
      }
    }
  }

  // ---- Main results ----

  /** Consecutive calendar days have consecutive day numbers. */
  lemma NextDayNumber(v: YearMonthDay)
    requires ValidDate(v) && InRange(v)
    ensures ValidDate(NextDay(v)) && InRange(NextDay(v))
    ensures DayNumber(NextDay(v)) == DayNumber(v) + 1
  {
    DayNumberFromMarch(v);
    DayNumberFromMarch(NextDay(v));
    NextMarchDay(v);
  }

  /** No two valid dates share a day number. */
  lemma DayNumberInjective(v: YearMonthDay, w: YearMonthDay)
    requires ValidDate(v) && InRange(v) && ValidDate(w) && InRange(w)
    ensures DayNumber(v) == DayNumber(w) ==> v == w
  {
    DayNumberFromMarch(v);
    DayNumberFromMarch(w);
    DayOfMarchYear(v);
    DayOfMarchYear(w);
    LaterYear(v, w);
    LaterYear(w, v);
    if DayNumber(v) == DayNumber(w) {
      assert MarchMonth(v) == MarchMonth(w);
    }
  }

  lemma LaterYear(v: YearMonthDay, w: YearMonthDay)
    requires ValidDate(v) && InRange(v) && ValidDate(w) && InRange(w)
    ensures MarchYear(v) < MarchYear(w) ==> DayNumber(v) < DayNumber(w)
  {
    DayNumberFromMarch(v);
    DayNumberFromMarch(w);
    DayOfMarchYear(v);
    DayOfMarchYear(w);
    if MarchYear(v) < MarchYear(w) {
      MarchYearsOrdered(MarchYear(v) + 1, MarchYear(w));
    }
  }

  /** What the values on the way back are, from day -32044 on. */
  lemma Decomposition(a: nat) returns (p: Parts)
    ensures p == PartsOf(a) && 0 <= p.b && 0 <= p.c <= 36524 && 0 <= p.d <= 99 && 0 <= p.e <= 365 && 0 <= p.m <= 11
    ensures MonthStart(p.m) <= p.e && (p.m < 11 ==> p.e < MonthStart(p.m + 1))
    ensures p.b * 146097 <= 4 * a + 3 && a == 36524 * p.b + p.b / 4 + 365 * p.d + p.d / 4 + p.e
    ensures p.e == 365 ==> p.d % 4 == 3 && (p.d == 99 ==> p.b % 4 == 3)
  {
    p := PartsOf(a);
    var b := (4 * a + 3) / 146097;
    assert b * 146097 / 4 == 36524 * b + b / 4;
    var c := a - b * 146097 / 4;
    YearOfCentury(b, c);
  }

  lemma YearOfCentury(b: nat, c: nat)
    requires c <= 36524 && (c == 36524 ==> b % 4 == 3)
    ensures var d := (4 * c + 3) / 1461;
            var e := c - 1461 * d / 4;
            var m := (5 * e + 2) / 153;
            && d <= 99 && 0 <= e <= 365 && m <= 11 && c == 365 * d + d / 4 + e
            && MonthStart(m) <= e && (m < 11 ==> e < MonthStart(m + 1))
            && (e == 365 ==> d % 4 == 3 && (d == 99 ==> b % 4 == 3))
  {
    var d := (4 * c + 3) / 1461;
    assert 1461 * d / 4 == 365 * d + d / 4;
  }

  lemma CenturySplit(b: nat, d: nat)
    requires d <= 99
    ensures MarchYearStart(100 * b + d) == 36524 * b + b / 4 + 365 * d + d / 4
  {
    assert (100 * b + d) / 100 == b;
    assert (100 * b + d) / 400 == b / 4;
    assert (100 * b + d) / 4 == 25 * b + d / 4;
  }

  /** A day of a March year, by its month and the day's place in that year. */
  function MarchDate(y: nat, e: nat, m: nat): YearMonthDay
    requires m <= 11
  {
    var year: int := y;
    YearMonthDay(year - 4800 + m / 10, m + 3 - 12 * (m / 10), e - MonthStart(m) + 1)
  }

  lemma MarchParts(y: nat, e: nat, m: nat)
    requires m <= 11
    ensures var v := MarchDate(y, e, m);
            1 <= v.month <= 12 && InRange(v) && DayNumber(v) == MarchYearStart(y) + e - 32044
  {
    DayNumberFromMarch(MarchDate(y, e, m));
  }

  /** The day number of the date of j is j, and that date is a real calendar date. */
  lemma DateOfDayNumber(j: int)
    requires j >= -32044
    ensures ValidDate(GetYearMonthDay(j)) && InRange(GetYearMonthDay(j))
    ensures DayNumber(GetYearMonthDay(j)) == j
  {
    var p := Decomposition(j + 32044);
    var y := 100 * p.b + p.d;
    assert GetYearMonthDay(j) == MarchDate(y, p.e, p.m);
    MarchParts(y, p.e, p.m);
    CenturySplit(p.b, p.d);
    LastDayOfMonth(p.b, p.d, p.e, p.m);
  }

  lemma LastDayOfMonth(b: nat, d: nat, e: nat, m: nat)
    requires d <= 99 && e <= 365 && m <= 11 && MonthStart(m) <= e && (m < 11 ==> e < MonthStart(m + 1))
    requires e == 365 ==> d % 4 == 3 && (d == 99 ==> b % 4 == 3)
    ensures ValidDate(MarchDate(100 * b + d, e, m))
  {
    if m == 11 && e == 365 {
      LeapAfter(b, d);
    }
  }

  /** A March year of 366 days ends in a leap year. */
  lemma LeapAfter(b: nat, d: nat)
    requires d <= 99 && d % 4 == 3 && (d == 99 ==> b % 4 == 3)
    ensures LeapYear(100 * b + d + 1 - 4800)
  {
    var q: int := d / 4;
    assert d == 4 * q + 3;
    assert 100 * b + d + 1 - 4800 == 4 * (25 * b + q - 1199);
    if d == 99 {
      var c: int := b / 4;
      assert b == 4 * c + 3;
      assert 100 * b + d + 1 - 4800 == 400 * (c - 11);
    } else {
      NotACentury(b - 48, d + 1);
    }
  }

  lemma NotACentury(x: int, r: nat)
    requires 0 < r < 100
    ensures (100 * x + r) % 100 != 0
  {
  }

  /** The date of the day number of a valid date is that date. */
  lemma DayNumberOfDate(v: YearMonthDay)
    requires ValidDate(v) && InRange(v)
    ensures DayNumber(v) >= -32044
    ensures GetYearMonthDay(DayNumber(v)) == v
  {
    DayNumberFromMarch(v);
    MarchYearsOrdered(0, MarchYear(v));
    DateOfDayNumber(DayNumber(v));
    DayNumberInjective(GetYearMonthDay(DayNumber(v)), v);
  }

  /** Consecutive day numbers are consecutive calendar days. */
  lemma NextDate(j: int)
    requires j >= -32044
    ensures GetYearMonthDay(j + 1) == NextDay(GetYearMonthDay(j))
  {
    DateOfDayNumber(j);
    Successor(j, GetYearMonthDay(j));
  }

  lemma Successor(j: int, v: YearMonthDay)
    requires ValidDate(v) && InRange(v) && DayNumber(v) == j
    ensures GetYearMonthDay(j + 1) == NextDay(v)
  {
    NextDayNumber(v);
    DayNumberOfDate(NextDay(v));
  }

  /** Below -32044 truncation makes every result an impossible date, so the range above is exact. */
  lemma ValidExactlyFromDay32044(j: int)
    ensures ValidDate(GetYearMonthDay(j)) <==> j >= -32044
  {
    if j >= -32044 {
      DateOfDayNumber(j);
    } else {
      var a := j + 32044;
      var b := CDiv(4 * a + 3, 146097);
      var c := a - CDiv(b * 146097, 4);
      assert c < 0;
      var d := CDiv(4 * c + 3, 1461);
      var e := c - CDiv(1461 * d, 4);
      assert e < 0;
      var m := CDiv(5 * e + 2, 153);
      assert CDiv(153 * m + 2, 5) > e;
    }
  }

  predicate Int32(x: int) {
    -INT_MAX - 1 <= x <= INT_MAX
  }

  /** No int that the conversion of a day number computes overflows, nor any that puts its date back: every product,
      quotient, sum and difference. */
  predicate NoOverflow(j: int) {
    FirstFits(j + 32044) && ThereFits(PartsOf(j + 32044)) && BackFits(GetYearMonthDay(j))
  }

  predicate FirstFits(a: int) {
    Int32(a) && Int32(4 * a) && Int32(4 * a + 3)
  }

  predicate ThereFits(p: Parts) {
    CenturiesFit(p) && PartsFit(p)
  }

  predicate BackFits(v: YearMonthDay) {
    && Int32(v.year) && Int32(v.month) && Int32(v.day)
    && MonthsFit(v.month) && YearsFit(v.year, CDiv(14 - v.month, 12), v.day + CDiv(153 * MonthIndex(v.month) + 2, 5))
  }

  predicate CenturiesFit(p: Parts) {
    && Int32(p.b) && Int32(p.b * 146097) && Int32(CDiv(p.b * 146097, 4))
    && Int32(p.b * 100) && Int32(p.b * 100 + p.d) && Int32(p.b * 100 + p.d - 4800)
  }

  predicate PartsFit(p: Parts) {
    && Int32(p.c) && Int32(4 * p.c) && Int32(4 * p.c + 3)
    && Int32(p.d) && Int32(1461 * p.d) && Int32(CDiv(1461 * p.d, 4))
    && Int32(p.e) && Int32(5 * p.e) && Int32(5 * p.e + 2)
    && Int32(p.m) && Int32(153 * p.m) && Int32(153 * p.m + 2) && Int32(CDiv(153 * p.m + 2, 5))
    && Int32(p.e - CDiv(153 * p.m + 2, 5)) && Int32(p.m + 3) && Int32(CDiv(p.m, 10)) && Int32(12 * CDiv(p.m, 10))
  }

  /** The month counted from March. */
  function MonthIndex(month: int): int {
    month + 12 * CDiv(14 - month, 12) - 3
  }

  predicate MonthsFit(month: int) {
    var a, m := CDiv(14 - month, 12), MonthIndex(month);
    && Int32(14 - month) && Int32(a) && Int32(12 * a) && Int32(month + 12 * a) && Int32(m)
    && Int32(153 * m) && Int32(153 * m + 2) && Int32(CDiv(153 * m + 2, 5))
  }

  predicate YearsFit(year: int, a: int, days: int) {
    var y := year + 4800 - a;
    && Int32(year + 4800) && Int32(y) && Int32(days) && Int32(y * 365) && Int32(days + y * 365)
    && Int32(CDiv(y, 4)) && Int32(days + y * 365 + CDiv(y, 4))
    && Int32(CDiv(y, 100)) && Int32(days + y * 365 + CDiv(y, 4) - CDiv(y, 100))
    && Int32(CDiv(y, 400)) && Int32(days + y * 365 + CDiv(y, 4) - CDiv(y, 100) + CDiv(y, 400))
    && Int32(days + y * 365 + CDiv(y, 4) - CDiv(y, 100) + CDiv(y, 400) - 32045)
  }

  /** The first product is the one that overflows: 4 * a + 3 reaches a limit before any later value does. */
  lemma NoOverflowExactly(j: int)
    ensures NoOverflow(j) <==> -536902956 <= j <= 536838867
  {
    if -536902956 <= j <= 536838867 {
      PartsDoFit(j + 32044);
      DateBounded(j);
      DateDoesFit(GetYearMonthDay(j));
    }
  }

  lemma PartsDoFit(a: int)
    requires -536870912 <= a <= 536870911
    ensures ThereFits(PartsOf(a))
  {
    PartsBounded(a);
    CenturiesBounded(PartsOf(a));
    LaterPartsFit(PartsOf(a));
  }

  lemma DateDoesFit(v: YearMonthDay)
    requires -2000000 <= v.year <= 2000000 && -100 <= v.month <= 100 && -1000 <= v.day <= 1000
    ensures BackFits(v)
  {
    LaterMonthsFit(v.month);
    LaterYearsFit(v.year, CDiv(14 - v.month, 12), v.day + CDiv(153 * MonthIndex(v.month) + 2, 5));
  }

  lemma CenturiesBounded(p: Parts)
    requires -2147483648 <= p.b * 146097 <= 2147483647 && -100 <= p.d <= 99
    ensures CenturiesFit(p) && -14700 <= p.b <= 14700
  {
  }

  lemma LaterPartsFit(p: Parts)
    requires -36525 <= p.c <= 36524 && -100 <= p.d <= 99 && -366 <= p.e <= 365 && -12 <= p.m <= 11
    ensures PartsFit(p) && -2 <= CDiv(p.m, 10) <= 2 && -400 <= CDiv(153 * p.m + 2, 5) <= 400
  {
  }

  lemma DateBounded(j: int)
    requires -536902956 <= j <= 536838867
    ensures var v := GetYearMonthDay(j);
            -2000000 <= v.year <= 2000000 && -100 <= v.month <= 100 && -1000 <= v.day <= 1000
  {
    PartsBounded(j + 32044);
    CenturiesBounded(PartsOf(j + 32044));
    LaterPartsFit(PartsOf(j + 32044));
  }

  lemma LaterMonthsFit(month: int)
    requires -100 <= month <= 100
    ensures MonthsFit(month) && -8 <= CDiv(14 - month, 12) <= 10
    ensures -20000 <= CDiv(153 * MonthIndex(month) + 2, 5) <= 20000
  {
  }

  lemma LaterYearsFit(year: int, a: int, days: int)
    requires -2000000 <= year <= 2000000 && -8 <= a <= 10 && -21000 <= days <= 21000
    ensures YearsFit(year, a, days)
  {
    QuotientBounded(year + 4800 - a);
  }

  lemma QuotientBounded(y: int)
    ensures if y >= 0 then 0 <= CDiv(y, 4) <= y && 0 <= CDiv(y, 100) <= y && 0 <= CDiv(y, 400) <= y
            else y <= CDiv(y, 4) <= 0 && y <= CDiv(y, 100) <= 0 && y <= CDiv(y, 400) <= 0
  {
  }

  lemma PartsBounded(a: int)
    ensures var p := PartsOf(a);
            && -36525 <= p.c <= 36524 && -100 <= p.d <= 99 && -366 <= p.e <= 365 && -12 <= p.m <= 11
            && (if a >= 0 then 0 <= p.b * 146097 <= 4 * a + 3 else 4 * a + 3 <= p.b * 146097 <= 0)
            && 0 <= GetYearMonthDay(a - 32044).year + 4800 - p.b * 100 - p.d + 1 <= 2
  {
    if a >= 0 {
      var p := Decomposition(a);
    } else {
      var p := PartsOf(a);
      assert CDiv(p.b * 146097, 4) == -((-p.b * 146097) / 4);
    }
  }

  lemma RemainderBySeven(x: int)
    ensures x >= 0 ==> CMod(x, 7) == x % 7
    ensures x < 0 ==> -6 <= CMod(x, 7) <= 0 && (CMod(x, 7) == 0 <==> x % 7 == 0)
  {
    if x < 0 {
      var q := -x / 7;
      assert CMod(x, 7) == x + 7 * q;
    }
  }

  /** The weekday is a remainder of a possibly negative number. */
  lemma WeekDayCycles(j: int)
    ensures 0 <= WeekDay(j) <= 6 <==> j >= -1 || (j + 1) % 7 == 0
    ensures j >= -1 ==> WeekDay(j + 1) == (WeekDay(j) + 1) % 7
  {
    RemainderBySeven(j + 1);
    RemainderBySeven(j + 2);
  }

  /** The epoch was a Thursday. */
  lemma EpochIsThursday()
    ensures GetJulianDayNumber(1970, 1, 1) == KJULIAN_DAY_OF_1970_01_01
    ensures WeekDay(KJULIAN_DAY_OF_1970_01_01) == 4
  {
    RemainderBySeven(KJULIAN_DAY_OF_1970_01_01 + 1);
  }

  // ---- UTC ----

  method FillHms(seconds: nat) returns (hour: int, min: int, sec: int)
    requires seconds < KSECONDS_PER_DAY
    ensures 0 <= hour < 24 && 0 <= min < 60 && 0 <= sec < 60
    ensures hour * 3600 + min * 60 + sec == seconds
  {
    sec := seconds % 60;
    var minutes := seconds / 60;
    min := minutes % 60;
    hour := minutes / 60;
  }

  function FromUtcTime(utc: Tm): int {
    var days := GetJulianDayNumber(utc.year + 1900, utc.mon + 1, utc.mday) - KJULIAN_DAY_OF_1970_01_01;
    days * KSECONDS_PER_DAY + (utc.hour * 3600 + utc.min * 60 + utc.sec)
  }

  /** Days since the epoch, rounded down also before it. */
  function UtcDay(t: int): int {
    t / KSECONDS_PER_DAY
  }

  function UtcDayNumber(t: int): int {
    UtcDay(t) + KJULIAN_DAY_OF_1970_01_01
  }

  function DateOf(utc: Tm): YearMonthDay {
    YearMonthDay(utc.year + 1900, utc.mon + 1, utc.mday)
  }

  /** The date is a real one and the time of day is in range. */
  predicate UtcFields(utc: Tm) {
    && 0 <= utc.hour < 24 && 0 <= utc.min < 60 && 0 <= utc.sec < 60
    && ValidDate(DateOf(utc))
  }

  /** A date is real exactly when the day is in range, and is then the date of that day. */
  predicate Dates(v: YearMonthDay, j: int) {
    && (ValidDate(v) <==> j >= -32044)
    && (j >= -32044 ==> InRange(v) && DayNumber(v) == j)
  }

  method DateFor(j: int) returns (v: YearMonthDay)
    ensures Dates(v, j)
  {
    v := GetYearMonthDay(j);
    ValidExactlyFromDay32044(j);
    if j >= -32044 {
      DateOfDayNumber(j);
    }
  }

  /** Breaks a time down. Date and time of day are in range exactly when the day is in the range of the
      date conversion, negative times included, and there converting back gives the time. There the day of
      the year is in range too, and counts the days before the date exactly after year -4800. */
  method ToUtcTime(secondsSinceEpoch: int, yday: bool) returns (utc: Tm)
    ensures UtcFields(utc) <==> UtcDayNumber(secondsSinceEpoch) >= -32044
    ensures UtcFields(utc) ==> FromUtcTime(utc) == secondsSinceEpoch
    ensures UtcFields(utc) ==> 0 <= utc.yday <= if LeapYear(utc.year + 1900) then 365 else 364
    ensures UtcFields(utc) && yday ==> (utc.yday == OrdinalDay(DateOf(utc)) <==> utc.year + 1900 > -4800)
    ensures !yday ==> utc.yday == 0
    ensures utc.wday == WeekDay(UtcDayNumber(secondsSinceEpoch))
    ensures 0 <= utc.wday <= 6 <==>
              UtcDayNumber(secondsSinceEpoch) >= -1 || (UtcDayNumber(secondsSinceEpoch) + 1) % 7 == 0
  {
    var seconds := CMod(secondsSinceEpoch, KSECONDS_PER_DAY);
    var days := CDiv(secondsSinceEpoch, KSECONDS_PER_DAY);
    if seconds < 0 {
      seconds := seconds + KSECONDS_PER_DAY;
      days := days - 1;
    }
    assert days == UtcDay(secondsSinceEpoch) && seconds == secondsSinceEpoch % KSECONDS_PER_DAY by {
      FloorFromTruncation(secondsSinceEpoch);
    }
    var hour, min, sec := FillHms(seconds);
    var date := days + KJULIAN_DAY_OF_1970_01_01;
    var ymd := DateFor(date);
    utc := Tm(ymd.year - 1900, ymd.month - 1, ymd.day, hour, min, sec, WeekDay(date), 0);
    if yday {
      utc := utc.(yday := date - GetJulianDayNumber(ymd.year, 1, 1));
    }
    UtcFromParts(secondsSinceEpoch, yday, utc);
  }

  /** No int on the way to the parts of a time overflows, and the cast of the day count loses nothing. */
  predicate UtcFits(t: int) {
    var date := UtcDayNumber(t);
    && Int32(CDiv(t, KSECONDS_PER_DAY)) && Int32(UtcDay(t)) && Int32(date) && NoOverflow(date) && Int32(date + 1)
    && var v := GetYearMonthDay(date);
    && Int32(v.year - 1900) && Int32(v.month - 1) && YearsFit(v.year, 1, 307)
    && Int32(date - GetJulianDayNumber(v.year, 1, 1))
  }

  lemma UtcFitsExactly(t: int)
    ensures UtcFits(t) <==> -539343544 * KSECONDS_PER_DAY <= t < 534398280 * KSECONDS_PER_DAY
  {
    var date := UtcDayNumber(t);
    NoOverflowExactly(date);
    FloorFromTruncation(t);
    if -536902956 <= date <= 536838867 {
      var v := GetYearMonthDay(date);
      DateBounded(date);
      NewYearBounded(v.year);
    }
  }

  lemma NewYearBounded(year: int)
    requires -2000000 <= year <= 2000000
    ensures YearsFit(year, 1, 307) && -800000000 <= GetJulianDayNumber(year, 1, 1) <= 800000000
  {
    LaterYearsFit(year, 1, 307);
    QuotientBounded(year + 4799);
  }

  /** What the parts that a time is broken into amount to. */
  lemma UtcFromParts(t: int, yday: bool, utc: Tm)
    requires Dates(DateOf(utc), UtcDayNumber(t))
    requires utc.hour * 3600 + utc.min * 60 + utc.sec == t % KSECONDS_PER_DAY
    requires 0 <= utc.hour < 24 && 0 <= utc.min < 60 && 0 <= utc.sec < 60
    requires utc.yday == if yday then UtcDayNumber(t) - GetJulianDayNumber(utc.year + 1900, 1, 1) else 0
    requires utc.wday == WeekDay(UtcDayNumber(t))
    ensures UtcFields(utc) <==> UtcDayNumber(t) >= -32044
    ensures UtcFields(utc) ==> FromUtcTime(utc) == t
    ensures UtcFields(utc) && yday ==> (utc.yday == OrdinalDay(DateOf(utc)) <==> utc.year + 1900 > -4800)
    ensures UtcFields(utc) ==> 0 <= utc.yday <= if LeapYear(utc.year + 1900) then 365 else 364
    ensures 0 <= utc.wday <= 6 <==> UtcDayNumber(t) >= -1 || (UtcDayNumber(t) + 1) % 7 == 0
  {
    WeekDayCycles(UtcDayNumber(t));
    if UtcFields(utc) {
      OrdinalDayRange(DateOf(utc));
      if utc.year + 1900 > -4800 {
        DayOfYear(DateOf(utc));
      } else {
        FirstYearIsOneShort(DateOf(utc));
      }
    }
  }

  lemma FloorFromTruncation(t: int)
    ensures var r := CMod(t, KSECONDS_PER_DAY);
            var q := CDiv(t, KSECONDS_PER_DAY);
            if r < 0 then q - 1 == UtcDay(t) && r + KSECONDS_PER_DAY == t % KSECONDS_PER_DAY
            else q == UtcDay(t) && r == t % KSECONDS_PER_DAY
  {
  }

  /** Days of the year before a date, counted month by month. */
  function OrdinalDay(v: YearMonthDay): int
    requires v.month >= 1
    decreases v.month
  {
    if v.month == 1 then v.day - 1
    else DaysInMonth(v.year, v.month - 1) + OrdinalDay(v.(month := v.month - 1))
  }

  /** The days of the year before a date, in closed form. */
  lemma {:induction false} OrdinalDayFormula(v: YearMonthDay)
    requires 1 <= v.month <= 12
    ensures OrdinalDay(v) == v.day - 1 + (if v.month == 1 then 0 else if v.month == 2 then 31
                                          else 59 + (if LeapYear(v.year) then 1 else 0) + MonthStart(v.month - 3))
    decreases v.month
  {
    if v.month > 1 {
      OrdinalDayFormula(v.(month := v.month - 1));
    }
  }

  lemma OrdinalDayRange(v: YearMonthDay)
    requires ValidDate(v)
    ensures 0 <= OrdinalDay(v) < if LeapYear(v.year) then 366 else 365
  {
    OrdinalDayFormula(v);
  }

  /** Subtracting the day number of 1 January counts the days of the year before a date. */
  lemma DayOfYear(v: YearMonthDay)
    requires ValidDate(v) && v.year > -4800
    ensures DayNumber(v) - GetJulianDayNumber(v.year, 1, 1) == OrdinalDay(v)
  {
    FirstOfYear(v.year);
    DayNumberFromMarch(v);
    OrdinalDayFormula(v);
    assert MarchYear(v) == if v.month <= 2 then v.year + 4799 else v.year + 4800;
  }

  /** In year -4800, 1 January comes before the range of the conversion, and the count is one short. */
  lemma FirstYearIsOneShort(v: YearMonthDay)
    requires ValidDate(v) && InRange(v) && v.year == -4800
    ensures DayNumber(v) - GetJulianDayNumber(-4800, 1, 1) == OrdinalDay(v) - 1
    ensures OrdinalDay(v) >= 60
  {
    assert GetJulianDayNumber(-4800, 1, 1) == -32103;
    OrdinalDayFormula(v);
    DayNumberFromMarch(v);
  }

  lemma FirstOfYear(year: int)
    requires year > -4800
    ensures GetJulianDayNumber(year, 1, 1) == MarchYearStart(year + 4799) + MonthStart(10) - 32044
    ensures MarchYearStart(year + 4800) - 32044 - GetJulianDayNumber(year, 1, 1) == 59 + if LeapYear(year) then 1 else 0
  {
    DayNumberFromMarch(YearMonthDay(year, 1, 1));
    NextMarchYear(year + 4799);
  }
}
