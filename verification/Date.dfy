/** The Julian-day conversions of `Date`, and the calendar they implement.
    The conversions are closed formulas; the calendar is given independently,
    day by day, through month lengths and the 4/100/400 leap rule. */
module Date {
  import opened CppInt

  datatype YearMonthDay = YearMonthDay(year: int, month: int, day: int)

  /** Day number of 1 March -4800, the first day both formulas agree on. */
  const FIRST_DAY := -32044
  const JULIAN_DAY_OF_1970_01_01 := GetJulianDayNumber(1970, 1, 1)

  function GetJulianDayNumber(year: int, month: int, day: int): int {
    var a := Quot(14 - month, 12);
    var y := year + 4800 - a;
    var m := month + 12 * a - 3;
    day + Quot(153 * m + 2, 5) + y * 365 + Quot(y, 4) - Quot(y, 100) + Quot(y, 400) - 32045
  }

  function GetYearMonthDay(julianDayNumber: int): YearMonthDay {
    var a := julianDayNumber + 32044;
    var b := Quot(4 * a + 3, 146097);
    var c := a - Quot(b * 146097, 4);
    var d := Quot(4 * c + 3, 1461);
    var e := c - Quot(1461 * d, 4);
    var m := Quot(5 * e + 2, 153);
    YearMonthDay(b * 100 + d - 4800 + Quot(m, 10),
                 m + 3 - 12 * Quot(m, 10),
                 e - Quot(153 * m + 2, 5) + 1)
  }

  function DayNumber(ymd: YearMonthDay): int {
    GetJulianDayNumber(ymd.year, ymd.month, ymd.day)
  }

  // ---------- The calendar, step by step ----------

  predicate IsLeap(year: int) {
    year % 4 == 0 && (year % 100 != 0 || year % 400 == 0)
  }

  function DaysInMonth(year: int, month: int): int
    requires 1 <= month <= 12
  {
    if month == 2 then (if IsLeap(year) then 29 else 28)
    else if month in {4, 6, 9, 11} then 30
    else 31
  }

  predicate IsDate(ymd: YearMonthDay) {
    1 <= ymd.month <= 12 && 1 <= ymd.day <= DaysInMonth(ymd.year, ymd.month)
  }

  function NextDay(ymd: YearMonthDay): YearMonthDay
    requires IsDate(ymd)
  {
    if ymd.day < DaysInMonth(ymd.year, ymd.month) then ymd.(day := ymd.day + 1)
    else if ymd.month < 12 then YearMonthDay(ymd.year, ymd.month + 1, 1)
    else YearMonthDay(ymd.year + 1, 1, 1)
  }

  /** Lexicographic order on (year, month, day). */
  predicate Before(p: YearMonthDay, q: YearMonthDay) {
    p.year < q.year
    || (p.year == q.year && (p.month < q.month || (p.month == q.month && p.day < q.day)))
  }

  /** From 1 March -4800 on. */
  predicate SinceEpoch(ymd: YearMonthDay) {
    ymd.year > -4800 || (ymd.year == -4800 && ymd.month >= 3)
  }

  // ---------- Years that begin in March ----------

  /** Days before month `m` (0 = March) of a year that begins in March. */
  function MonthStart(m: int): int
    requires 0 <= m
  {
    (153 * m + 2) / 5
  }

  /** Days before year `y`, counted from 1 March of year 0. */
  function YearStart(y: int): (days: nat)
    requires 0 <= y
    ensures days >= 365 * y
  {
    365 * y + y / 4 - y / 100 + y / 400
  }

  function MarchYear(ymd: YearMonthDay): int {
    ymd.year + 4800 - (if ymd.month <= 2 then 1 else 0)
  }

  function MarchMonth(ymd: YearMonthDay): int {
    ymd.month - 3 + (if ymd.month <= 2 then 12 else 0)
  }

  /** Days since 1 March -4800, counted through years that begin in March. */
  function MarchNumber(ymd: YearMonthDay): int
    requires IsDate(ymd) && SinceEpoch(ymd)
  {
    YearStart(MarchYear(ymd)) + MonthStart(MarchMonth(ymd)) + ymd.day - 1
  }

  /** `GetJulianDayNumber` without truncation. */
  lemma DayNumberByMarchYear(ymd: YearMonthDay)
    requires IsDate(ymd) && SinceEpoch(ymd)
    ensures DayNumber(ymd) == MarchNumber(ymd) + FIRST_DAY
  {
    assert Quot(14 - ymd.month, 12) == if ymd.month <= 2 then 1 else 0;
  }

  lemma YearStartStep(y: int)
    requires 0 <= y
    ensures YearStart(y + 1) == YearStart(y) + (if IsLeap(y + 1) then 366 else 365)
  {
    assert (y + 1) / 4 == y / 4 + (if (y + 1) % 4 == 0 then 1 else 0);
    assert (y + 1) / 100 == y / 100 + (if (y + 1) % 100 == 0 then 1 else 0);
    assert (y + 1) / 400 == y / 400 + (if (y + 1) % 400 == 0 then 1 else 0);
  }

  lemma YearStartMonotone(y: int, z: int)
    requires 0 <= y <= z
    ensures YearStart(y) <= YearStart(z)
    decreases z - y
  {
    if y < z {
      YearStartStep(y);
      YearStartMonotone(y + 1, z);
    }
  }

  lemma ShiftByPeriod(year: int, d: int)
    requires d in {4, 100, 400}
    ensures (year + 4800) % d == year % d
  {
    if d == 4 {
      assert year + 4800 == 4 * (year / 4 + 1200) + year % 4;
    } else if d == 100 {
      assert year + 4800 == 100 * (year / 100 + 48) + year % 100;
    } else {
      assert year + 4800 == 400 * (year / 400 + 12) + year % 400;
    }
  }

  lemma LeapIsPeriodic(year: int)
    ensures IsLeap(year) <==> IsLeap(year + 4800)
  {
    ShiftByPeriod(year, 4);
    ShiftByPeriod(year, 100);
    ShiftByPeriod(year, 400);
  }

  /** A date's offset within its March-based year stays inside that year. */
  lemma OffsetInYear(ymd: YearMonthDay)
    requires IsDate(ymd) && SinceEpoch(ymd)
    ensures 0 <= MonthStart(MarchMonth(ymd)) + ymd.day - 1
              < (if IsLeap(MarchYear(ymd) + 1) then 366 else 365)
    ensures MonthStart(MarchMonth(ymd)) + ymd.day - 1 == 365 ==> ymd.month == 2
  {
    LeapIsPeriodic(ymd.year);
  }

  // ---------- Decoding, one division at a time ----------

  /** Centuries, the century's own days, and where a leap day at the end leaves it. */
  lemma CenturyDays(y: int, rest: int)
    requires 0 <= y && 0 <= rest < (if IsLeap(y + 1) then 366 else 365)
    ensures var b, d := y / 100, y % 100;
            var c := 365 * d + d / 4 + rest;
            && YearStart(y) + rest == 36524 * b + b / 4 + c
            && 0 <= 4 * c + 3 - b % 4 < 146097
            && (rest == 365 ==> d % 4 == 3)
  {
    var b, d := y / 100, y % 100;
    var c := 365 * d + d / 4 + rest;
    assert y / 4 == 25 * b + d / 4;
    assert y / 400 == b / 4;
    if d < 99 {
      assert 0 <= c <= 365 * 98 + 24 + 365;
    } else {
      assert y + 1 == 100 * (b + 1);
      if rest == 365 {
        assert (y + 1) % 400 == 0;
        assert b % 4 == 3;
      }
    }
  }

  lemma DecodeCentury(a: int, y: int, rest: int)
    requires 0 <= y && 0 <= rest < (if IsLeap(y + 1) then 366 else 365)
    requires a == YearStart(y) + rest
    ensures (4 * a + 3) / 146097 == y / 100
    ensures a - (y / 100 * 146097) / 4 == 365 * (y % 100) + (y % 100) / 4 + rest
    ensures rest == 365 ==> (y % 100) % 4 == 3
  {
    CenturyDays(y, rest);
    hide YearStart, IsLeap;
    var b, d := y / 100, y % 100;
    CenturyParts(a, b, 365 * d + d / 4 + rest);
  }

  lemma CenturyParts(a: int, b: int, c: int)
    requires a == 36524 * b + b / 4 + c && 0 <= 4 * c + 3 - b % 4 < 146097
    ensures (4 * a + 3) / 146097 == b && a - (b * 146097) / 4 == c
  {
    assert 4 * a + 3 == 146097 * b + (4 * c + 3 - b % 4);
    assert (b * 146097) / 4 == 36524 * b + b / 4;
  }

  lemma DecodeYear(c: int, d: int, rest: int)
    requires 0 <= d <= 99 && 0 <= rest <= 365
    requires rest == 365 ==> d % 4 == 3
    requires c == 365 * d + d / 4 + rest
    ensures (4 * c + 3) / 1461 == d && c - (1461 * d) / 4 == rest
  {
    assert (1461 * d) / 4 == 365 * d + d / 4;
    assert 4 * c + 3 == 1461 * d + (4 * rest + 3 - d % 4);
  }

  lemma DecodeMonth(m: int, dayIndex: int)
    requires 0 <= m <= 11 && 0 <= dayIndex < (if m == 11 then 29 else MonthStart(m + 1) - MonthStart(m))
    ensures (5 * (MonthStart(m) + dayIndex) + 2) / 153 == m
  {
  }

  lemma MonthInYear(m: int, dayIndex: int)
    requires 0 <= m <= 11 && 0 <= dayIndex < (if m == 11 then 29 else MonthStart(m + 1) - MonthStart(m))
    ensures 0 <= MonthStart(m) + dayIndex <= 365
    ensures MonthStart(m) + dayIndex == 365 <==> m == 11 && dayIndex == 28
  {
  }

  /** Day `dayIndex` (from 0) of month `m` (from March) of March-based year `y`. */
  function CivilDate(y: int, m: int, dayIndex: int): YearMonthDay {
    if m < 10 then YearMonthDay(y - 4800, m + 3, dayIndex + 1)
    else YearMonthDay(y - 4799, m - 9, dayIndex + 1)
  }

  /** `GetYearMonthDay` from the first day on, where no division truncates upward. */
  lemma DecodeSteps(a: int, b: int, d: int, e: int, m: int)
    requires a >= 0 && b == (4 * a + 3) / 146097
    requires a - (b * 146097) / 4 == e + (1461 * d) / 4 >= 0 && e >= 0
    requires d == (4 * (a - (b * 146097) / 4) + 3) / 1461 && m == (5 * e + 2) / 153
    ensures GetYearMonthDay(a + FIRST_DAY)
            == YearMonthDay(b * 100 + d - 4800 + m / 10, m + 3 - 12 * (m / 10), e - MonthStart(m) + 1)
  {
    hide Quot;
    QuotNonNegative(4 * a + 3, 146097);
    QuotNonNegative(b * 146097, 4);
    QuotNonNegative(4 * (a - (b * 146097) / 4) + 3, 1461);
    QuotNonNegative(1461 * d, 4);
    QuotNonNegative(5 * e + 2, 153);
    QuotNonNegative(m, 10);
    QuotNonNegative(153 * m + 2, 5);
  }

  /** The divisions of `GetYearMonthDay`, given what each one yields. */
  lemma DecodeAssembles(a: int, b: int, d: int, m: int, dayIndex: int)
    requires a >= 0 && b >= 0 && 0 <= d <= 99
    requires (4 * a + 3) / 146097 == b
    requires 0 <= m <= 11 && 0 <= dayIndex < (if m == 11 then 29 else MonthStart(m + 1) - MonthStart(m))
    requires m == 11 && dayIndex == 28 ==> d % 4 == 3
    requires a - (b * 146097) / 4 == 365 * d + d / 4 + MonthStart(m) + dayIndex
    ensures GetYearMonthDay(a + FIRST_DAY)
            == CivilDate(100 * b + d, m, dayIndex)
  {
    hide GetYearMonthDay;
    var rest := MonthStart(m) + dayIndex;
    assert 0 <= rest <= 365;
    var c := 365 * d + d / 4 + rest;
    DecodeYear(c, d, rest);
    DecodeMonth(m, dayIndex);
    DecodeSteps(a, b, d, rest, m);
    hide MonthStart;
  }

  /** What `GetYearMonthDay` makes of day `YearStart(y) + MonthStart(m) + dayIndex`. */
  lemma DecodeAt(a: int, y: int, m: int, dayIndex: int)
    requires 0 <= y && 0 <= m <= 11
    requires 0 <= dayIndex < (if m == 11 then 29 else MonthStart(m + 1) - MonthStart(m))
    requires m == 11 && dayIndex == 28 ==> IsLeap(y + 1)
    requires a == YearStart(y) + MonthStart(m) + dayIndex
    ensures a >= 0
    ensures GetYearMonthDay(a + FIRST_DAY)
            == CivilDate(y, m, dayIndex)
  {
    hide YearStart, MonthStart, IsLeap, GetYearMonthDay;
    var rest := MonthStart(m) + dayIndex;
    MonthInYear(m, dayIndex);
    DecodeCentury(a, y, rest);
    DecodeAssembles(a, y / 100, y % 100, m, dayIndex);
  }

  // ---------- The two formulas are inverse exactly from 1 March -4800 on ----------

  lemma MarchFields(ymd: YearMonthDay)
    requires IsDate(ymd) && SinceEpoch(ymd)
    ensures 0 <= MarchYear(ymd) && 0 <= MarchMonth(ymd) <= 11
    ensures ymd.day <= (if MarchMonth(ymd) == 11 then 29
                        else MonthStart(MarchMonth(ymd) + 1) - MonthStart(MarchMonth(ymd)))
    ensures MarchMonth(ymd) == 11 && ymd.day == 29 ==> IsLeap(MarchYear(ymd) + 1)
    ensures CivilDate(MarchYear(ymd), MarchMonth(ymd), ymd.day - 1) == ymd
  {
    LeapIsPeriodic(ymd.year);
  }

  lemma DecodeMarchNumber(ymd: YearMonthDay)
    requires IsDate(ymd) && SinceEpoch(ymd)
    ensures MarchNumber(ymd) >= 0 && GetYearMonthDay(MarchNumber(ymd) + FIRST_DAY) == ymd
  {
    hide MonthStart, YearStart, GetYearMonthDay;
    MarchFields(ymd);
    DecodeAt(MarchNumber(ymd), MarchYear(ymd), MarchMonth(ymd), ymd.day - 1);
  }

  lemma DecodeEncodeSinceEpoch(ymd: YearMonthDay)
    requires IsDate(ymd) && SinceEpoch(ymd)
    ensures DayNumber(ymd) >= FIRST_DAY && GetYearMonthDay(DayNumber(ymd)) == ymd
  {
    hide GetYearMonthDay;
    DayNumberByMarchYear(ymd);
    DecodeMarchNumber(ymd);
  }

  lemma NextMarchNumber(ymd: YearMonthDay)
    requires IsDate(ymd) && SinceEpoch(ymd)
    ensures MarchNumber(NextDay(ymd)) == MarchNumber(ymd) + 1
  {
    hide YearStart;
    var next := NextDay(ymd);
    if MarchYear(next) == MarchYear(ymd) {
      assert MonthStart(MarchMonth(next)) + next.day == MonthStart(MarchMonth(ymd)) + ymd.day + 1;
    } else {
      YearStartStep(MarchYear(ymd));
      LeapIsPeriodic(ymd.year);
    }
  }

  lemma NextDayIsDate(ymd: YearMonthDay)
    requires IsDate(ymd)
    ensures IsDate(NextDay(ymd)) && (SinceEpoch(ymd) ==> SinceEpoch(NextDay(ymd)))
  {
    hide IsLeap;
  }

  /** The day after has the next number. */
  lemma NextDayNumber(ymd: YearMonthDay)
    requires IsDate(ymd) && SinceEpoch(ymd)
    ensures DayNumber(NextDay(ymd)) == DayNumber(ymd) + 1
  {
    DayNumberByMarchYear(ymd);
    DayNumberByMarchYear(NextDay(ymd));
    NextMarchNumber(ymd);
  }

  /** Counting up through the calendar from 1 March -4800 reaches every day number. */
  lemma DateOf(j: int) returns (ymd: YearMonthDay)
    requires j >= FIRST_DAY
    ensures IsDate(ymd) && SinceEpoch(ymd) && DayNumber(ymd) == j
    decreases j - FIRST_DAY
  {
    if j == FIRST_DAY {
      ymd := YearMonthDay(-4800, 3, 1);
    } else {
      var yesterday := DateOf(j - 1);
      NextDayNumber(yesterday);
      ymd := NextDay(yesterday);
    }
  }

  /** From the first day on, decoding gives a date of the calendar, with the
      day number it came from. */
  lemma EncodeDecode(j: int)
    requires j >= FIRST_DAY
    ensures IsDate(GetYearMonthDay(j)) && SinceEpoch(GetYearMonthDay(j))
    ensures DayNumber(GetYearMonthDay(j)) == j
  {
    hide GetYearMonthDay;
    var ymd := DateOf(j);
    DecodeEncodeSinceEpoch(ymd);
  }

  lemma DecodeNextDay(ymd: YearMonthDay)
    requires IsDate(ymd) && SinceEpoch(ymd)
    ensures GetYearMonthDay(DayNumber(ymd) + 1) == NextDay(ymd)
  {
    hide GetYearMonthDay;
    NextDayNumber(ymd);
    DecodeEncodeSinceEpoch(NextDay(ymd));
  }

  /** The closed form refines the step-by-step calendar. */
  lemma DecodeCountsUp(j: int)
    requires j >= FIRST_DAY
    ensures IsDate(GetYearMonthDay(j))
    ensures GetYearMonthDay(j + 1) == NextDay(GetYearMonthDay(j))
  {
    hide GetYearMonthDay;
    var ymd := DateOf(j);
    DecodeEncodeSinceEpoch(ymd);
    DecodeNextDay(ymd);
  }

  /** Below the first day the divisions truncate upward and the day of the
      month comes out as zero or less. */
  lemma DecodeBeforeFirstDay(j: int)
    requires j < FIRST_DAY
    ensures GetYearMonthDay(j).day <= 0
  {
    var a := j - FIRST_DAY;
    var b := Quot(4 * a + 3, 146097);
    var c := a - Quot(b * 146097, 4);
    assert c < 0;
    var d := Quot(4 * c + 3, 1461);
    var e := c - Quot(1461 * d, 4);
    assert e < 0;
  }

  /** The decoded date is a date of the calendar exactly from FIRST_DAY on, and
      from there the day number comes back. */
  lemma DecodeIsValid(j: int)
    ensures IsDate(GetYearMonthDay(j)) <==> j >= FIRST_DAY
    ensures j >= FIRST_DAY ==> DayNumber(GetYearMonthDay(j)) == j
  {
    if j >= FIRST_DAY {
      EncodeDecode(j);
    } else {
      DecodeBeforeFirstDay(j);
    }
  }

  lemma EncodeBeforeEpoch(ymd: YearMonthDay)
    requires IsDate(ymd) && !SinceEpoch(ymd)
    ensures DayNumber(ymd) <= FIRST_DAY
    ensures DayNumber(ymd) == FIRST_DAY ==> ymd.month == 2
  {
    var y := MarchYear(ymd);
    assert Quot(14 - ymd.month, 12) == if ymd.month <= 2 then 1 else 0;
    assert Quot(y, 4) - Quot(y, 100) + Quot(y, 400) <= 0;
  }

  /** The one clash: 29 February -4800 has the day number of 1 March -4800. */
  lemma LeapDayClash()
    ensures IsDate(YearMonthDay(-4800, 2, 29))
    ensures DayNumber(YearMonthDay(-4800, 2, 29)) == DayNumber(YearMonthDay(-4800, 3, 1)) == FIRST_DAY
  {
  }

  lemma DecodeMissesEarlyDate(j: int, ymd: YearMonthDay)
    requires IsDate(ymd) && j <= FIRST_DAY
    requires j == FIRST_DAY ==> ymd.month == 2
    ensures GetYearMonthDay(j) != ymd
  {
    if j < FIRST_DAY {
      DecodeBeforeFirstDay(j);
    } else {
      DecodeEncodeSinceEpoch(YearMonthDay(-4800, 3, 1));
      LeapDayClash();
      hide GetYearMonthDay, DayNumber;
    }
  }

  /** A valid date survives the trip through its day number exactly from
      1 March -4800 on. */
  lemma DecodeEncode(ymd: YearMonthDay)
    requires IsDate(ymd)
    ensures GetYearMonthDay(DayNumber(ymd)) == ymd <==> SinceEpoch(ymd)
  {
    if SinceEpoch(ymd) {
      DecodeEncodeSinceEpoch(ymd);
    } else {
      EncodeBeforeEpoch(ymd);
      DecodeMissesEarlyDate(DayNumber(ymd), ymd);
    }
  }

  // ---------- Order ----------

  lemma MarchNumberMonotone(p: YearMonthDay, q: YearMonthDay)
    requires IsDate(p) && IsDate(q) && SinceEpoch(p) && SinceEpoch(q)
    requires Before(p, q)
    ensures MarchNumber(p) < MarchNumber(q)
  {
    hide YearStart;
    if MarchYear(p) < MarchYear(q) {
      OffsetInYear(p);
      YearStartStep(MarchYear(p));
      YearStartMonotone(MarchYear(p) + 1, MarchYear(q));
      assert MonthStart(MarchMonth(q)) >= 0;
    } else {
      assert MonthStart(MarchMonth(p)) + p.day < MonthStart(MarchMonth(q)) + q.day;
    }
  }

  /** Lexicographic order on dates is order on day numbers. */
  lemma EncodeOrder(p: YearMonthDay, q: YearMonthDay)
    requires IsDate(p) && IsDate(q) && SinceEpoch(p) && SinceEpoch(q)
    ensures Before(p, q) <==> DayNumber(p) < DayNumber(q)
    ensures p == q <==> DayNumber(p) == DayNumber(q)
  {
    hide DayNumber, MarchNumber;
    DayNumberByMarchYear(p);
    DayNumberByMarchYear(q);
    if Before(p, q) {
      MarchNumberMonotone(p, q);
    } else if p != q {
      MarchNumberMonotone(q, p);
    }
  }

  // ---------- Machine integers ----------

  const INT_MAX := 0x7FFF_FFFF

  predicate FitsInt(n: int) {
    -INT_MAX - 1 <= n <= INT_MAX
  }

  /** The largest day number whose decoding stays within a 32-bit `int`. */
  const LAST_DAY := (INT_MAX - 3) / 4 + FIRST_DAY

  /** Each value `getYearMonthDay` computes fits a 32-bit `int` throughout
      [FIRST_DAY, LAST_DAY]; one day later the first product no longer does. */
  lemma DecodeFitsInt(j: int)
    requires FIRST_DAY <= j
    ensures FitsInt(4 * (j - FIRST_DAY) + 3) <==> j <= LAST_DAY
    ensures j <= LAST_DAY ==>
              var a := j - FIRST_DAY;
              var b := Quot(4 * a + 3, 146097);
              var c := a - Quot(b * 146097, 4);
              var d := Quot(4 * c + 3, 1461);
              var e := c - Quot(1461 * d, 4);
              FitsInt(b * 146097) && FitsInt(4 * c + 3) && FitsInt(1461 * d) && FitsInt(5 * e + 2)
  {
    var a := j - FIRST_DAY;
    var b := (4 * a + 3) / 146097;
    var c := a - (b * 146097) / 4;
    assert 0 <= c <= 36524;
  }

  /** The last date whose encoding stays within a 32-bit `int`. */
  const LAST_DATE := YearMonthDay(5874689, 12, 15)

  /** From 1 March -4800 on each value `getJulianDayNumber` computes fits a 32-bit
      `int` exactly up to LAST_DATE. */
  lemma EncodeFitsInt(ymd: YearMonthDay)
    requires IsDate(ymd) && SinceEpoch(ymd)
    ensures var a := Quot(14 - ymd.month, 12);
            var y, m := ymd.year + 4800 - a, ymd.month + 12 * a - 3;
            var days := ymd.day + Quot(153 * m + 2, 5);
            && FitsInt(ymd.year + 4800) && FitsInt(y * 365) && FitsInt(153 * m + 2)
            && FitsInt(days + y * 365)
            && FitsInt(days + y * 365 + Quot(y, 4))
            && FitsInt(days + y * 365 + Quot(y, 4) - Quot(y, 100))
            && FitsInt(days + y * 365 + Quot(y, 4) - Quot(y, 100) + Quot(y, 400))
            && FitsInt(DayNumber(ymd))
            <==> !Before(LAST_DATE, ymd)
  {
    var a := Quot(14 - ymd.month, 12);
    assert a == if ymd.month <= 2 then 1 else 0;
    var y, m := ymd.year + 4800 - a, ymd.month + 12 * a - 3;
    assert 0 <= y && 0 <= m <= 11;
    var days := ymd.day + Quot(153 * m + 2, 5);
    assert days + y * 365 + Quot(y, 4) <= INT_MAX <==> !Before(LAST_DATE, ymd);
  }
}
