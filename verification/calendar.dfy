/**
 The proleptic Gregorian calendar: Hinnant's two day-count conversions as the
 deadline code writes them, against a naive calendar that steps one day at a
 time. Rust's `/` truncates, so the era of a negative year or day count is taken
 from an adjusted dividend; `TruncDiv` keeps that explicit.
*/
module Calendar {

  /** Integer division rounding toward zero, by a positive divisor. */
  function TruncDiv(a: int, b: int): int
    requires b > 0
  {
    if a >= 0 then a / b else -((-a) / b)
  }

  function TruncRem(a: int, b: int): int
    requires b > 0
  {
    a - TruncDiv(a, b) * b
  }

  predicate IsLeap(year: int) {
    (TruncRem(year, 4) == 0 && TruncRem(year, 100) != 0) || TruncRem(year, 400) == 0
  }

  function DaysInMonth(year: int, month: int): int {
    if month in {1, 3, 5, 7, 8, 10, 12} then 31
    else if month in {4, 6, 9, 11} then 30
    else if month == 2 then (if IsLeap(year) then 29 else 28)
    else 0
  }

  datatype Date = Date(year: int, month: int, day: int)

  predicate Valid(d: Date) {
    1 <= d.month <= 12 && 1 <= d.day <= DaysInMonth(d.year, d.month)
  }

  /** The day count of a date, zero at the epoch. */
  function DaysFromCivil(d: Date): int {
    var year := if d.month <= 2 then d.year - 1 else d.year;
    var era := TruncDiv(if year >= 0 then year else year - 399, 400);
    var yearOfEra := year - era * 400;
    var monthShift := if d.month > 2 then d.month - 3 else d.month + 9;
    var dayOfYear := TruncDiv(153 * monthShift + 2, 5) + d.day - 1;
    var dayOfEra := yearOfEra * 365 + TruncDiv(yearOfEra, 4) - TruncDiv(yearOfEra, 100) + dayOfYear;
    era * 146097 + dayOfEra - 719468
  }

  /** The 400-year era of a day count taken from 0000-03-01. */
  function EraOf(shifted: int): int {
    TruncDiv(if shifted >= 0 then shifted else shifted - 146096, 146097)
  }

  function YearOfEra(dayOfEra: int): int {
    TruncDiv(dayOfEra - TruncDiv(dayOfEra, 1460) + TruncDiv(dayOfEra, 36524) - TruncDiv(dayOfEra, 146096), 365)
  }

  function DayOfYear(dayOfEra: int, yearOfEra: int): int {
    dayOfEra - (365 * yearOfEra + TruncDiv(yearOfEra, 4) - TruncDiv(yearOfEra, 100))
  }

  function DateOfYear(year: int, dayOfYear: int): Date {
    var shiftedMonth := TruncDiv(5 * dayOfYear + 2, 153);
    var day := dayOfYear - TruncDiv(153 * shiftedMonth + 2, 5) + 1;
    var month := if shiftedMonth < 10 then shiftedMonth + 3 else shiftedMonth - 9;
    Date(if month <= 2 then year + 1 else year, month, day)
  }

  /** The civil date of a day count. */
  function CivilFromDays(days: int): Date {
    var shifted := days + 719468;
    var era := EraOf(shifted);
    var dayOfEra := shifted - era * 146097;
    var yearOfEra := YearOfEra(dayOfEra);
    DateOfYear(yearOfEra + era * 400, DayOfYear(dayOfEra, yearOfEra))
  }

  // ----- the naive calendar -----

  /** The day after a date. */
  function Next(d: Date): Date {
    if d.day < DaysInMonth(d.year, d.month) then Date(d.year, d.month, d.day + 1)
    else if d.month < 12 then Date(d.year, d.month + 1, 1)
    else Date(d.year + 1, 1, 1)
  }

  /** The day before a date. */
  function Previous(d: Date): Date {
    if d.day > 1 then Date(d.year, d.month, d.day - 1)
    else if d.month > 1 then Date(d.year, d.month - 1, DaysInMonth(d.year, d.month - 1))
    else Date(d.year - 1, 12, 31)
  }

  const EPOCH := Date(1970, 1, 1)

  /** The date reached by walking `n` days forward, or `-n` back, from the epoch. */
  function Walk(n: int): Date
    decreases if n >= 0 then n else -n
  {
    if n == 0 then EPOCH else if n > 0 then Next(Walk(n - 1)) else Previous(Walk(n + 1))
  }

  // ----- floor-division form -----

  /** Days from 1 March of year 0 to 1 March of year `y`. */
  function YearStart(y: int): int {
    365 * y + y / 4 - y / 100 + y / 400
  }

  /** Days from 1 March to the first of the `m`-th month after March. */
  function MonthStart(m: int): int {
    (153 * m + 2) / 5
  }

  /** The year that begins in March and contains the date. */
  function MarchYear(d: Date): int {
    if d.month <= 2 then d.year - 1 else d.year
  }

  function MarchMonth(d: Date): int {
    if d.month > 2 then d.month - 3 else d.month + 9
  }

  lemma EraIsFloor(n: int, length: int)
    requires length > 0
    ensures TruncDiv(if n >= 0 then n else n - (length - 1), length) == n / length
  {
    if n < 0 {
      var q := (length - 1 - n) / length;
      assert q * length <= length - 1 - n < q * length + length;
      assert -q * length <= n < (-q + 1) * length;
      FloorUnique(n, length, -q);
    }
  }

  lemma FloorUnique(n: int, length: int, q: int)
    requires length > 0 && q * length <= n < (q + 1) * length
    ensures n / length == q
  {
    var r := n / length;
    assert r * length <= n < r * length + length;
    ScaleMonotone(r + 1, q, length);
    ScaleMonotone(q + 1, r, length);
  }

  lemma ScaleMonotone(a: int, b: int, scale: int)
    requires scale > 0
    ensures a <= b ==> a * scale <= b * scale
  {
  }

  /** The conversion is a plain sum of year, month and day offsets. */
  lemma DaysFromCivilSum(d: Date)
    requires 1 <= d.month <= 12
    ensures DaysFromCivil(d) == YearStart(MarchYear(d)) + MonthStart(MarchMonth(d)) + d.day - 1 - 719468
  {
    var year := MarchYear(d);
    EraIsFloor(year, 400);
    var era := year / 400;
    var yearOfEra := year - era * 400;
    assert 0 <= yearOfEra < 400;
    assert year / 4 == 100 * era + yearOfEra / 4;
    assert year / 100 == 4 * era + yearOfEra / 100;
  }

  lemma LeapIsFloor(year: int)
    ensures IsLeap(year) <==> (year % 4 == 0 && year % 100 != 0) || year % 400 == 0
  {
    RemainderZero(year, 4);
    RemainderZero(year, 100);
    RemainderZero(year, 400);
  }

  lemma RemainderZero(n: int, b: int)
    requires b > 0
    ensures TruncRem(n, b) == 0 <==> n % b == 0
  {
    if n < 0 {
      var q := (-n) / b;
      if TruncRem(n, b) == 0 {
        FloorUnique(n, b, -q);
      }
      if n % b == 0 {
        FloorUnique(-n, b, -(n / b));
      }
    }
  }

  lemma ModChain(n: int)
    ensures n % 400 == 0 ==> n % 100 == 0
    ensures n % 100 == 0 ==> n % 4 == 0
  {
    if n % 100 == 0 {
      FloorUnique(n, 4, 25 * (n / 100));
    }
    if n % 400 == 0 {
      FloorUnique(n, 100, 4 * (n / 400));
    }
  }

  /** A March year has a leap day exactly when the February that ends it does. */
  lemma YearLength(y: int)
    ensures YearStart(y + 1) - YearStart(y) == 337 + DaysInMonth(y + 1, 2)
  {
    LeapIsFloor(y + 1);
    StepFloor(y, 4);
    StepFloor(y, 100);
    StepFloor(y, 400);
    ModChain(y + 1);
    hide IsLeap;
    var by4, by100, by400 := (y + 1) % 4 == 0, (y + 1) % 100 == 0, (y + 1) % 400 == 0;
    assert IsLeap(y + 1) <==> (by4 && !by100) || by400;
  }

  lemma StepFloor(y: int, b: int)
    requires b > 1
    ensures (y + 1) / b == y / b + (if (y + 1) % b == 0 then 1 else 0)
  {
    var q, r := y / b, y % b;
    if r == b - 1 {
      assert y + 1 == (q + 1) * b;
      FloorUnique(y + 1, b, q + 1);
    } else {
      assert q * b <= y + 1 < (q + 1) * b;
      FloorUnique(y + 1, b, q);
    }
  }

  lemma MonthLength(d: Date)
    requires 1 <= d.month <= 12
    ensures MarchMonth(d) < 11 ==>
              MonthStart(MarchMonth(d) + 1) - MonthStart(MarchMonth(d)) == DaysInMonth(d.year, d.month)
    ensures MonthStart(11) == 337
  {
  }

  // ----- one day at a time -----

  /** Stepping the naive calendar by one day adds one to the day count. */
  lemma NextAddsOne(d: Date)
    requires Valid(d)
    ensures Valid(Next(d)) && DaysFromCivil(Next(d)) == DaysFromCivil(d) + 1
  {
    hide IsLeap, DaysFromCivil, YearStart;
    DaysFromCivilSum(d);
    assert Valid(Next(d));
    DaysFromCivilSum(Next(d));
    MonthLength(d);
    if d.month == 2 {
      YearLength(MarchYear(d));
    }
  }

  lemma PreviousThenNext(d: Date)
    requires Valid(d)
    ensures Valid(Previous(d)) && Next(Previous(d)) == d
  {
    hide IsLeap;
  }

  // ----- order -----

  predicate Before(a: Date, b: Date) {
    a.year < b.year || (a.year == b.year && (a.month < b.month || (a.month == b.month && a.day < b.day)))
  }

  lemma YearStartMonotone(y: int, z: int)
    requires y < z
    ensures YearStart(y + 1) <= YearStart(z)
  {
  }

  lemma MonthStartMonotone(m: int, n: int)
    requires 0 <= m < n <= 11
    ensures MonthStart(m + 1) <= MonthStart(n)
  {
  }

  function DayOfMarchYear(d: Date): int {
    MonthStart(MarchMonth(d)) + d.day - 1
  }

  lemma DayOfMarchYearFits(d: Date)
    requires Valid(d)
    ensures 0 <= DayOfMarchYear(d) && YearStart(MarchYear(d)) + DayOfMarchYear(d) < YearStart(MarchYear(d) + 1)
  {
    hide IsLeap, YearStart;
    MonthLength(d);
    YearLength(MarchYear(d));
    if MarchMonth(d) < 11 {
      MonthStartMonotone(MarchMonth(d), 11);
    }
  }

  lemma DayOfMarchYearOrders(a: Date, b: Date)
    requires Valid(a) && Valid(b) && Before(a, b) && MarchYear(a) == MarchYear(b)
    ensures DayOfMarchYear(a) < DayOfMarchYear(b)
  {
    hide IsLeap;
    MonthLength(a);
    if MarchMonth(a) < MarchMonth(b) {
      MonthStartMonotone(MarchMonth(a), MarchMonth(b));
    }
  }

  /** Day counts order valid dates exactly as the calendar does. */
  lemma DayCountOrders(a: Date, b: Date)
    requires Valid(a) && Valid(b) && Before(a, b)
    ensures DaysFromCivil(a) < DaysFromCivil(b)
  {
    hide DaysInMonth, YearStart, DaysFromCivil, MonthStart;
    DaysFromCivilSum(a);
    DaysFromCivilSum(b);
    if MarchYear(a) == MarchYear(b) {
      DayOfMarchYearOrders(a, b);
    } else {
      DayOfMarchYearFits(a);
      DayOfMarchYearFits(b);
      YearStartMonotone(MarchYear(a), MarchYear(b));
    }
  }

  // ----- the inverse -----

  /** A day of an era as whole centuries, four-year cycles, years and days. */
  datatype EraDay = EraDay(century: int, cycle: int, year: int, dayOfYear: int)

  /** The split is real: a day 365 exists only in the years that end in a leap February. */
  predicate RealEraDay(e: EraDay) {
    && 0 <= e.century <= 3 && 0 <= e.cycle <= 24 && 0 <= e.year <= 3 && 0 <= e.dayOfYear <= 365
    && (e.dayOfYear == 365 ==> e.year == 3 && (e.cycle < 24 || e.century == 3))
  }

  function DayOfEra(e: EraDay): int {
    36524 * e.century + 1461 * e.cycle + 365 * e.year + e.dayOfYear
  }

  lemma SplitEra(dayOfEra: int) returns (e: EraDay)
    requires 0 <= dayOfEra < 146097
    ensures RealEraDay(e) && DayOfEra(e) == dayOfEra
  {
    var century := if dayOfEra / 36524 < 3 then dayOfEra / 36524 else 3;
    var inCentury := dayOfEra - 36524 * century;
    var cycle := inCentury / 1461;
    var inCycle := inCentury - 1461 * cycle;
    var year := if inCycle / 365 < 3 then inCycle / 365 else 3;
    e := EraDay(century, cycle, year, inCycle - 365 * year);
  }

  /** The three corrections of Hinnant's formula, evaluated on a split day. */
  lemma EraCorrections(e: EraDay)
    requires RealEraDay(e)
    ensures DayOfEra(e) / 1460
         == 25 * e.century + e.cycle + (if 24 * e.century + e.cycle + 365 * e.year + e.dayOfYear < 1460 then 0 else 1)
    ensures DayOfEra(e) / 36524 - DayOfEra(e) / 146096 == e.century
  {
    var extra := 24 * e.century + e.cycle + 365 * e.year + e.dayOfYear;
    var whole := 25 * e.century + e.cycle;
    assert DayOfEra(e) == 1460 * whole + extra && 0 <= extra < 2920;
    FloorUnique(DayOfEra(e), 1460, if extra < 1460 then whole else whole + 1);
    if DayOfEra(e) == 146096 {
    } else {
      FloorUnique(DayOfEra(e), 36524, e.century);
      FloorUnique(DayOfEra(e), 146096, 0);
    }
  }

  function YearInEra(e: EraDay): int {
    100 * e.century + 4 * e.cycle + e.year
  }

  /** Hinnant's year-of-era formula finds the year of the split. */
  lemma YearOfEraIs(e: EraDay)
    requires RealEraDay(e)
    ensures YearOfEra(DayOfEra(e)) == YearInEra(e)
  {
    var day := DayOfEra(e);
    EraCorrections(e);
    FloorUnique(day - day / 1460 + day / 36524 - day / 146096, 365, YearInEra(e));
  }

  lemma DayOfYearIs(e: EraDay)
    requires RealEraDay(e)
    ensures DayOfYear(DayOfEra(e), YearInEra(e)) == e.dayOfYear
  {
    FloorUnique(YearInEra(e), 4, 25 * e.century + e.cycle);
    FloorUnique(YearInEra(e), 100, e.century);
  }

  lemma LeapInEra(e: EraDay, era: int)
    requires RealEraDay(e)
    ensures IsLeap(YearInEra(e) + 1 + era * 400)
       <==> e.year == 3 && (e.cycle < 24 || e.century == 3)
  {
    var year := YearInEra(e) + 1 + era * 400;
    LeapIsFloor(year);
    hide IsLeap;
    var carry := if e.year == 3 then 1 else 0;
    FloorUnique(year, 4, 25 * e.century + e.cycle + carry + 100 * era);
    var turn := if e.year == 3 && e.cycle == 24 then 1 else 0;
    FloorUnique(year, 100, e.century + turn + 4 * era);
    FloorUnique(year, 400, era + (if turn == 1 && e.century == 3 then 1 else 0));
  }

  lemma MonthOfYear(dayOfYear: int)
    requires 0 <= dayOfYear < 366
    ensures var m := (5 * dayOfYear + 2) / 153;
            0 <= m <= 11 && MonthStart(m) <= dayOfYear < MonthStart(m + 1)
  {
  }

  lemma YearStartInEra(yearOfEra: int, era: int)
    requires 0 <= yearOfEra < 400
    ensures YearStart(yearOfEra + era * 400) == era * 146097 + 365 * yearOfEra + yearOfEra / 4 - yearOfEra / 100
  {
    var year := yearOfEra + era * 400;
    FloorUnique(year, 4, yearOfEra / 4 + 100 * era);
    FloorUnique(year, 100, yearOfEra / 100 + 4 * era);
    FloorUnique(year, 400, era);
  }

  /** The date `dayOfYear` days after 1 March of a year. */
  function MarchDate(year: int, dayOfYear: int): Date {
    var m := (5 * dayOfYear + 2) / 153;
    var month := if m < 10 then m + 3 else m - 9;
    Date(if month <= 2 then year + 1 else year, month, dayOfYear - MonthStart(m) + 1)
  }

  lemma DateOfYearIs(year: int, dayOfYear: int)
    requires 0 <= dayOfYear < 366
    ensures DateOfYear(year, dayOfYear) == MarchDate(year, dayOfYear)
  {
    MonthOfYear(dayOfYear);
  }

  lemma EraOfBounds(shifted: int)
    ensures 0 <= shifted - EraOf(shifted) * 146097 < 146097
  {
    EraIsFloor(shifted, 146097);
  }

  lemma CivilIsMarchDate(days: int, era: int) returns (e: EraDay)
    requires era == EraOf(days + 719468)
    ensures RealEraDay(e) && DayOfEra(e) == days + 719468 - era * 146097
    ensures CivilFromDays(days) == MarchDate(YearInEra(e) + era * 400, e.dayOfYear)
  {
    EraOfBounds(days + 719468);
    hide EraOf, DayOfEra, YearOfEra, DayOfYear, DateOfYear, MarchDate, YearInEra;
    e := SplitEra(days + 719468 - era * 146097);
    YearOfEraIs(e);
    DayOfYearIs(e);
    DateOfYearIs(YearInEra(e) + era * 400, e.dayOfYear);
  }

  lemma MarchDateParts(year: int, dayOfYear: int)
    requires 0 <= dayOfYear < 366
    ensures var d := MarchDate(year, dayOfYear);
            && 1 <= d.month <= 12 && 0 <= MarchMonth(d) <= 11 && MarchYear(d) == year
            && DayOfMarchYear(d) == dayOfYear && 1 <= d.day
            && dayOfYear < MonthStart(MarchMonth(d) + 1)
  {
    MonthOfYear(dayOfYear);
  }

  lemma MarchDateValid(e: EraDay, era: int)
    requires RealEraDay(e)
    ensures Valid(MarchDate(YearInEra(e) + era * 400, e.dayOfYear))
  {
    hide IsLeap, MarchDate;
    var d := MarchDate(YearInEra(e) + era * 400, e.dayOfYear);
    MarchDateParts(YearInEra(e) + era * 400, e.dayOfYear);
    MonthLength(d);
    LeapInEra(e, era);
  }

  lemma MarchDateCount(e: EraDay, era: int)
    requires RealEraDay(e)
    ensures DaysFromCivil(MarchDate(YearInEra(e) + era * 400, e.dayOfYear)) == era * 146097 + DayOfEra(e) - 719468
  {
    var d := MarchDate(YearInEra(e) + era * 400, e.dayOfYear);
    MarchDateParts(YearInEra(e) + era * 400, e.dayOfYear);
    FloorUnique(YearInEra(e), 4, 25 * e.century + e.cycle);
    FloorUnique(YearInEra(e), 100, e.century);
    hide IsLeap, DaysFromCivil, YearStart, MonthStart, MarchDate;
    DaysFromCivilSum(d);
    YearStartInEra(YearInEra(e), era);
  }

  /** Every day count is some valid date, and converts back to itself. */
  lemma CivilThenDays(days: int)
    ensures Valid(CivilFromDays(days)) && DaysFromCivil(CivilFromDays(days)) == days
  {
    hide CivilFromDays, DaysFromCivil, Valid, MarchDate, YearInEra, DayOfEra, EraOf;
    var era := EraOf(days + 719468);
    var e := CivilIsMarchDate(days, era);
    MarchDateValid(e, era);
    MarchDateCount(e, era);
  }

  /** Every valid date survives the trip through its day count. */
  lemma DaysThenCivil(d: Date)
    requires Valid(d)
    ensures CivilFromDays(DaysFromCivil(d)) == d
  {
    hide CivilFromDays, DaysFromCivil, Valid;
    var e := CivilFromDays(DaysFromCivil(d));
    CivilThenDays(DaysFromCivil(d));
    if Before(d, e) {
      DayCountOrders(d, e);
    } else if Before(e, d) {
      DayCountOrders(e, d);
    }
  }

  /** The closed form is the calendar walked day by day, in both directions. */
  lemma {:induction false} CivilIsWalk(n: int)
    ensures CivilFromDays(n) == Walk(n)
    decreases if n >= 0 then n else -n
  {
    hide CivilFromDays, DaysFromCivil, Valid, Next, Previous;
    if n == 0 {
      EpochIsZero();
      DaysThenCivil(EPOCH);
    } else if n > 0 {
      CivilIsWalk(n - 1);
      CivilThenDays(n - 1);
      NextAddsOne(Walk(n - 1));
      DaysThenCivil(Next(Walk(n - 1)));
    } else {
      CivilIsWalk(n + 1);
      CivilThenDays(n + 1);
      PreviousThenNext(Walk(n + 1));
      NextAddsOne(Previous(Walk(n + 1)));
      DaysThenCivil(Previous(Walk(n + 1)));
    }
  }

  lemma EpochIsZero()
    ensures Valid(EPOCH) && DaysFromCivil(EPOCH) == 0
  {
  }
}
