/**
 The printer over 64-bit machine integers. Dafny checks every intermediate
 result of an `Int64` expression against the type's range, so these functions
 being accepted is the proof that no i64 second count overflows.
*/
module ExpiryWidth {
  import opened Calendar
  import opened Expiry

  newtype Int64 = x: int | -0x8000_0000_0000_0000 <= x < 0x8000_0000_0000_0000

  /** Rust's truncating `/`. */
  function Div(a: Int64, b: Int64): (q: Int64)
    requires b > 0
    ensures q as int == TruncDiv(a as int, b as int)
  {
    DivShrinks(a as int, b as int);
    TruncDiv(a as int, b as int) as Int64
  }

  lemma DivShrinks(a: int, b: int)
    requires b > 0
    ensures a >= 0 ==> 0 <= TruncDiv(a, b) <= a
    ensures a < 0 ==> a <= TruncDiv(a, b) <= 0
  {
    var n := if a >= 0 then a else -a;
    var q := n / b;
    assert q >= 0 && q * b <= n by {
      DivisionFits(n, b);
    }
    if q > 0 {
      ScaleMonotone(1, b, q);
    }
  }

  lemma DivisionFits(n: int, b: int)
    requires n >= 0 && b > 0
    ensures n / b >= 0 && n / b * b <= n
  {
  }

  function Fields(date: (Int64, Int64, Int64)): Date {
    Date(date.0 as int, date.1 as int, date.2 as int)
  }

  /** The day counts that whole i64 seconds can reach. */
  predicate Reachable(days: Int64) {
    -106_751_991_167_301 <= days <= 106_751_991_167_300
  }

  function Era(shifted: Int64): (era: Int64)
    requires -106_751_991_167_301 <= shifted <= 106_751_991_886_768
    ensures era as int == EraOf(shifted as int) && -1_000_000_000 <= era <= 1_000_000_000
    ensures 0 <= shifted as int - era as int * 146_097 < 146_097
  {
    EraOfBounds(shifted as int);
    Div(if shifted >= 0 then shifted else shifted - 146_096, 146_097)
  }

  lemma EraPartsBounded(dayOfEra: int)
    requires 0 <= dayOfEra < 146_097
    ensures 0 <= YearOfEra(dayOfEra) < 400 && 0 <= DayOfYear(dayOfEra, YearOfEra(dayOfEra)) < 366
  {
    hide YearOfEra, DayOfYear, DayOfEra;
    var e := SplitEra(dayOfEra);
    YearOfEraIs(e);
    DayOfYearIs(e);
  }

  function YearOfEra64(dayOfEra: Int64): (year: Int64)
    requires 0 <= dayOfEra < 146_097
    ensures year as int == YearOfEra(dayOfEra as int) && 0 <= year < 400
  {
    EraPartsBounded(dayOfEra as int);
    Div(dayOfEra - Div(dayOfEra, 1_460) + Div(dayOfEra, 36_524) - Div(dayOfEra, 146_096), 365)
  }

  function DayOfYear64(dayOfEra: Int64, yearOfEra: Int64): (dayOfYear: Int64)
    requires 0 <= dayOfEra < 146_097 && yearOfEra as int == YearOfEra(dayOfEra as int) && 0 <= yearOfEra < 400
    ensures dayOfYear as int == DayOfYear(dayOfEra as int, yearOfEra as int) && 0 <= dayOfYear < 366
  {
    EraPartsBounded(dayOfEra as int);
    dayOfEra - (365 * yearOfEra + Div(yearOfEra, 4) - Div(yearOfEra, 100))
  }

  function DateOfYear64(year: Int64, dayOfYear: Int64): (date: (Int64, Int64, Int64))
    requires -1_000_000_000_000 <= year <= 1_000_000_000_000 && 0 <= dayOfYear < 366
    ensures Fields(date) == DateOfYear(year as int, dayOfYear as int)
  {
    var shiftedMonth := Div(5 * dayOfYear + 2, 153);
    var day := dayOfYear - Div(153 * shiftedMonth + 2, 5) + 1;
    var month := if shiftedMonth < 10 then shiftedMonth + 3 else shiftedMonth - 9;
    (if month <= 2 then year + 1 else year, month, day)
  }

  function CivilFromDays64(days: Int64): (date: (Int64, Int64, Int64))
    requires Reachable(days)
    ensures Fields(date) == CivilFromDays(days as int)
  {
    hide EraOf, YearOfEra, DayOfYear, DateOfYear, TruncDiv;
    var shifted := days + 719_468;
    var era := Era(shifted);
    var dayOfEra := shifted - era * 146_097;
    var yearOfEra := YearOfEra64(dayOfEra);
    DateOfYear64(yearOfEra + era * 400, DayOfYear64(dayOfEra, yearOfEra))
  }

  /** `format_utc` for every i64: it never overflows and prints what the ideal printer prints. */
  function FormatUtc64(seconds: Int64): (text: string)
    ensures text == FormatUtc(seconds as int)
  {
    var days := seconds / 86_400;
    var rest := seconds % 86_400;
    var date := CivilFromDays64(days);
    FormatFields(Fields(date), (rest / 3_600) as int, (rest % 3_600 / 60) as int, (rest % 60) as int)
  }
}
