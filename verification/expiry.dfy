/**
 Deadlines of plans: the fixed-width UTC text with its parser and printer, and
 the comparison with a clock, in which whatever cannot be read counts as past. A
 text is its UTF-8 bytes, one per character.
*/
module Expiry {
  import opened Wrappers
  import opened Digits
  import opened Calendar

  /** `number`: a nonempty run of ASCII digits. The slices it reads are at most four long. */
  function Number(text: string): Option<int> {
    if text != "" && AllDigits(text) then Some(Value(text)) else None
  }

  predicate Separated(text: string) {
    && |text| == 24
    && text[4] == '-' && text[7] == '-' && text[10] == 'T'
    && text[13] == ':' && text[16] == ':' && text[19] == '.' && text[23] == 'Z'
  }

  /** The instant a text denotes, in seconds since the epoch; `None` for any other shape. */
  function ParseUtcSeconds(text: string): Option<int> {
    if !Separated(text) then None
    else
      match (Number(text[0..4]), Number(text[5..7]), Number(text[8..10]),
             Number(text[11..13]), Number(text[14..16]), Number(text[17..19]), Number(text[20..23]))
      case (Some(year), Some(month), Some(day), Some(hour), Some(minute), Some(second), Some(_)) =>
        if !(1 <= month <= 12) || !(1 <= day <= 31) then None
        else if hour > 23 || minute > 59 || second > 60 then None
        else if day > DaysInMonth(year, month) then None
        else Some(DaysFromCivil(Date(year, month, day)) * 86400 + hour * 3600 + minute * 60 + second)
      case _ => None
  }

  function FormatUtc(seconds: int): string {
    var days := seconds / 86400;
    var rest := seconds % 86400;
    var date := CivilFromDays(days);
    FormatFields(date, rest / 3600, rest % 3600 / 60, rest % 60)
  }

  function FormatFields(date: Date, hour: int, minute: int, second: int): string {
    Assemble(PadInt(date.year, 4), PadInt(date.month, 2), PadInt(date.day, 2),
             PadInt(hour, 2), PadInt(minute, 2), PadInt(second, 2))
  }

  // ----- what the printer writes -----

  predicate ClockFields(hour: int, minute: int, second: int) {
    0 <= hour < 24 && 0 <= minute < 60 && 0 <= second < 60
  }

  function Assemble(year: string, month: string, day: string, hour: string, minute: string, second: string): string {
    year + "-" + month + "-" + day + "T" + hour + ":" + minute + ":" + second + ".000Z"
  }

  /** Where each field sits when every field has its fixed width. */
  lemma AssembledSlices(year: string, month: string, day: string, hour: string, minute: string, second: string)
    requires |year| == 4 && |month| == |day| == |hour| == |minute| == |second| == 2
    ensures var text := Assemble(year, month, day, hour, minute, second);
            && Separated(text)
            && text[0..4] == year && text[5..7] == month && text[8..10] == day
            && text[11..13] == hour && text[14..16] == minute && text[17..19] == second && text[20..23] == "000"
  {
  }

  lemma DigitRoundTrip(n: nat)
    requires n < 10
    ensures DigitValue(Digit(n)) == n
  {
  }

  lemma NumberOfTwo(n: nat)
    requires n < 100
    ensures |PadInt(n, 2)| == 2 && Number(PadInt(n, 2)) == Some(n)
  {
    TwoDigits(n);
    ValueOfTwo(Digit(n / 10), Digit(n % 10));
    DigitRoundTrip(n / 10); DigitRoundTrip(n % 10);
  }

  lemma FourPlaces(n: nat)
    requires n < 10000
    ensures n == 1000 * (n / 1000) + 100 * (n / 100 % 10) + 10 * (n / 10 % 10) + n % 10
  {
    var tens, hundreds := n / 10, n / 100;
    assert hundreds == tens / 10 && n / 1000 == hundreds / 10;
  }

  lemma NumberOfFour(n: nat)
    requires n < 10000
    ensures |PadInt(n, 4)| == 4 && Number(PadInt(n, 4)) == Some(n)
  {
    FourDigits(n);
    hide Digit, DigitValue, PadInt;
    ValueOfFour(Digit(n / 1000), Digit(n / 100 % 10), Digit(n / 10 % 10), Digit(n % 10));
    DigitRoundTrip(n / 1000); DigitRoundTrip(n / 100 % 10); DigitRoundTrip(n / 10 % 10); DigitRoundTrip(n % 10);
    FourPlaces(n);
  }

  /** What the parser answers once every field has been read. */
  lemma ParseFields(text: string, date: Date, hour: int, minute: int, second: int)
    requires Separated(text) && Number(text[20..23]).Some?
    requires Number(text[0..4]) == Some(date.year) && Number(text[5..7]) == Some(date.month)
    requires Number(text[8..10]) == Some(date.day) && Number(text[11..13]) == Some(hour)
    requires Number(text[14..16]) == Some(minute) && Number(text[17..19]) == Some(second)
    requires Valid(date) && hour <= 23 && minute <= 59 && second <= 60
    ensures ParseUtcSeconds(text) == Some(DaysFromCivil(date) * 86400 + hour * 3600 + minute * 60 + second)
  {
    hide Number, DaysFromCivil, IsLeap;
  }

  /** Printed fields parse back to the instant they name. */
  lemma ParseOfFormat(date: Date, hour: int, minute: int, second: int)
    requires Valid(date) && 0 <= date.year <= 9999 && ClockFields(hour, minute, second)
    ensures ParseUtcSeconds(FormatFields(date, hour, minute, second))
         == Some(DaysFromCivil(date) * 86400 + hour * 3600 + minute * 60 + second)
  {
    hide PadInt, Number, IsLeap, DaysFromCivil, ParseUtcSeconds, Assemble;
    NumberOfFour(date.year); NumberOfTwo(date.month); NumberOfTwo(date.day);
    NumberOfTwo(hour); NumberOfTwo(minute); NumberOfTwo(second);
    ThreeZeros();
    AssembledSlices(PadInt(date.year, 4), PadInt(date.month, 2), PadInt(date.day, 2),
                    PadInt(hour, 2), PadInt(minute, 2), PadInt(second, 2));
    ParseFields(FormatFields(date, hour, minute, second), date, hour, minute, second);
  }

  lemma ThreeZeros()
    ensures Number("000") == Some(0)
  {
    ValueOfTwo('0', '0');
    assert "000"[..2] == ['0', '0'];
  }

  /** Years outside 0000-9999 print a text the parser refuses. */
  lemma WideYearRefused(date: Date, hour: int, minute: int, second: int)
    requires Valid(date) && !(0 <= date.year <= 9999) && ClockFields(hour, minute, second)
    ensures ParseUtcSeconds(FormatFields(date, hour, minute, second)) == None
  {
    var text := FormatFields(date, hour, minute, second);
    var year := PadInt(date.year, 4);
    TwoDigits(date.month); TwoDigits(date.day);
    TwoDigits(hour); TwoDigits(minute); TwoDigits(second);
    assert Power(10, 4) == 10000;
    if date.year > 9999 {
      DecimalLength(date.year, 4, 10000);
      assert |year| > 4;
    } else {
      DecimalValue(-date.year);
      assert year[0] == '-' && |year| >= 2;
    }
    hide PadInt, IsLeap, DaysFromCivil;
    assert |text| == |year| + 20;
    assert text[0] == year[0];
    if |year| == 4 {
      assert text[0..4][0] == '-';
      assert !AllDigits(text[0..4]);
    }
  }

  lemma SplitSeconds(seconds: int)
    ensures var days, rest := seconds / 86400, seconds % 86400;
            && ClockFields(rest / 3600, rest % 3600 / 60, rest % 60)
            && seconds == days * 86400 + rest / 3600 * 3600 + rest % 3600 / 60 * 60 + rest % 60
  {
    var rest := seconds % 86400;
    assert rest % 60 == rest % 3600 % 60 by {
      assert rest == 3600 * (rest / 3600) + rest % 3600;
    }
  }

  const FIRST_SECOND := -62_167_219_200
  const LAST_SECOND := 253_402_300_799

  lemma YearsInRange(days: int)
    ensures 0 <= CivilFromDays(days).year <= 9999 <==> FIRST_SECOND / 86400 <= days <= LAST_SECOND / 86400
  {
    hide CivilFromDays, Valid, IsLeap;
    var d := CivilFromDays(days);
    CivilThenDays(days);
    RangeEnds();
    hide DaysFromCivil;
    if Before(d, Date(0, 1, 1)) { DayCountOrders(d, Date(0, 1, 1)); }
    if Before(Date(0, 1, 1), d) { DayCountOrders(Date(0, 1, 1), d); }
    if Before(d, Date(9999, 12, 31)) { DayCountOrders(d, Date(9999, 12, 31)); }
    if Before(Date(9999, 12, 31), d) { DayCountOrders(Date(9999, 12, 31), d); }
    assert 0 <= d.year <==> !Before(d, Date(0, 1, 1)) by { assert ValidMonthDay(d) by { ValidHasMonthDay(d); } }
    assert d.year <= 9999 <==> !Before(Date(9999, 12, 31), d) by { ValidHasMonthDay(d); }
  }

  predicate ValidMonthDay(d: Date) {
    1 <= d.month <= 12 && 1 <= d.day <= 31
  }

  lemma ValidHasMonthDay(d: Date)
    requires Valid(d)
    ensures ValidMonthDay(d)
  {
  }

  lemma RangeEnds()
    ensures Valid(Date(0, 1, 1)) && DaysFromCivil(Date(0, 1, 1)) == FIRST_SECOND / 86400
    ensures Valid(Date(9999, 12, 31)) && DaysFromCivil(Date(9999, 12, 31)) == LAST_SECOND / 86400
  {
  }

  /**
   The printer and parser are inverse on exactly the years 0000-9999; outside
   them what is printed is refused.
  */
  lemma FormatThenParse(seconds: int)
    ensures ParseUtcSeconds(FormatUtc(seconds))
         == if FIRST_SECOND <= seconds <= LAST_SECOND then Some(seconds) else None
  {
    hide CivilFromDays, DaysFromCivil, ParseUtcSeconds, FormatFields, Valid;
    var days, rest := seconds / 86400, seconds % 86400;
    SplitSeconds(seconds);
    CivilThenDays(days);
    YearsInRange(days);
    if 0 <= CivilFromDays(days).year <= 9999 {
      ParseOfFormat(CivilFromDays(days), rest / 3600, rest % 3600 / 60, rest % 60);
    } else {
      WideYearRefused(CivilFromDays(days), rest / 3600, rest % 3600 / 60, rest % 60);
    }
  }

  // ----- order -----

  /** The six fields of a separated text whose digits are digits. */
  predicate Digital(text: string) {
    && Separated(text)
    && AllDigits(text[0..4]) && AllDigits(text[5..7]) && AllDigits(text[8..10])
    && AllDigits(text[11..13]) && AllDigits(text[14..16]) && AllDigits(text[17..19])
  }

  function DateOf(text: string): Date
    requires Digital(text)
  {
    Date(Value(text[0..4]), Value(text[5..7]), Value(text[8..10]))
  }

  function HourOf(text: string): int
    requires Digital(text)
  {
    Value(text[11..13])
  }

  function MinuteOf(text: string): int
    requires Digital(text)
  {
    Value(text[14..16])
  }

  function SecondOf(text: string): int
    requires Digital(text)
  {
    Value(text[17..19])
  }

  lemma ReadsFields(text: string)
    ensures ParseUtcSeconds(text).Some?
       <==> && Digital(text) && AllDigits(text[20..23]) && Valid(DateOf(text))
            && HourOf(text) <= 23 && MinuteOf(text) <= 59 && SecondOf(text) <= 60
    ensures ParseUtcSeconds(text).Some? ==>
              ParseUtcSeconds(text).value
              == DaysFromCivil(DateOf(text)) * 86400 + HourOf(text) * 3600 + MinuteOf(text) * 60 + SecondOf(text)
  {
    hide IsLeap, DaysFromCivil, Value, AllDigits;
    assert forall year, month :: DaysInMonth(year, month) <= 31;
  }

  /** A run of so many digits. */
  predicate DigitRun(text: string, n: nat) {
    |text| == n && forall c :: c in text ==> '0' <= c <= '9'
  }

  /** The fields of a deadline as they are written. */
  datatype Written = Written(
    year: string, month: string, day: string, hour: string, minute: string, second: string, millis: string)

  predicate Fielded(w: Written) {
    && DigitRun(w.year, 4) && DigitRun(w.month, 2) && DigitRun(w.day, 2)
    && DigitRun(w.hour, 2) && DigitRun(w.minute, 2) && DigitRun(w.second, 2) && DigitRun(w.millis, 3)
  }

  function Spelled(w: Written): string {
    w.year + "-" + w.month + "-" + w.day + "T" + w.hour + ":" + w.minute + ":" + w.second + "." + w.millis + "Z"
  }

  lemma RunIsDigits(text: string, n: nat)
    ensures DigitRun(text, n) <==> |text| == n && AllDigits(text)
  {
    if |text| == n && AllDigits(text) {
      forall c | c in text
        ensures '0' <= c <= '9'
      {
        var i :| 0 <= i < |text| && text[i] == c;
      }
    }
    if DigitRun(text, n) {
      assert forall i :: 0 <= i < |text| ==> text[i] in text;
    }
  }

  function WrittenIn(text: string): Written
    requires |text| == 24
  {
    Written(text[0..4], text[5..7], text[8..10], text[11..13], text[14..16], text[17..19], text[20..23])
  }

  lemma SpelledSlices(w: Written)
    requires Fielded(w)
    ensures Separated(Spelled(w)) && WrittenIn(Spelled(w)) == w
  {
    hide DigitRun;
    RunLength(w);
  }

  lemma RunLength(w: Written)
    requires Fielded(w)
    ensures |w.year| == 4 && |w.month| == |w.day| == |w.hour| == |w.minute| == |w.second| == 2 && |w.millis| == 3
  {
  }

  lemma SeparatedIsSpelled(text: string)
    requires Separated(text)
    ensures text == Spelled(WrittenIn(text))
  {
  }

  lemma FieldedIff(text: string)
    requires |text| == 24
    ensures Fielded(WrittenIn(text)) && Separated(text) <==> Digital(text) && AllDigits(text[20..23])
  {
    hide DigitRun, AllDigits;
    var w := WrittenIn(text);
    RunIsDigits(w.year, 4);
    RunIsDigits(w.month, 2); RunIsDigits(w.day, 2);
    RunIsDigits(w.hour, 2); RunIsDigits(w.minute, 2); RunIsDigits(w.second, 2);
    RunIsDigits(w.millis, 3);
  }

  /** Written fields that name an instant. */
  ghost predicate Denotes(w: Written, instant: int) {
    && Fielded(w) && AllFields(w)
    && var date := Date(Value(w.year), Value(w.month), Value(w.day));
    && Valid(date) && Value(w.hour) <= 23 && Value(w.minute) <= 59 && Value(w.second) <= 60
    && instant == DaysFromCivil(date) * 86400 + Value(w.hour) * 3600 + Value(w.minute) * 60 + Value(w.second)
  }

  predicate AllFields(w: Written) {
    && AllDigits(w.year) && AllDigits(w.month) && AllDigits(w.day)
    && AllDigits(w.hour) && AllDigits(w.minute) && AllDigits(w.second)
  }

  /** Which texts are accepted, and what they denote. */
  lemma AcceptsIff(text: string, instant: int)
    ensures ParseUtcSeconds(text) == Some(instant) <==> exists w :: text == Spelled(w) && Denotes(w, instant)
  {
    hide ParseUtcSeconds, DaysFromCivil, Valid, Value, AllDigits, Spelled, Fielded;
    ReadsFields(text);
    if ParseUtcSeconds(text) == Some(instant) {
      FieldedIff(text);
      SeparatedIsSpelled(text);
      assert Denotes(WrittenIn(text), instant);
    }
    if w :| text == Spelled(w) && Denotes(w, instant) {
      SpelledSlices(w);
      FieldedIff(text);
    }
  }

  lemma FieldThenRest(a: string, x: string, b: string, y: string, separator: char)
    requires |a| == |b| && AllDigits(a) && AllDigits(b)
    ensures LexLess(a + ([separator] + x), b + ([separator] + y))
       <==> Value(a) < Value(b) || (Value(a) == Value(b) && LexLess(x, y))
  {
    LexLessIsValue(a, b);
    LexLessAppend(a, [separator] + x, b, [separator] + y);
    LexLessAppend([separator], x, [separator], y);
  }

  predicate ClockBefore(t: string, u: string)
    requires Digital(t) && Digital(u)
  {
    HourOf(t) < HourOf(u) || (HourOf(t) == HourOf(u)
    && (MinuteOf(t) < MinuteOf(u) || (MinuteOf(t) == MinuteOf(u) && SecondOf(t) < SecondOf(u))))
  }

  lemma Fields(t: string)
    requires Digital(t)
    ensures t[..19] == t[0..4] + (['-'] + t[5..19]) && t[5..19] == t[5..7] + (['-'] + t[8..19])
    ensures t[8..19] == t[8..10] + (['T'] + t[11..19]) && t[11..19] == t[11..13] + ([':'] + t[14..19])
    ensures t[14..19] == t[14..16] + ([':'] + t[17..19])
  {
    hide AllDigits;
  }

  lemma ClockOrder(t: string, u: string)
    requires Digital(t) && Digital(u)
    ensures LexLess(t[11..19], u[11..19]) <==> ClockBefore(t, u)
  {
    hide Value, AllDigits, LexLess;
    Fields(t);
    Fields(u);
    FieldThenRest(t[11..13], t[14..19], u[11..13], u[14..19], ':');
    FieldThenRest(t[14..16], t[17..19], u[14..16], u[17..19], ':');
    LexLessIsValue(t[17..19], u[17..19]);
  }

  lemma DateOrder(t: string, u: string)
    requires Digital(t) && Digital(u)
    ensures LexLess(t[..19], u[..19])
       <==> Before(DateOf(t), DateOf(u)) || (DateOf(t) == DateOf(u) && LexLess(t[11..19], u[11..19]))
  {
    hide Value, AllDigits, LexLess;
    Fields(t);
    Fields(u);
    FieldThenRest(t[0..4], t[5..19], u[0..4], u[5..19], '-');
    FieldThenRest(t[5..7], t[8..19], u[5..7], u[8..19], '-');
    FieldThenRest(t[8..10], t[11..19], u[8..10], u[11..19], 'T');
  }

  /**
   Dictionary order of the first nineteen characters is exactly instant order,
   for accepted texts that name no leap second.
  */
  lemma TextOrderIsTimeOrder(t: string, u: string)
    requires ParseUtcSeconds(t).Some? && ParseUtcSeconds(u).Some?
    requires t[17..19] != "60" && u[17..19] != "60"
    ensures LexLess(t[..19], u[..19]) <==> ParseUtcSeconds(t).value < ParseUtcSeconds(u).value
  {
    hide ParseUtcSeconds, LexLess, DaysFromCivil, Valid, Value;
    ReadsFields(t);
    ReadsFields(u);
    SixtyIsSixty(t);
    SixtyIsSixty(u);
    DateOrder(t, u);
    ClockOrder(t, u);
    if Before(DateOf(t), DateOf(u)) { DayCountOrders(DateOf(t), DateOf(u)); }
    if Before(DateOf(u), DateOf(t)) { DayCountOrders(DateOf(u), DateOf(t)); }
  }

  lemma SixtyIsSixty(t: string)
    requires Digital(t)
    ensures SecondOf(t) == 60 <==> t[17..19] == "60"
  {
    ValueOfTwo('6', '0');
    assert "60" == ['6', '0'];
    LexLessIsValue(t[17..19], "60");
  }

  /** A leap second denotes the instant one minute after its own `:00`. */
  lemma LeapSecondIsNextMinute(t: string)
    requires ParseUtcSeconds(t).Some? && t[17..19] == "60"
    ensures ParseUtcSeconds(t[..17] + "00" + t[19..]).Some?
    ensures ParseUtcSeconds(t).value == ParseUtcSeconds(t[..17] + "00" + t[19..]).value + 60
  {
    var u := t[..17] + "00" + t[19..];
    hide IsLeap, DaysFromCivil;
    ReadsFields(t);
    SixtyIsSixty(t);
    assert Separated(u) && u[0..4] == t[0..4] && u[5..7] == t[5..7] && u[8..10] == t[8..10];
    assert u[11..13] == t[11..13] && u[14..16] == t[14..16] && u[17..19] == "00" && u[20..23] == t[20..23];
    ValueOfTwo('0', '0');
    assert "00" == ['0', '0'];
    hide Value, AllDigits;
    ParseFields(u, DateOf(t), HourOf(t), MinuteOf(t), 0);
  }

  // ----- deadlines -----

  /** A wall clock as `duration_since(UNIX_EPOCH)` sees it: an error, or whole seconds in a u64. */
  datatype Clock = BeforeEpoch | At(seconds: nat)

  const I64_MAX := 0x7FFF_FFFF_FFFF_FFFF

  predicate RealClock(now: Clock) {
    now.At? ==> now.seconds <= U64_MAX
  }

  /** `i64::try_from(seconds).unwrap_or(i64::MAX)`. */
  function Clamped(seconds: nat): (clamped: int)
    ensures 0 <= clamped <= I64_MAX && (seconds <= I64_MAX ==> clamped == seconds)
  {
    if seconds <= I64_MAX then seconds else I64_MAX
  }

  predicate HasExpired(expiresAt: string, now: Clock) {
    match ParseUtcSeconds(expiresAt)
    case None => true
    case Some(deadline) =>
      match now
      case BeforeEpoch => true
      case At(seconds) => Clamped(seconds) > deadline
  }

  function SaturatingAdd(a: int, b: int): (sum: int)
    ensures -I64_MAX - 1 <= sum <= I64_MAX && (-I64_MAX - 1 <= a + b <= I64_MAX ==> sum == a + b)
  {
    if a + b > I64_MAX then I64_MAX else if a + b < -I64_MAX - 1 then -I64_MAX - 1 else a + b
  }

  function DeadlineIn(seconds: nat, now: Clock): string {
    match now
    case BeforeEpoch => FormatUtc(0)
    case At(elapsed) => FormatUtc(SaturatingAdd(Clamped(elapsed), if seconds <= I64_MAX then seconds else 0))
  }

  /** The last second a deadline made now still allows. */
  function LastValidSecond(seconds: nat, now: Clock): int {
    match now
    case BeforeEpoch => 0
    case At(elapsed) => elapsed + (if seconds <= I64_MAX then seconds else 0)
  }

  /**
   A deadline is unexpired at every second up to and including its last, and
   expired at every later one, exactly when that second is within year 9999;
   otherwise the plan has expired at once.
  */
  lemma DeadlineHoldsUntil(seconds: nat, now: Clock, later: Clock)
    requires RealClock(now) && RealClock(later) && seconds <= U64_MAX
    ensures HasExpired(DeadlineIn(seconds, now), later)
       <==> later.BeforeEpoch? || LastValidSecond(seconds, now) > LAST_SECOND
            || later.seconds > LastValidSecond(seconds, now)
  {
    hide FormatUtc, ParseUtcSeconds;
    FormatThenParse(0);
    if now.At? {
      FormatThenParse(SaturatingAdd(Clamped(now.seconds), if seconds <= I64_MAX then seconds else 0));
    }
  }
}
