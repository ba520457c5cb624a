/** Decimal text: printing, zero padding, reading back, and ordering. */
module Digits {

  const U64_MAX := 0xFFFF_FFFF_FFFF_FFFF

  predicate IsDigit(c: char) {
    '0' <= c <= '9'
  }

  predicate AllDigits(s: string) {
    forall i :: 0 <= i < |s| ==> IsDigit(s[i])
  }

  function Digit(n: nat): (c: char)
    requires n < 10
    ensures IsDigit(c)
  {
    (n + '0' as int) as char
  }

  function DigitValue(c: char): (n: nat)
    requires IsDigit(c)
    ensures n < 10
  {
    c as int - '0' as int
  }

  /** The number a run of digits denotes. */
  function Value(s: string): nat
    requires AllDigits(s)
    decreases |s|
  {
    if s == "" then 0 else 10 * Value(s[..|s| - 1]) + DigitValue(s[|s| - 1])
  }

  /** Decimal text without padding. */
  function Decimal(n: nat): string {
    if n < 10 then [Digit(n)] else Decimal(n / 10) + [Digit(n % 10)]
  }

  function Zeros(n: nat): string {
    if n == 0 then "" else ['0'] + Zeros(n - 1)
  }

  /** Rust's `{n:0width}`: zero padding after the sign. */
  function PadInt(n: int, width: nat): string {
    if n >= 0 then
      var s := Decimal(n); (if |s| < width then Zeros(width - |s|) else "") + s
    else
      var s := Decimal(-n); "-" + (if |s| + 1 < width then Zeros(width - 1 - |s|) else "") + s
  }

  lemma {:induction false} DecimalValue(n: nat)
    ensures AllDigits(Decimal(n)) && Decimal(n) != "" && Value(Decimal(n)) == n
  {
    if n >= 10 {
      DecimalValue(n / 10);
      assert Decimal(n)[..|Decimal(n)| - 1] == Decimal(n / 10);
    }
  }

  lemma {:induction false} ZerosValue(k: nat, s: string)
    requires AllDigits(s)
    ensures |Zeros(k)| == k && AllDigits(Zeros(k) + s) && Value(Zeros(k) + s) == Value(s)
    decreases k
  {
    if k == 0 {
      assert Zeros(0) + s == s;
    } else {
      ZerosValue(k - 1, s);
      hide Value, AllDigits;
      LeadingZero(Zeros(k - 1) + s);
      assert Zeros(k) == ['0'] + Zeros(k - 1);
      JoinThree(['0'], Zeros(k - 1), s);
    }
  }

  lemma JoinThree(a: string, b: string, c: string)
    ensures a + b + c == a + (b + c)
  {
  }

  lemma {:induction false} LeadingZero(s: string)
    requires AllDigits(s)
    ensures AllDigits(['0'] + s) && Value(['0'] + s) == Value(s)
    decreases |s|
  {
    var longer := ['0'] + s;
    if s == "" {
      assert longer[..0] == "";
    } else {
      LeadingZero(s[..|s| - 1]);
      assert longer[..|longer| - 1] == ['0'] + s[..|s| - 1];
    }
  }

  /** A padded number: its sign, then its digits, zeros in front only up to the width. */
  lemma PadIntReads(n: int, width: nat)
    ensures var text, sign := PadInt(n, width), if n < 0 then "-" else "";
            && sign <= text && AllDigits(text[|sign|..]) && Value(text[|sign|..]) == (if n < 0 then -n else n)
            && |text| >= width && (|text| > width ==> text == sign + Decimal(if n < 0 then -n else n))
  {
    var size: nat := if n < 0 then -n else n;
    var sign := if n < 0 then "-" else "";
    var room := if |sign| + |Decimal(size)| < width then width - |sign| - |Decimal(size)| else 0;
    DecimalValue(size);
    ZerosValue(room, Decimal(size));
    PadIntIs(n, width, room);
    hide Decimal, Zeros, PadInt, Value, AllDigits;
    var digits := Zeros(room) + Decimal(size);
    assert (sign + digits)[|sign|..] == digits;
    if room == 0 {
      assert digits == Decimal(size) by {
        NoZeros(Decimal(size));
      }
    }
  }

  lemma NoZeros(s: string)
    ensures Zeros(0) + s == s
  {
  }

  lemma PadIntIs(n: int, width: nat, room: nat)
    requires var size, sign: nat := if n < 0 then -n else n, if n < 0 then 1 else 0;
             room == if sign + |Decimal(size)| < width then width - sign - |Decimal(size)| else 0
    ensures PadInt(n, width) == (if n < 0 then "-" else "") + (Zeros(room) + Decimal(if n < 0 then -n else n))
  {
    hide Decimal;
    NoZeros(Decimal(if n < 0 then -n else n));
    if n >= 0 {
      assert "" + PadInt(n, width) == PadInt(n, width);
    } else {
      assert Zeros(0) == "";
      JoinThree("-", Zeros(room), Decimal(-n));
    }
  }

  lemma {:induction false} DecimalLength(n: nat, k: nat, bound: nat)
    requires k > 0 && bound == Power(10, k)
    ensures |Decimal(n)| <= k <==> n < bound
    decreases k
  {
    if k == 1 {
    } else if n < 10 {
      PowerPositive(k - 1);
    } else {
      DecimalLength(n / 10, k - 1, Power(10, k - 1));
    }
  }

  function Power(b: nat, k: nat): nat {
    if k == 0 then 1 else b * Power(b, k - 1)
  }

  lemma {:induction false} PowerPositive(k: nat)
    ensures Power(10, k) >= 1
  {
    if k > 0 {
      PowerPositive(k - 1);
    }
  }

  lemma TwoDigits(n: nat)
    requires n < 100
    ensures PadInt(n, 2) == [Digit(n / 10), Digit(n % 10)]
  {
    if n < 10 {
      assert Zeros(1) == ['0'];
    } else {
      assert Decimal(n / 10) == [Digit(n / 10)];
    }
  }

  lemma DecimalOf(n: nat)
    ensures n < 10 ==> Decimal(n) == [Digit(n)]
    ensures 10 <= n < 100 ==> Decimal(n) == [Digit(n / 10), Digit(n % 10)]
    ensures n >= 10 ==> Decimal(n) == Decimal(n / 10) + [Digit(n % 10)]
  {
    if 10 <= n < 100 {
      assert Decimal(n / 10) == [Digit(n / 10)];
    }
  }

  lemma FourDigits(n: nat)
    requires n < 10000
    ensures PadInt(n, 4) == [Digit(n / 1000), Digit(n / 100 % 10), Digit(n / 10 % 10), Digit(n % 10)]
  {
    assert Zeros(1) == ['0'] && Zeros(2) == ['0', '0'] && Zeros(3) == ['0', '0', '0'];
    ghost var tens, hundreds := n / 10, n / 100;
    assert tens / 10 == hundreds && hundreds / 10 == n / 1000;
    hide Decimal, Zeros;
    DecimalOf(n);
    if n >= 100 {
      DecimalOf(tens);
      if n >= 1000 {
        DecimalOf(hundreds);
      }
    }
  }

  lemma ValueOfTwo(a: char, b: char)
    requires IsDigit(a) && IsDigit(b)
    ensures AllDigits([a, b]) && Value([a, b]) == 10 * DigitValue(a) + DigitValue(b)
  {
    assert [a, b][..1] == [a] && [a][..0] == "";
    assert Value([a]) == DigitValue(a);
  }

  lemma ValueOfFour(a: char, b: char, c: char, d: char)
    requires IsDigit(a) && IsDigit(b) && IsDigit(c) && IsDigit(d)
    ensures AllDigits([a, b, c, d])
    ensures Value([a, b, c, d]) == 1000 * DigitValue(a) + 100 * DigitValue(b) + 10 * DigitValue(c) + DigitValue(d)
  {
    ValueOfTwo(a, b);
    assert [a, b, c, d][..3] == [a, b, c] && [a, b, c][..2] == [a, b];
    assert Value([a, b, c]) == 10 * Value([a, b]) + DigitValue(c);
  }

  // ----- order -----

  /** Dictionary order on texts. */
  predicate LexLess(a: string, b: string) {
    if b == "" then false
    else if a == "" then true
    else a[0] < b[0] || (a[0] == b[0] && LexLess(a[1..], b[1..]))
  }

  /** The first place where two texts part, the earlier one ending there or going on lower. */
  ghost predicate PartsAt(a: string, b: string, k: nat) {
    k <= |a| && k < |b| && a[..k] == b[..k] && (k == |a| || a[k] < b[k])
  }

  lemma {:induction false} LexLessIff(a: string, b: string)
    ensures LexLess(a, b) <==> exists k: nat :: PartsAt(a, b, k)
    decreases |a|
  {
    if a == "" {
      assert b != "" ==> PartsAt(a, b, 0);
    } else if b != "" {
      LexLessIff(a[1..], b[1..]);
      forall k: nat | a[0] == b[0]
        ensures PartsAt(a, b, k + 1) <==> PartsAt(a[1..], b[1..], k)
      {
        if k <= |a[1..]| && k < |b[1..]| {
          assert a[..k + 1] == [a[0]] + a[1..][..k] && b[..k + 1] == [b[0]] + b[1..][..k];
          assert a[..k + 1][1..] == a[1..][..k] && b[..k + 1][1..] == b[1..][..k];
        }
      }
      PartsFirst(a, b);
      if k: nat :| PartsAt(a, b, k) {
        assert k > 0 ==> PartsAt(a[1..], b[1..], k - 1);
      }
      if a[0] == b[0] && LexLess(a[1..], b[1..]) {
        var k: nat :| PartsAt(a[1..], b[1..], k);
        assert PartsAt(a, b, k + 1);
      }
    }
  }

  lemma PartsFirst(a: string, b: string)
    requires a != "" && b != ""
    ensures a[0] < b[0] ==> PartsAt(a, b, 0)
    ensures forall k: nat :: PartsAt(a, b, k) ==> if k == 0 then a[0] < b[0] else a[0] == b[0]
  {
    forall k: nat | PartsAt(a, b, k)
      ensures if k == 0 then a[0] < b[0] else a[0] == b[0]
    {
      assert k > 0 ==> a[..k][0] == a[0] && b[..k][0] == b[0];
    }
  }

  lemma {:induction false} LexLessAppend(a: string, b: string, c: string, d: string)
    requires |a| == |c|
    ensures LexLess(a + b, c + d) <==> LexLess(a, c) || (a == c && LexLess(b, d))
    decreases |a|
  {
    if a == "" {
      assert a + b == b && c + d == d;
    } else {
      assert (a + b)[1..] == a[1..] + b && (c + d)[1..] == c[1..] + d;
      assert a == c <==> a[0] == c[0] && a[1..] == c[1..] by {
        assert a == [a[0]] + a[1..] && c == [c[0]] + c[1..];
      }
      LexLessAppend(a[1..], b, c[1..], d);
    }
  }

  /** Among digit runs of one length, dictionary order is numeric order. */
  lemma {:induction false} LexLessIsValue(a: string, b: string)
    requires |a| == |b| && AllDigits(a) && AllDigits(b)
    ensures LexLess(a, b) <==> Value(a) < Value(b)
    ensures a == b <==> Value(a) == Value(b)
    decreases |a|
  {
    if a != "" {
      var n := |a| - 1;
      assert a == a[..n] + [a[n]] && b == b[..n] + [b[n]];
      LexLessIsValue(a[..n], b[..n]);
      LexLessAppend(a[..n], [a[n]], b[..n], [b[n]]);
      assert LexLess([a[n]], [b[n]]) <==> a[n] < b[n];
      assert a[..n] == b[..n] && a[n] == b[n] ==> a == b;
    }
  }
}
