/**
 Error detection. The register absorbs a message one bit at a time, least
 significant bit of each byte first; any 32 consecutive bits act on it as one
 word, so no change confined to 32 consecutive bits can leave it unchanged.
*/
module ChecksumBursts {
  import opened Words
  import opened Checksum
  import opened ChecksumAlgebra

  // ----- messages as bits -----

  /** Bit `k` of a byte, counted from the least significant. */
  predicate BitOf(byte: bv8, k: nat)
    decreases k
  {
    if k == 0 then byte & 1 == 1 else BitOf(byte >> 1, k - 1)
  }

  /** Bit `p` of a buffer in transmission order. */
  predicate BitAt(bytes: seq<bv8>, p: nat)
    requires p < 8 * |bytes|
  {
    BitOf(bytes[p / 8], p % 8)
  }

  function LowBits(byte: bv8, n: nat): (bits: seq<bool>)
    ensures |bits| == n
    decreases n
  {
    if n == 0 then [] else [byte & 1 == 1] + LowBits(byte >> 1, n - 1)
  }

  function MessageBits(bytes: seq<bv8>): (bits: seq<bool>)
    ensures |bits| == 8 * |bytes|
    decreases |bytes|
  {
    if bytes == [] then [] else LowBits(bytes[0], 8) + MessageBits(bytes[1..])
  }

  lemma {:induction false} LowBitsAt(byte: bv8, n: nat, k: nat)
    requires k < n
    ensures LowBits(byte, n)[k] == BitOf(byte, k)
    decreases n
  {
    if k != 0 {
      LowBitsAt(byte >> 1, n - 1, k - 1);
    }
  }

  lemma {:induction false} MessageBitsAt(bytes: seq<bv8>, p: nat)
    requires p < 8 * |bytes|
    ensures MessageBits(bytes)[p] == BitAt(bytes, p)
    decreases |bytes|
  {
    hide BitOf, LowBits;
    if p < 8 {
      LowBitsAt(bytes[0], 8, p);
    } else {
      MessageBitsAt(bytes[1..], p - 8);
      assert p / 8 == (p - 8) / 8 + 1 && p % 8 == (p - 8) % 8;
    }
  }

  lemma {:induction false} BitOfXor(x: bv8, y: bv8, k: nat)
    ensures BitOf(x ^ y, k) == (BitOf(x, k) != BitOf(y, k))
    decreases k
  {
    if k == 0 {
      assert (x ^ y) & 1 == (x & 1) ^ (y & 1);
    } else {
      hide BitOf;
      BitOfStep(x, k); BitOfStep(y, k); BitOfStep(x ^ y, k);
      assert (x ^ y) >> 1 == (x >> 1) ^ (y >> 1);
      BitOfXor(x >> 1, y >> 1, k - 1);
    }
  }

  lemma BitOfStep(byte: bv8, k: nat)
    requires k > 0
    ensures BitOf(byte, k) == BitOf(byte >> 1, k - 1)
  {
  }

  // ----- words as bits -----

  /** The word whose low bits are `bits`, first bit lowest. */
  function Pack(bits: seq<bool>): Register
    decreases |bits|
  {
    if bits == [] then 0 else Double(Pack(bits[1..]), bits[0])
  }

  /** A word with nothing above its `n` low bits. */
  predicate Fits(c: Register, n: nat)
    decreases n
  {
    if n == 0 then c == 0 else Fits(Half(c), n - 1)
  }

  lemma HalfOfZero()
    ensures Half(0) == 0
  {
  }

  lemma {:induction false} FitsWider(c: Register, n: nat)
    requires Fits(c, n)
    ensures Fits(c, n + 1)
    decreases n
  {
    hide Half;
    if n == 0 {
      HalfOfZero();
    } else {
      FitsWider(Half(c), n - 1);
    }
  }

  lemma {:induction false} FitsBelowTop(c: Register, n: nat)
    requires Fits(c, n) && n <= 31
    ensures !TopBit(c)
    decreases 31 - n
  {
    if n == 31 {
      FitsAllButTop(c);
    } else {
      hide Fits, TopBit;
      FitsWider(c, n);
      FitsBelowTop(c, n + 1);
    }
  }

  lemma {:induction false} FitsAfterHalves(c: Register, n: nat, m: nat)
    requires Fits(c, n) && m <= n
    ensures Fits(Halves(c, m), n - m)
    decreases m
  {
    hide Half;
    if m != 0 {
      FitsAfterHalves(Half(c), n - 1, m - 1);
    }
  }

  lemma TopByteFits(c: Register)
    requires Fits(DropByte(DropByte(DropByte(c))), 7)
    ensures !TopBit(c)
  {
  }

  lemma FitsAllButTop(c: Register)
    requires Fits(c, 31)
    ensures !TopBit(c)
  {
    hide Fits, Halves, DropByte;
    FitsAfterHalves(c, 31, 8);
    EightHalves(c);
    FitsAfterHalves(DropByte(c), 23, 8);
    EightHalves(DropByte(c));
    FitsAfterHalves(DropByte(DropByte(c)), 15, 8);
    EightHalves(DropByte(DropByte(c)));
    TopByteFits(c);
  }

  lemma {:induction false} PackFits(bits: seq<bool>)
    requires |bits| <= 32
    ensures Fits(Pack(bits), |bits|)
    ensures |bits| < 32 ==> !TopBit(Pack(bits))
    decreases |bits|
  {
    hide Double, Half, TopBit;
    if bits != [] {
      PackFits(bits[1..]);
      DoubleThenHalf(Pack(bits[1..]), bits[0]);
    }
    if |bits| < 32 {
      FitsBelowTop(Pack(bits), |bits|);
    }
  }

  lemma DoubleIsZero(c: Register, low: bool)
    requires !TopBit(c)
    ensures Double(c, low) == 0 <==> c == 0 && !low
  {
  }

  /** Only the all-clear window packs to zero. */
  lemma {:induction false} PackZero(bits: seq<bool>)
    requires |bits| <= 32 && Pack(bits) == 0
    ensures forall i :: 0 <= i < |bits| ==> !bits[i]
    decreases |bits|
  {
    hide Double, TopBit;
    if bits != [] {
      PackFits(bits[1..]);
      DoubleIsZero(Pack(bits[1..]), bits[0]);
      PackZero(bits[1..]);
      assert forall i :: 1 <= i < |bits| ==> bits[i] == bits[1..][i - 1];
    }
  }

  // ----- the bit-serial register -----

  function Unit(bit: bool): Register {
    if bit then 1 else 0
  }

  function BitRun(c: Register, bits: seq<bool>): Register
    decreases |bits|
  {
    if bits == [] then c else BitRun(Step(Xor(c, Unit(bits[0]))), bits[1..])
  }

  lemma {:induction false} BitRunAppend(c: Register, a: seq<bool>, b: seq<bool>)
    ensures BitRun(c, a + b) == BitRun(BitRun(c, a), b)
    decreases |a|
  {
    hide Step, Xor, Unit;
    if a == [] {
      assert a + b == b;
    } else {
      assert (a + b)[1..] == a[1..] + b;
      BitRunAppend(Step(Xor(c, Unit(a[0]))), a[1..], b);
    }
  }

  lemma DoubleSplits(c: Register, low: bool)
    ensures Double(c, low) == Xor(Unit(low), Double(c, false))
  {
  }

  /** A word waits above the low bit until it has been shifted down. */
  lemma StepOfDouble(c: Register, word: Register, low: bool)
    requires !TopBit(word)
    ensures Step(Xor(c, Double(word, low))) == Xor(Step(Xor(c, Unit(low))), word)
  {
    DoubleSplits(word, low);
    DoubleThenHalf(word, false);
    assert Step(Double(word, false)) == word by {
      hide Xor, Double, Half, Odd;
    }
    hide Xor, Double, Half, Odd, Unit, TopBit, Step;
    XorAssociative(c, Unit(low), Double(word, false));
    StepLinear(Xor(c, Unit(low)), Double(word, false));
  }

  /** Up to 32 consecutive bits act on the register as the one word they pack to. */
  lemma {:induction false} WindowIsWord(c: Register, bits: seq<bool>)
    requires |bits| <= 32
    ensures BitRun(c, bits) == Steps(Xor(c, Pack(bits)), |bits|)
    decreases |bits|
  {
    hide Xor, Double, TopBit, Step, Unit;
    if bits == [] {
      XorLaws(c, 0);
    } else {
      var word := Pack(bits[1..]);
      PackFits(bits[1..]);
      StepOfDouble(c, word, bits[0]);
      WindowIsWord(Step(Xor(c, Unit(bits[0]))), bits[1..]);
    }
  }

  predicate FitsByte(byte: bv8, n: nat)
    decreases n
  {
    if n == 0 then byte == 0 else FitsByte(byte >> 1, n - 1)
  }

  lemma WidenStep(byte: bv8)
    ensures Double(Widen(byte >> 1), byte & 1 == 1) == Widen(byte)
    ensures Widen(0) == 0
  {
  }

  lemma {:induction false} PackOfByte(byte: bv8, n: nat)
    requires FitsByte(byte, n)
    ensures Pack(LowBits(byte, n)) == Widen(byte)
    decreases n
  {
    hide Double, Widen;
    WidenStep(byte);
    if n != 0 {
      PackOfByte(byte >> 1, n - 1);
      assert LowBits(byte, n)[1..] == LowBits(byte >> 1, n - 1);
    }
  }

  lemma EveryByteFits(byte: bv8)
    ensures FitsByte(byte, 8)
  {
  }

  /** Loading a byte and shifting eight times is feeding its eight bits. */
  lemma {:induction false} RunIsBitRun(c: Register, bytes: seq<bv8>)
    ensures Run(c, bytes) == BitRun(c, MessageBits(bytes))
    decreases |bytes|
  {
    hide Xor, Widen, Steps, LowBits, FitsByte, BitRun, Pack;
    if bytes == [] {
      BitRunNone(c);
    } else {
      var bits := LowBits(bytes[0], 8);
      EveryByteFits(bytes[0]);
      PackOfByte(bytes[0], 8);
      WindowIsWord(c, bits);
      BitRunAppend(c, bits, MessageBits(bytes[1..]));
      RunIsBitRun(Steps(Xor(c, Widen(bytes[0])), 8), bytes[1..]);
    }
  }

  lemma BitRunNone(c: Register)
    ensures BitRun(c, []) == c
  {
  }

  // ----- bursts -----

  lemma StepOfZero()
    ensures Step(0) == 0
  {
  }

  lemma {:induction false} StepsKeepNonzero(c: Register, n: nat)
    ensures Steps(c, n) == 0 <==> c == 0
    decreases n
  {
    hide Step, Unstep;
    if n != 0 {
      StepOfZero();
      UnstepInverts(c);
      UnstepInverts(0);
      StepsKeepNonzero(Step(c), n - 1);
    }
  }

  lemma {:induction false} QuietBits(c: Register, bits: seq<bool>)
    requires forall i :: 0 <= i < |bits| ==> !bits[i]
    ensures BitRun(c, bits) == Steps(c, |bits|)
    decreases |bits|
  {
    hide Step, Xor;
    if bits != [] {
      XorLaws(c, 0);
      QuietBits(Step(c), bits[1..]);
    }
  }

  lemma WindowIsSeen(window: seq<bool>, k: nat)
    requires k < |window| <= 32 && window[k]
    ensures BitRun(0, window) != 0
  {
    hide BitRun, Pack, Steps, Xor;
    WindowIsWord(0, window);
    XorLaws(Pack(window), 0);
    XorLaws(0, Pack(window));
    if Pack(window) == 0 {
      PackZero(window);
      assert false;
    }
    StepsKeepNonzero(Pack(window), |window|);
  }

  lemma QuietAroundWindow(before: seq<bool>, window: seq<bool>, after: seq<bool>)
    requires forall i :: 0 <= i < |before| ==> !before[i]
    requires forall i :: 0 <= i < |after| ==> !after[i]
    requires BitRun(0, window) != 0
    ensures BitRun(0, before + (window + after)) != 0
  {
    hide BitRun, Steps;
    BitRunAppend(0, before, window + after);
    QuietBits(0, before);
    StepsKeepNonzero(0, |before|);
    BitRunAppend(0, window, after);
    QuietBits(BitRun(0, window), after);
    StepsKeepNonzero(BitRun(0, window), |after|);
  }

  /** A zero register notices any nonempty pattern confined to 32 consecutive bits. */
  lemma BurstIsSeen(bits: seq<bool>, from: nat, seen: nat)
    requires forall i :: 0 <= i < |bits| && !(from <= i < from + 32) ==> !bits[i]
    requires seen < |bits| && bits[seen]
    ensures BitRun(0, bits) != 0
  {
    hide BitRun;
    var to := if from + 32 <= |bits| then from + 32 else |bits|;
    var before, window, after := bits[..from], bits[from..to], bits[to..];
    WindowIsSeen(window, seen - from);
    QuietAroundWindow(before, window, after);
    assert bits == before + (window + after);
  }

  lemma XorByteZero(x: bv8, y: bv8)
    ensures x ^ y == 0 ==> x == y
  {
  }

  lemma NonzeroByteHasBit(byte: bv8)
    requires byte != 0
    ensures exists k :: 0 <= k < 8 && BitOf(byte, k)
  {
    assert || BitOf(byte, 0) || BitOf(byte, 1) || BitOf(byte, 2) || BitOf(byte, 3)
           || BitOf(byte, 4) || BitOf(byte, 5) || BitOf(byte, 6) || BitOf(byte, 7);
  }

  /**
   Burst detection: two different buffers of one length whose differing bits lie
   within 32 consecutive positions never share a checksum, whatever the seed.
  */
  lemma DetectsBursts(seed: Register, a: seq<bv8>, b: seq<bv8>, from: nat)
    requires |a| == |b| && a != b
    requires forall p :: 0 <= p < 8 * |a| && !(from <= p < from + 32) ==> BitAt(a, p) == BitAt(b, p)
    ensures Continue(seed, a) != Continue(seed, b)
  {
    hide Run, Xor, Invert, BitOf, MessageBits, BitRun;
    var difference := XorBytes(a, b);
    var bits := MessageBits(difference);
    forall p | 0 <= p < 8 * |a|
      ensures bits[p] == (BitAt(a, p) != BitAt(b, p))
    {
      MessageBitsAt(difference, p);
      BitOfXor(a[p / 8], b[p / 8], p % 8);
    }
    var j :| 0 <= j < |a| && a[j] != b[j];
    XorByteZero(a[j], b[j]);
    NonzeroByteHasBit(difference[j]);
    var k :| 0 <= k < 8 && BitOf(difference[j], k);
    assert (8 * j + k) / 8 == j && (8 * j + k) % 8 == k;
    MessageBitsAt(difference, 8 * j + k);
    BurstIsSeen(bits, from, 8 * j + k);
    RunIsBitRun(0, difference);
    var start := Invert(seed);
    XorLaws(start, 0);
    RunLinear(start, start, a, b);
    XorLaws(Run(start, a), Run(start, b));
    InvertLaws(Run(start, a));
    InvertLaws(Run(start, b));
  }

  // ----- four bytes steer the register anywhere -----

  function DropBytes(c: Register, n: nat): Register
    decreases n
  {
    if n == 0 then c else DropBytes(DropByte(c), n - 1)
  }

  /** The `n` low bytes of a word, little-endian. */
  function LittleEndian(c: Register, n: nat): (bytes: seq<bv8>)
    ensures |bytes| == n
    decreases n
  {
    if n == 0 then [] else [LowByte(c)] + LittleEndian(DropByte(c), n - 1)
  }

  lemma AbsorbByte(c: Register, word: Register)
    ensures Steps(Xor(c, word), 8) == Xor(Steps(Xor(c, Widen(LowByte(word))), 8), DropByte(word))
  {
    hide Xor, Widen, LowByte, DropByte, Steps, LowClear, Halves;
    var low, high := Widen(LowByte(word)), word & 0xFFFF_FF00;
    SplitLowByte(word);
    XorAssociative(c, low, high);
    StepsLinear(Xor(c, low), high, 8);
    HighBytesShiftOut(word);
    StepsShiftOut(high, 8);
    EightHalves(high);
  }

  lemma {:induction false} AbsorbBytes(c: Register, word: Register, n: nat)
    ensures Steps(Xor(c, word), 8 * n) == Xor(Run(c, LittleEndian(word, n)), DropBytes(word, n))
    decreases n
  {
    hide Xor, Widen, LowByte, DropByte, Steps;
    if n == 0 {
      StepsNone(Xor(c, word));
    } else {
      var c' := Steps(Xor(c, Widen(LowByte(word))), 8);
      StepsAdd(Xor(c, word), 8, 8 * (n - 1));
      AbsorbByte(c, word);
      AbsorbBytes(c', DropByte(word), n - 1);
      assert LittleEndian(word, n)[1..] == LittleEndian(DropByte(word), n - 1);
    }
  }

  lemma FourBytesAreAWord(word: Register)
    ensures DropBytes(word, 4) == 0
  {
  }

  /** Four little-endian bytes act on the register as one word. */
  lemma RunOfWord(c: Register, word: Register)
    ensures Run(c, LittleEndian(word, 4)) == Steps(Xor(c, word), 32)
  {
    hide Xor, Steps, Run, LittleEndian, DropBytes;
    AbsorbBytes(c, word, 4);
    FourBytesAreAWord(word);
    XorLaws(Run(c, LittleEndian(word, 4)), 0);
  }

  /** The four bytes that lead from one checksum to another. */
  function FourBytesTo(seed: Register, target: Register): seq<bv8> {
    LittleEndian(Xor(Unsteps(Invert(target), 32), Invert(seed)), 4)
  }

  /** For any seed and any checksum, exactly one four-byte input leads there. */
  lemma FourBytesReachExactly(seed: Register, target: Register, bytes: seq<bv8>)
    requires |bytes| == 4
    ensures Continue(seed, bytes) == target <==> bytes == FourBytesTo(seed, target)
  {
    hide Xor, Steps, Unsteps, Run, Invert, LittleEndian, BitAt;
    var start, end := Invert(seed), Unsteps(Invert(target), 32);
    RunOfWord(start, Xor(end, start));
    XorLaws(start, Xor(end, start));
    XorLaws(end, start);
    UnstepsInverts(Invert(target), 32);
    InvertLaws(target);
    if bytes != FourBytesTo(seed, target) {
      DetectsBursts(seed, bytes, FourBytesTo(seed, target), 0);
    }
  }

  // ----- the residue -----

  const RESIDUE: Register := 0x2144_DF1C

  lemma ResidueOfOnes()
    ensures Invert(Steps(0xFFFF_FFFF, 32)) == RESIDUE
  {
    hide Steps;
    StepsOfOnes();
    StepsAdd(0xFFFF_FFFF, 8, 24);
    StepsAdd(0x2DFD_1072, 8, 16);
    StepsAdd(0xBE26_ED00, 8, 8);
    StepsAdd(0x00BE_26ED, 8, 0);
    StepsNone(0xDEBB_20E3);
  }

  lemma StepsOfOnes()
    ensures Steps(0xFFFF_FFFF, 8) == 0x2DFD_1072
    ensures Steps(0x2DFD_1072, 8) == 0xBE26_ED00
    ensures Steps(0xBE26_ED00, 8) == 0x00BE_26ED
    ensures Steps(0x00BE_26ED, 8) == 0xDEBB_20E3
  {
  }

  /**
   A message followed by four bytes checks to the constant exactly when those
   bytes are the message's own checksum, little-endian.
  */
  lemma ResidueIffOwnChecksum(seed: Register, message: seq<bv8>, trailer: seq<bv8>)
    requires |trailer| == 4
    ensures Continue(seed, message + trailer) == RESIDUE
       <==> trailer == LittleEndian(Continue(seed, message), 4)
  {
    hide Xor, Steps, Run, Invert, LittleEndian, Continue, FourBytesTo;
    var sum := Continue(seed, message);
    Streams(seed, message, trailer);
    RunOfWord(Invert(sum), sum);
    XorLaws(Invert(sum), sum);
    InvertLaws(sum);
    ResidueOfOnes();
    ContinueIs(sum, LittleEndian(sum, 4));
    FourBytesReachExactly(sum, RESIDUE, LittleEndian(sum, 4));
    FourBytesReachExactly(sum, RESIDUE, trailer);
  }

  lemma ContinueIs(seed: Register, bytes: seq<bv8>)
    ensures Continue(seed, bytes) == Invert(Run(Invert(seed), bytes))
  {
  }

  /** A known answer: the checksum of the digits "123456789". */
  lemma PublishedCheckValue()
    ensures Crc32Of([0x31, 0x32, 0x33, 0x34, 0x35, 0x36, 0x37, 0x38, 0x39]) == 0xCBF4_3926
  {
    var message: seq<bv8> := [0x31, 0x32, 0x33, 0x34, 0x35, 0x36, 0x37, 0x38, 0x39];
    hide Run, Steps;
    assert message[0..] == message && message[9..] == [];
    assert forall i :: 0 <= i < 9 ==> message[i..][1..] == message[i + 1..];
    KnownSteps();
    AbsorbKnown(0xFFFF_FFFF, message[0..], 0xFFFF_FFCE, 0x7C23_1048);
    AbsorbKnown(0x7C23_1048, message[1..], 0x7C23_107A, 0xB0AC_BB32);
    AbsorbKnown(0xB0AC_BB32, message[2..], 0xB0AC_BB01, 0x77B7_9C2D);
    AbsorbKnown(0x77B7_9C2D, message[3..], 0x77B7_9C19, 0x641C_1F5C);
    AbsorbKnown(0x641C_1F5C, message[4..], 0x641C_1F69, 0x340A_C5E3);
    AbsorbKnown(0x340A_C5E3, message[5..], 0x340A_C5D5, 0xF68D_2C9E);
    AbsorbKnown(0xF68D_2C9E, message[6..], 0xF68D_2CA9, 0xAFFC_9660);
    AbsorbKnown(0xAFFC_9660, message[7..], 0xAFFC_9658, 0x651F_2550);
    AbsorbKnown(0x651F_2550, message[8..], 0x651F_2569, 0x340B_C6D9);
    RunNone(0x340B_C6D9);
  }

  lemma KnownSteps()
    ensures Steps(0xFFFF_FFCE, 8) == 0x7C23_1048
    ensures Steps(0x7C23_107A, 8) == 0xB0AC_BB32
    ensures Steps(0xB0AC_BB01, 8) == 0x77B7_9C2D
    ensures Steps(0x77B7_9C19, 8) == 0x641C_1F5C
    ensures Steps(0x641C_1F69, 8) == 0x340A_C5E3
    ensures Steps(0x340A_C5D5, 8) == 0xF68D_2C9E
    ensures Steps(0xF68D_2CA9, 8) == 0xAFFC_9660
    ensures Steps(0xAFFC_9658, 8) == 0x651F_2550
    ensures Steps(0x651F_2569, 8) == 0x340B_C6D9
  {
  }

  lemma AbsorbKnown(c: Register, bytes: seq<bv8>, loaded: Register, next: Register)
    requires |bytes| > 0 && Xor(c, Widen(bytes[0])) == loaded && Steps(loaded, 8) == next
    ensures Run(c, bytes) == Run(next, bytes[1..])
  {
    hide Steps, Xor, Widen;
  }

  lemma RunNone(c: Register)
    ensures Run(c, []) == c
  {
  }
}
