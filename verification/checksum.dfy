/**
 The 32-bit operations the checksum is built from, each with the few algebraic
 laws its proofs use. Everything later treats these as opaque symbols, so no
 proof reasons about bit-vectors and recursion at the same time.
*/
module Words {

  type Register = bv32

  function Xor(c: Register, d: Register): Register {
    c ^ d
  }

  function And(c: Register, d: Register): Register {
    c & d
  }

  function Half(c: Register): Register {
    c >> 1
  }

  /** Shift up one place and set the new low bit to `low`. */
  function Double(c: Register, low: bool): Register {
    if low then (c << 1) | 1 else c << 1
  }

  predicate Odd(c: Register) {
    c & 1 == 1
  }

  predicate TopBit(c: Register) {
    c & 0x8000_0000 != 0
  }

  function Invert(c: Register): Register {
    !c
  }

  /** `u32::from(byte)`. */
  function Widen(byte: bv8): Register {
    byte as Register
  }

  function LowByte(c: Register): bv8 {
    (c & 0xFF) as bv8
  }

  function DropByte(c: Register): Register {
    c >> 8
  }

  lemma XorAssociative(a: Register, b: Register, c: Register)
    ensures Xor(Xor(a, b), c) == Xor(a, Xor(b, c))
  {
  }

  lemma XorLaws(a: Register, b: Register)
    ensures Xor(a, b) == Xor(b, a)
    ensures Xor(a, 0) == a && Xor(a, a) == 0
    ensures Xor(Xor(a, b), b) == a
    ensures Xor(a, b) == 0 <==> a == b
  {
  }

  lemma XorSwap(a: Register, b: Register, c: Register, d: Register)
    ensures Xor(Xor(a, b), Xor(c, d)) == Xor(Xor(a, c), Xor(b, d))
  {
    hide Xor;
    XorAssociative(a, b, Xor(c, d));
    XorAssociative(b, c, d);
    XorLaws(b, c);
    XorAssociative(c, b, d);
    XorAssociative(a, c, Xor(b, d));
  }

  lemma XorBytesWiden(x: bv8, y: bv8)
    ensures Widen(x ^ y) == Xor(Widen(x), Widen(y))
  {
  }

  lemma HalfLinear(c: Register, d: Register)
    ensures Half(Xor(c, d)) == Xor(Half(c), Half(d))
  {
  }

  lemma OddLinear(c: Register, d: Register)
    ensures Odd(Xor(c, d)) == (Odd(c) != Odd(d))
  {
  }

  lemma InvertLaws(c: Register)
    ensures Invert(Invert(c)) == c
    ensures Xor(c, Invert(c)) == 0xFFFF_FFFF
  {
  }

  lemma InvertIsXor(c: Register)
    ensures Invert(c) == Xor(c, 0xFFFF_FFFF)
  {
  }

}

/**
 The CRC-32 that ZIP and gzip share: a bit-serial register with a streaming
 seed. `ContinueCrc32` is the nested loop as written; everything proved about
 it goes through the pure register function `Run`.
*/
module Checksum {
  import opened Words

  /** The reflected polynomial. */
  const POLYNOMIAL: Register := 0xEDB8_8320

  /** One shift of the register. */
  function Step(c: Register): Register {
    if Odd(c) then Xor(Half(c), POLYNOMIAL) else Half(c)
  }

  function Steps(c: Register, n: nat): Register
    decreases n
  {
    if n == 0 then c else Steps(Step(c), n - 1)
  }

  /** The register after a whole buffer: xor one byte in, shift eight times. */
  function Run(c: Register, bytes: seq<bv8>): Register
    decreases |bytes|
  {
    if bytes == [] then c else Run(Steps(Xor(c, Widen(bytes[0])), 8), bytes[1..])
  }

  function Continue(seed: Register, bytes: seq<bv8>): Register {
    Invert(Run(Invert(seed), bytes))
  }

  function Crc32Of(bytes: seq<bv8>): Register {
    Continue(0, bytes)
  }

  /** `0_u32.wrapping_sub(crc & 1)`. */
  function LowBitMask(c: Register): Register {
    0 - (c & 1)
  }

  lemma MaskedShiftIsStep(c: Register)
    ensures Xor(Half(c), And(POLYNOMIAL, LowBitMask(c))) == Step(c)
  {
    if c & 1 == 1 {
      assert LowBitMask(c) == 0xFFFF_FFFF;
    } else {
      assert c & 1 == 0;
    }
  }

  lemma StepsUnfold(c: Register, n: nat)
    requires n > 0
    ensures Steps(c, n) == Steps(Step(c), n - 1)
  {
  }

  lemma StepsNone(c: Register)
    ensures Steps(c, 0) == c
  {
  }

  method ContinueCrc32(seed: Register, bytes: seq<bv8>) returns (crc: Register)
    ensures crc == Continue(seed, bytes)
  {
    hide Xor, And, Half, Invert, Widen, LowBitMask, Step, Steps;
    crc := Invert(seed);
    for i := 0 to |bytes|
      invariant Run(Invert(seed), bytes) == Run(crc, bytes[i..])
    {
      crc := Xor(crc, Widen(bytes[i]));
      ghost var loaded := crc;
      for bit := 0 to 8
        invariant Steps(loaded, 8) == Steps(crc, 8 - bit)
      {
        var mask := LowBitMask(crc);
        MaskedShiftIsStep(crc);
        StepsUnfold(crc, 8 - bit);
        crc := Xor(Half(crc), And(POLYNOMIAL, mask));
      }
      StepsNone(crc);
      assert bytes[i..][1..] == bytes[i + 1..];
    }
    assert bytes[|bytes|..] == [];
    crc := Invert(crc);
  }

  method Crc32(bytes: seq<bv8>) returns (crc: Register)
    ensures crc == Crc32Of(bytes)
  {
    crc := ContinueCrc32(0, bytes);
  }

  lemma {:induction false} StepsAdd(c: Register, m: nat, n: nat)
    ensures Steps(c, m + n) == Steps(Steps(c, m), n)
    decreases m
  {
    hide Step;
    if m != 0 {
      StepsAdd(Step(c), m - 1, n);
    }
  }

  lemma {:induction false} RunAppend(c: Register, a: seq<bv8>, b: seq<bv8>)
    ensures Run(c, a + b) == Run(Run(c, a), b)
    decreases |a|
  {
    hide Steps, Xor, Widen;
    if a == [] {
      assert a + b == b;
    } else {
      assert (a + b)[1..] == a[1..] + b;
      RunAppend(Steps(Xor(c, Widen(a[0])), 8), a[1..], b);
    }
  }

  /** Hashing a stream piece by piece is hashing the whole. */
  lemma Streams(seed: Register, a: seq<bv8>, b: seq<bv8>)
    ensures Continue(Continue(seed, a), b) == Continue(seed, a + b)
  {
    hide Invert, Run;
    RunAppend(Invert(seed), a, b);
    InvertLaws(Run(Invert(seed), a));
  }
}
