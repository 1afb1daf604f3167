/**
 CRC-32 bit by bit (ITU-T V.42, section 8.1.1.6.2): a 32-bit shift register, fed least significant
 bit first. Everything here follows from the one-bit step being linear over xor and invertible.
 */
module CrcRegister {
  import opened Bytes

  const POLY: bv32 := 0xEDB8_8320

  /** Addition of registers, named so that proofs treat it as one symbol. */
  function Plus(a: bv32, b: bv32): bv32 {
    a ^ b
  }

  function Half(c: bv32): bv32 {
    c >> 1
  }

  predicate Odd(c: bv32) {
    c & 1 == 1
  }

  /** One shift; the bit that falls out feeds the polynomial back. */
  function Step(c: bv32): bv32 {
    if Odd(c) then Plus(Half(c), POLY) else Half(c)
  }

  function Steps(c: bv32, n: nat): bv32
    decreases n
  {
    if n == 0 then c else Steps(Step(c), n - 1)
  }

  /** One message bit enters at the low end of the register. */
  function FeedBit(c: bv32, bit: bool): bv32 {
    Step(Plus(c, if bit then 1 else 0))
  }

  function FeedBits(c: bv32, bits: seq<bool>): bv32
    decreases |bits|
  {
    if bits == [] then c else FeedBits(FeedBit(c, bits[0]), bits[1..])
  }

  /** The low `n` bits of `b`, least significant first. */
  function LowBits(b: bv8, n: nat): (bits: seq<bool>)
    ensures |bits| == n
    decreases n
  {
    if n == 0 then [] else [b & 1 == 1] + LowBits(b >> 1, n - 1)
  }

  function FeedByte(c: bv32, b: bv8): bv32 {
    FeedBits(c, LowBits(b, 8))
  }

  function Register(c: bv32, data: seq<bv8>): bv32
    decreases |data|
  {
    if data == [] then c else FeedByte(Register(c, data[..|data| - 1]), data[|data| - 1])
  }

  /** The reference definition that the code is proved against. */
  function Crc(data: seq<bv8>): bv32 {
    Plus(Register(0xFFFF_FFFF, data), 0xFFFF_FFFF)
  }

  // ---- addition ----

  lemma PlusGroup(a: bv32, b: bv32, c: bv32)
    ensures Plus(Plus(a, b), c) == Plus(a, Plus(b, c))
    ensures Plus(a, b) == Plus(b, a)
    ensures Plus(a, 0) == a && Plus(a, a) == 0
  {
  }

  lemma PlusSwap(a: bv32, b: bv32, c: bv32, d: bv32)
    ensures Plus(Plus(a, b), Plus(c, d)) == Plus(Plus(a, c), Plus(b, d))
  {
    hide Plus;
    PlusGroup(a, b, Plus(c, d));
    PlusGroup(b, c, d);
    PlusGroup(c, b, d);
    PlusGroup(a, c, Plus(b, d));
  }

  lemma PlusZero(a: bv32, b: bv32)
    ensures Plus(a, b) == 0 <==> a == b
  {
    hide Plus;
    PlusGroup(a, b, b);
    PlusGroup(b, 0, 0);
    PlusGroup(b, b, b);
  }

  // ---- the step is linear and invertible ----

  lemma HalfLinear(a: bv32, b: bv32)
    ensures Half(Plus(a, b)) == Plus(Half(a), Half(b))
  {
  }

  lemma OddLinear(a: bv32, b: bv32)
    ensures Odd(Plus(a, b)) == (Odd(a) != Odd(b))
  {
  }

  lemma PlusCancel(a: bv32, b: bv32, p: bv32)
    ensures Plus(Plus(a, p), Plus(b, p)) == Plus(a, b)
    ensures Plus(Plus(a, p), b) == Plus(Plus(a, b), p)
    ensures Plus(a, Plus(b, p)) == Plus(Plus(a, b), p)
  {
    hide Plus;
    PlusSwap(a, p, b, p);
    PlusGroup(p, p, p);
    PlusGroup(Plus(a, b), p, p);
    PlusGroup(a, p, b);
    PlusGroup(p, b, b);
    PlusGroup(a, b, p);
  }

  lemma StepLinear(a: bv32, b: bv32)
    ensures Step(Plus(a, b)) == Plus(Step(a), Step(b))
  {
    hide Plus, Half, Odd;
    HalfLinear(a, b);
    OddLinear(a, b);
    PlusCancel(Half(a), Half(b), POLY);
  }

  lemma {:induction false} StepsLinear(a: bv32, b: bv32, n: nat)
    ensures Steps(Plus(a, b), n) == Plus(Steps(a, n), Steps(b, n))
    decreases n
  {
    if n != 0 {
      StepLinear(a, b);
      StepsLinear(Step(a), Step(b), n - 1);
    }
  }

  lemma StepOfNonzero(a: bv32)
    ensures Step(a) == 0 <==> a == 0
  {
  }

  lemma {:induction false} StepsOfNonzero(a: bv32, n: nat)
    ensures Steps(a, n) == 0 <==> a == 0
    decreases n
  {
    if n != 0 {
      StepOfNonzero(a);
      StepsOfNonzero(Step(a), n - 1);
    }
  }

  /** Different registers stay different. */
  lemma StepsInjective(a: bv32, b: bv32, n: nat)
    requires Steps(a, n) == Steps(b, n)
    ensures a == b
  {
    StepsLinear(a, b, n);
    PlusZero(Steps(a, n), Steps(b, n));
    StepsOfNonzero(Plus(a, b), n);
    PlusZero(a, b);
  }

  // ---- a byte at a time ----

  lemma LowDigit(b: bv8)
    ensures b as bv32 == Plus(((b >> 1) as bv32) << 1, if b & 1 == 1 then 1 else 0)
    ensures Step(((b >> 1) as bv32) << 1) == (b >> 1) as bv32
  {
  }

  /** Feeding the bits of a byte one by one is adding the byte and then stepping. */
  lemma {:induction false} FeedLowBits(c: bv32, b: bv8, n: nat)
    requires n <= 8
    requires n == 0 ==> b == 0
    requires n == 1 ==> b < 2
    requires n == 2 ==> b < 4
    requires n == 3 ==> b < 8
    requires n == 4 ==> b < 16
    requires n == 5 ==> b < 32
    requires n == 6 ==> b < 64
    requires n == 7 ==> b < 128
    ensures FeedBits(c, LowBits(b, n)) == Steps(Plus(c, b as bv32), n)
    decreases n
  {
    hide Plus, Step;
    if n == 0 {
      PlusGroup(c, 0, 0);
    } else {
      var low: bv32 := if b & 1 == 1 then 1 else 0;
      var rest := (b >> 1) as bv32;
      var next := FeedBit(c, b & 1 == 1);
      HalfBound(b);
      FeedLowBits(next, b >> 1, n - 1);
      LowDigit(b);
      PlusGroup(c, low, rest << 1);
      PlusGroup(low, rest << 1, 0);
      StepLinear(Plus(c, low), rest << 1);
      assert LowBits(b, n)[1..] == LowBits(b >> 1, n - 1);
    }
  }

  lemma HalfBound(b: bv8)
    ensures b >> 1 < 128
    ensures b < 128 ==> b >> 1 < 64
    ensures b < 64 ==> b >> 1 < 32
    ensures b < 32 ==> b >> 1 < 16
    ensures b < 16 ==> b >> 1 < 8
    ensures b < 8 ==> b >> 1 < 4
    ensures b < 4 ==> b >> 1 < 2
    ensures b < 2 ==> b >> 1 == 0
  {
  }

  lemma FeedByteIsSteps(c: bv32, b: bv8)
    ensures FeedByte(c, b) == Steps(Plus(c, b as bv32), 8)
  {
    FeedLowBits(c, b, 8);
  }

  lemma WidenPlus(a: bv8, b: bv8)
    ensures PlusByte(a, b) as bv32 == Plus(a as bv32, b as bv32)
  {
  }

  lemma FeedByteLinear(c1: bv32, c2: bv32, a: bv8, b: bv8)
    ensures Plus(FeedByte(c1, a), FeedByte(c2, b)) == FeedByte(Plus(c1, c2), PlusByte(a, b))
  {
    FeedByteIsSteps(c1, a);
    FeedByteIsSteps(c2, b);
    FeedByteIsSteps(Plus(c1, c2), PlusByte(a, b));
    StepsLinear(Plus(c1, a as bv32), Plus(c2, b as bv32), 8);
    WidenPlus(a, b);
    PlusSwap(c1, a as bv32, c2, b as bv32);
  }

  // ---- whole messages ----

  lemma {:induction false} RegisterAppend(c: bv32, a: seq<bv8>, b: seq<bv8>)
    ensures Register(c, a + b) == Register(Register(c, a), b)
    decreases |b|
  {
    if b == [] {
      assert a + b == a;
    } else {
      RegisterAppend(c, a, b[..|b| - 1]);
      assert (a + b)[..|a + b| - 1] == a + b[..|b| - 1];
    }
  }

  /** The difference of two registers depends on the difference of the messages alone. */
  lemma {:induction false} RegisterLinear(c1: bv32, c2: bv32, a: seq<bv8>, b: seq<bv8>)
    requires |a| == |b|
    ensures Plus(Register(c1, a), Register(c2, b)) == Register(Plus(c1, c2), Xor(a, b))
    decreases |a|
  {
    if a != [] {
      var n := |a| - 1;
      RegisterLinear(c1, c2, a[..n], b[..n]);
      assert Xor(a, b)[..n] == Xor(a[..n], b[..n]);
      FeedByteLinear(Register(c1, a[..n]), Register(c2, b[..n]), a[n], b[n]);
    }
  }

  /** The CRC of equal-length messages is affine over xor. */
  lemma CrcDifference(a: seq<bv8>, b: seq<bv8>)
    requires |a| == |b|
    ensures Plus(Crc(a), Crc(b)) == Register(0, Xor(a, b))
  {
    var ones: bv32 := 0xFFFF_FFFF;
    RegisterLinear(ones, ones, a, b);
    hide Plus;
    PlusGroup(ones, ones, ones);
    PlusCancel(Register(ones, a), Register(ones, b), ones);
  }

  lemma ZeroByte(c: bv32)
    ensures FeedByte(c, 0) == Steps(c, 8)
  {
    FeedByteIsSteps(c, 0);
    PlusGroup(c, 0, 0);
  }

  /** Equal tails never bring two different registers together, nor part two equal ones. */
  lemma {:induction false} ZerosKeepDifference(c: bv32, n: nat)
    ensures Register(c, Zeros(n)) == 0 <==> c == 0
    decreases n
  {
    if n != 0 {
      ZerosKeepDifference(c, n - 1);
      var before := Register(c, Zeros(n - 1));
      assert Zeros(n)[..n - 1] == Zeros(n - 1);
      ZeroByte(before);
      StepsOfNonzero(before, 8);
    }
  }
}
