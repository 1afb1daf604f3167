/**
 What the CRC detects. A change confined to four neighbouring bytes always changes the CRC; of a
 4096-byte block that carries its own CRC in its last four bytes, one change and one only goes
 unnoticed.
 */
module CrcBursts {
  import opened Bytes
  import opened CrcRegister
  import opened CrcTable

  // ---- four bytes are one word of register ----

  lemma {:induction false} StepsCompose(c: bv32, m: nat, n: nat)
    ensures Steps(Steps(c, m), n) == Steps(c, m + n)
    decreases m
  {
    if m != 0 {
      StepsCompose(Step(c), m - 1, n);
    }
  }

  function Up(x: bv32): bv32 {
    x << 8
  }

  /** Byte `d` moved `k` bytes up the register. */
  function Placed(d: bv8, k: nat): bv32
    requires k < 4
    decreases k
  {
    if k == 0 then d as bv32 else Up(Placed(d, k - 1))
  }

  lemma EightShifts(x: bv32, n: nat)
    requires x & 0xFF00_0000 == 0 && n == 8
    ensures Steps(Up(x), n) == x
  {
    ShiftOut(x);
    Step8IsSteps(x << 8);
  }

  lemma PlacedFits(d: bv8, k: nat)
    requires k < 3
    ensures Placed(d, k) & 0xFF00_0000 == 0
  {
    if k == 2 {
      assert Placed(d, 1) == (d as bv32) << 8;
    }
  }

  /** A byte placed `k` bytes up arrives at the low end after `8 * k` plain shifts. */
  lemma {:induction false} PlacedArrives(d: bv8, k: nat, n: nat)
    requires k < 4 && n == 8 * k
    ensures Steps(Placed(d, k), n) == d as bv32
    decreases k
  {
    if k != 0 {
      PlacedFits(d, k - 1);
      var m := n - 8 * (k - 1);
      EightShifts(Placed(d, k - 1), m);
      PlacedArrives(d, k - 1, n - m);
      StepsCompose(Placed(d, k), m, n - m);
    }
  }

  lemma FeedPlaced(word: bv32, d: bv8, k: nat)
    requires k < 4
    ensures FeedByte(Steps(word, 8 * k), d) == Steps(Plus(word, Placed(d, k)), 8 * k + 8)
  {
    FeedByteIsSteps(Steps(word, 8 * k), d);
    PlacedArrives(d, k, 8 * k);
    StepsLinear(word, Placed(d, k), 8 * k);
    StepsCompose(Plus(word, Placed(d, k)), 8 * k, 8);
  }

  /** The bytes of `w` as one little-endian word. */
  function Word(w: seq<bv8>): bv32
    requires |w| <= 4
  {
    if w == [] then 0 else Plus(Word(w[..|w| - 1]), Placed(w[|w| - 1], |w| - 1))
  }

  lemma {:induction false} WindowIsWord(w: seq<bv8>)
    requires |w| <= 4
    ensures Register(0, w) == Steps(Word(w), 8 * |w|)
    decreases |w|
  {
    hide FeedByte, Placed, Plus, Step;
    if w != [] {
      WindowIsWord(w[..|w| - 1]);
      FeedPlaced(Word(w[..|w| - 1]), w[|w| - 1], |w| - 1);
    }
  }

  function Word4(w0: bv8, w1: bv8, w2: bv8, w3: bv8): bv32 {
    Plus(Plus(Plus(Plus(0, Placed(w0, 0)), Placed(w1, 1)), Placed(w2, 2)), Placed(w3, 3))
  }

  lemma WordOfFour(w: seq<bv8>)
    requires |w| == 4
    ensures Word(w) == Word4(w[0], w[1], w[2], w[3])
  {
    var w1, w2, w3 := w[..1], w[..2], w[..3];
    assert w1[..0] == [] && w2[..1] == w1 && w3[..2] == w2;
    assert Word(w1) == Plus(0, Placed(w[0], 0));
    assert Word(w2) == Plus(Word(w1), Placed(w[1], 1));
    assert Word(w3) == Plus(Word(w2), Placed(w[2], 2));
  }

  lemma Word4OfNonzero(w0: bv8, w1: bv8, w2: bv8, w3: bv8)
    ensures Word4(w0, w1, w2, w3) == 0 <==> w0 == 0 && w1 == 0 && w2 == 0 && w3 == 0
  {
  }

  lemma ZeroWindow(w: seq<bv8>)
    requires |w| == 4
    ensures w == Zeros(4) <==> w[0] == 0 && w[1] == 0 && w[2] == 0 && w[3] == 0
  {
  }

  lemma WindowOfNonzero(w: seq<bv8>)
    requires |w| == 4
    ensures Register(0, w) == 0 <==> w == Zeros(4)
  {
    WindowIsWord(w);
    StepsOfNonzero(Word(w), 8 * |w|);
    WordOfFour(w);
    Word4OfNonzero(w[0], w[1], w[2], w[3]);
    ZeroWindow(w);
  }

  /** `d` is zero outside the four bytes from `k` on. */
  ghost predicate Within(d: seq<bv8>, k: int) {
    forall i | 0 <= i < |d| && !(k <= i < k + 4) :: d[i] == 0
  }

  lemma RegisterOfPadded(w: seq<bv8>, before: nat, after: nat)
    ensures Register(0, Zeros(before) + w + Zeros(after)) == 0 <==> Register(0, w) == 0
  {
    RegisterAppend(0, Zeros(before) + w, Zeros(after));
    RegisterAppend(0, Zeros(before), w);
    ZerosKeepDifference(0, before);
    ZerosKeepDifference(Register(0, w), after);
  }

  /** Four zeros in front leave room for a whole window, wherever it lies. */
  lemma SplitWindow(d: seq<bv8>, k: nat) returns (end: nat, w: seq<bv8>)
    requires Within(d, k) && k <= |d|
    ensures |w| == 4 && end <= |d| && Zeros(4) + d == Zeros(end) + w + Zeros(|d| - end)
    ensures w == Zeros(4) <==> d == Zeros(|d|)
  {
    end := if k + 4 <= |d| then k + 4 else |d|;
    var e := Zeros(4) + d;
    w := e[end..end + 4];
    assert e[..end] == Zeros(end);
    assert e[end + 4..] == Zeros(|d| - end);
    assert e == e[..end] + w + e[end + 4..];
    assert d == e[4..];
    if w == Zeros(4) || d == Zeros(|d|) {
      assert e == Zeros(|d| + 4);
    }
  }

  lemma WindowRegister(d: seq<bv8>, k: nat)
    requires Within(d, k) && k <= |d|
    ensures Register(0, d) == 0 <==> d == Zeros(|d|)
  {
    var end, w := SplitWindow(d, k);
    assert Zeros(4) + d + Zeros(0) == Zeros(4) + d;
    RegisterOfPadded(d, 4, 0);
    RegisterOfPadded(w, end, |d| - end);
    WindowOfNonzero(w);
  }

  /** Messages that differ only within four neighbouring bytes have different CRCs. */
  lemma BurstDetected(a: seq<bv8>, b: seq<bv8>, k: nat)
    requires |a| == |b| && a != b && k <= |a|
    requires forall i | 0 <= i < |a| && !(k <= i < k + 4) :: a[i] == b[i]
    ensures Crc(a) != Crc(b)
  {
    var d := Xor(a, b);
    CrcDifference(a, b);
    assert Within(d, k) by {
      forall i | 0 <= i < |d| && !(k <= i < k + 4) ensures d[i] == 0 {
        SameByte(a[i], b[i]);
      }
    }
    WindowRegister(d, k);
    PlusZero(Crc(a), Crc(b));
    XorIsZero(a, b);
  }

  lemma SameByte(a: bv8, b: bv8)
    ensures PlusByte(a, b) == 0 <==> a == b
  {
  }

  lemma XorIsZero(a: seq<bv8>, b: seq<bv8>)
    requires |a| == |b|
    ensures Xor(a, b) == Zeros(|a|) <==> a == b
  {
    forall i | 0 <= i < |a| ensures Xor(a, b)[i] == 0 <==> a[i] == b[i] {
      SameByte(a[i], b[i]);
    }
    if Xor(a, b) == Zeros(|a|) {
      forall i | 0 <= i < |a| ensures a[i] == b[i] {
        assert Xor(a, b)[i] == Zeros(|a|)[i];
      }
    }
  }

  // ---- windows that reach into the CRC field ----

  lemma OneByteKernel(d: bv32)
    requires d < 0x100
    ensures Spread(d) & 0x0000_00FF == 0 ==> d == 0
  {
  }

  predicate LowHalfClear(c: bv32) {
    c & 0x0000_FFFF == 0
  }

  lemma SpreadKernel(v: bv32, d: bv32)
    requires v & 0xFFFF_FF00 == 0 && d & 0xFFFF_FF00 == 0
    ensures (Spread(v) ^ (Spread(d) >> 8)) & 0x0000_FFFF == 0 ==> (v == 0 && d == 0) || (v == 0x16 && d == 0x61)
  {
  }

  lemma IsLowByte(d: bv32)
    ensures d < 0x100 <==> d & 0xFFFF_FF00 == 0
  {
  }

  lemma LowHalfOfSum(x: bv32, y: bv32)
    ensures LowHalfClear(Plus(x, High(y))) <==> (x ^ (y >> 8)) & 0x0000_FFFF == 0
  {
  }

  lemma SpreadValues()
    ensures Spread(0) == 0 && Spread(0x16) == 0xF4D4_B551 && Spread(0x61) == 0x3AB5_51CE
  {
  }

  lemma KernelValues()
    ensures Plus(0, High(0)) == 0 && Plus(0xF4D4_B551, High(0x3AB5_51CE)) == 0xF4EE_0000
    ensures LowHalfClear(0) && LowHalfClear(0xF4EE_0000)
  {
  }

  lemma TwoByteKernel(v: bv32, d: bv32)
    requires v < 0x100 && d < 0x100
    ensures LowHalfClear(Plus(Spread(v), High(Spread(d)))) <==> (v == 0 && d == 0) || (v == 0x16 && d == 0x61)
  {
    hide Spread, LowHalfClear;
    IsLowByte(v);
    IsLowByte(d);
    SpreadKernel(v, d);
    LowHalfOfSum(Spread(v), Spread(d));
    SpreadValues();
    KernelValues();
  }
}
