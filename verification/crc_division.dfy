/**
 The register is long division. Polynomials over GF(2) are lists of coefficients, highest power
 first; a message is the list of its bits, least significant bit of each byte first.
 */
module CrcDivision {
  import opened CrcRegister

  function XorBits(a: seq<bool>, b: seq<bool>): (x: seq<bool>)
    requires |a| == |b|
    ensures |x| == |a|
  {
    seq(|a|, i requires 0 <= i < |a| => a[i] != b[i])
  }

  function Repeat(bit: bool, n: nat): (bits: seq<bool>)
    ensures |bits| == n
  {
    seq(n, i => bit)
  }

  /** The low `n` bits of a register: bit 0 is the coefficient of the highest power. */
  function WordBits(c: bv32, n: nat): (bits: seq<bool>)
    ensures |bits| == n
    decreases n
  {
    if n == 0 then [] else [Odd(c)] + WordBits(Half(c), n - 1)
  }

  /** The generator without its leading x^32. */
  function Generator(): (bits: seq<bool>)
    ensures |bits| == 32
  {
    WordBits(POLY, 32)
  }

  /** The remainder of schoolbook long division by the generator. */
  function Remainder(s: seq<bool>): (r: seq<bool>)
    requires |s| >= 32
    ensures |r| == 32
    decreases |s|
  {
    if |s| == 32 then s
    else if s[0] then Remainder(XorBits(s[1..33], Generator()) + s[33..])
    else Remainder(s[1..])
  }

  function MessageBits(data: seq<bv8>): seq<bool>
    decreases |data|
  {
    if data == [] then [] else MessageBits(data[..|data| - 1]) + LowBits(data[|data| - 1], 8)
  }

  // ---- the register as a list of bits ----

  lemma {:induction false} WordBitsLinear(a: bv32, b: bv32, n: nat)
    ensures WordBits(Plus(a, b), n) == XorBits(WordBits(a, n), WordBits(b, n))
    decreases n
  {
    hide Plus, Half, Odd;
    if n != 0 {
      HalfLinear(a, b);
      OddLinear(a, b);
      WordBitsLinear(Half(a), Half(b), n - 1);
    }
  }

  function Shifted(c: bv32, n: nat): bv32
    decreases n
  {
    if n == 0 then c else Shifted(Half(c), n - 1)
  }

  lemma {:induction false} LastWordBit(c: bv32, n: nat)
    ensures WordBits(c, n + 1) == WordBits(c, n) + [Odd(Shifted(c, n))]
    decreases n
  {
    if n != 0 {
      LastWordBit(Half(c), n - 1);
    }
  }

  lemma {:induction false} ShiftedCompose(c: bv32, m: nat, n: nat)
    ensures Shifted(c, m + n) == Shifted(Shifted(c, m), n)
    decreases m
  {
    if m != 0 {
      ShiftedCompose(Half(c), m - 1, n);
    }
  }

  lemma ShiftedEight(c: bv32)
    ensures Shifted(c, 8) == c >> 8
  {
  }

  lemma ShiftedOut(c: bv32, n: nat)
    requires n == 32
    ensures Shifted(c, n) == 0
  {
    var m := n - 24;
    ShiftedCompose(c, m, m);
    ShiftedCompose(c, m + m, m);
    ShiftedCompose(c, m + m + m, m);
    ShiftedEight(c);
    ShiftedEight(c >> 8);
    ShiftedEight(c >> 16);
    ShiftedEight(c >> 24);
  }

  /** Shifting the register moves every coefficient one power up. */
  lemma ShiftWord(c: bv32, n: nat)
    requires n == 32
    ensures WordBits(Half(c), n) == WordBits(c, n)[1..] + [false]
  {
    LastWordBit(Half(c), n - 1);
    ShiftedOut(c, n);
  }

  lemma StepWord(c: bv32, n: nat)
    requires n == 32
    ensures WordBits(Step(c), n) ==
      if Odd(c) then XorBits(WordBits(c, n)[1..] + [false], Generator()) else WordBits(c, n)[1..] + [false]
  {
    ShiftWord(c, n);
    WordBitsLinear(Half(c), POLY, n);
  }

  lemma {:induction false} ZeroWord(n: nat)
    ensures WordBits(0, n) == Repeat(false, n)
    decreases n
  {
    if n != 0 {
      assert Half(0) == 0;
      ZeroWord(n - 1);
    }
  }

  /** Adding a message bit changes the coefficient of the highest power alone. */
  lemma EnterWord(c: bv32, bit: bool, n: nat)
    requires n == 32
    ensures WordBits(Plus(c, if bit then 1 else 0), n) == [Odd(c) != bit] + WordBits(c, n)[1..]
  {
    var b: bv32 := if bit then 1 else 0;
    WordBitsLinear(c, b, n);
    assert Half(b) == 0;
    ZeroWord(n - 1);
    assert WordBits(b, n) == [bit] + Repeat(false, n - 1);
  }

  // ---- division ----

  /** The coefficients `w` added to the first ones of `s`. */
  function AddFront(w: seq<bool>, s: seq<bool>): (r: seq<bool>)
    requires |w| <= |s|
    ensures |r| == |s|
  {
    XorBits(w, s[..|w|]) + s[|w|..]
  }

  lemma DivideOnce(w: seq<bool>, s: seq<bool>)
    requires |w| == 32 && |s| >= 32
    ensures var next := w[1..] + [false];
      Remainder(AddFront(w, [false] + s)) ==
      Remainder(AddFront(if w[0] then XorBits(next, Generator()) else next, s))
  {
    var t := AddFront(w, [false] + s);
    var next := w[1..] + [false];
    hide Generator, WordBits;
    FrontShifted(w, s);
    hide AddFront;
    if w[0] {
      AddTwice(next, Generator(), s);
      assert t[1..][..32] == t[1..33] && t[1..][32..] == t[33..];
    }
  }

  /** A zero in front of `s` moves the coefficients that are added one place up. */
  lemma FrontShifted(w: seq<bool>, s: seq<bool>)
    requires 1 <= |w| <= |s|
    ensures AddFront(w, [false] + s)[0] == w[0]
    ensures AddFront(w, [false] + s)[1..] == AddFront(w[1..] + [false], s)
  {
    var t, u, next := AddFront(w, [false] + s), AddFront(w[1..] + [false], s), w[1..] + [false];
    forall i | 0 <= i < |s| ensures t[1..][i] == u[i] {
      if i < |w| - 1 {
        assert t[1 + i] == (w[1 + i] != s[i]) && u[i] == (next[i] != s[i]);
      } else if i == |w| - 1 {
        assert u[i] == (next[i] != s[i]);
      }
    }
  }

  /** Coefficients added to the first ones, and others to these again. */
  lemma AddTwice(w: seq<bool>, g: seq<bool>, s: seq<bool>)
    requires |w| == |g| <= |s|
    ensures var t := AddFront(w, s); XorBits(t[..|w|], g) + t[|w|..] == AddFront(XorBits(w, g), s)
  {
    var t := AddFront(w, s);
    var left, right := XorBits(t[..|w|], g) + t[|w|..], AddFront(XorBits(w, g), s);
    forall i | 0 <= i < |s| ensures left[i] == right[i] {
      if i < |w| {
        assert t[i] == (w[i] != s[i]);
        assert left[i] == (t[i] != g[i]) && right[i] == (XorBits(w, g)[i] != s[i]);
      } else {
        assert t[i] == s[i];
      }
    }
  }

  /** A message bit that enters the register is one that is added in front. */
  lemma EnterFront(c: bv32, bit: bool, s: seq<bool>, n: nat)
    requires n == 32 && n <= |s|
    ensures AddFront(WordBits(c, n), [bit] + s)
      == AddFront(WordBits(Plus(c, if bit then 1 else 0), n), [false] + s)
  {
    hide Plus, Half, Odd;
    EnterWord(c, bit, n);
    hide WordBits;
    FirstDiffers(WordBits(c, n), WordBits(Plus(c, if bit then 1 else 0), n), bit, s);
  }

  lemma FirstDiffers(w: seq<bool>, w': seq<bool>, bit: bool, s: seq<bool>)
    requires 1 <= |w| == |w'| <= |s| && w' == [w[0] != bit] + w[1..]
    ensures AddFront(w, [bit] + s) == AddFront(w', [false] + s)
  {
    var left, right := AddFront(w, [bit] + s), AddFront(w', [false] + s);
    forall i | 0 <= i < |left| ensures left[i] == right[i] {
      if i < |w| {
        assert left[i] == (w[i] != ([bit] + s)[i]) && right[i] == (w'[i] != ([false] + s)[i]);
      } else {
        assert left[i] == s[i - 1] && right[i] == s[i - 1];
      }
    }
  }

  /** A step of the register is one turn of the division. */
  lemma StepDivides(c: bv32, s: seq<bool>, n: nat)
    requires n == 32 && n <= |s|
    ensures Remainder(AddFront(WordBits(c, n), [false] + s)) == Remainder(AddFront(WordBits(Step(c), n), s))
  {
    FirstOfWord(c, n);
    hide Step, Odd, Half, Plus, WordBits, AddFront, Remainder, XorBits, Generator;
    StepWord(c, n);
    DivideOnce(WordBits(c, n), s);
  }

  lemma FirstOfWord(c: bv32, n: nat)
    requires n > 0
    ensures WordBits(c, n)[0] == Odd(c)
  {
    hide Odd, Half;
  }

  /** Feeding bits to a register is dividing: what is left is the remainder. */
  lemma {:induction false} FeedIsDivision(c: bv32, bits: seq<bool>, n: nat)
    requires n == 32
    ensures WordBits(FeedBits(c, bits), n) == Remainder(AddFront(WordBits(c, n), bits + Repeat(false, n)))
    decreases |bits|
  {
    if bits == [] {
      FeedNothing(c, n);
    } else {
      hide Plus, Step, WordBits, AddFront, Remainder, Repeat;
      var rest := bits[1..] + Repeat(false, n);
      var entered := Plus(c, if bits[0] then 1 else 0);
      assert bits + Repeat(false, n) == [bits[0]] + rest;
      EnterFront(c, bits[0], rest, n);
      StepDivides(entered, rest, n);
      FeedIsDivision(Step(entered), bits[1..], n);
    }
  }

  lemma FeedNothing(c: bv32, n: nat)
    requires n == 32
    ensures WordBits(FeedBits(c, []), n) == Remainder(AddFront(WordBits(c, n), [] + Repeat(false, n)))
  {
    hide WordBits;
    var w, tail := WordBits(c, n), Repeat(false, n);
    assert [] + tail == tail;
    assert AddFront(w, tail) == w;
  }

  lemma {:induction false} FeedBitsAppend(c: bv32, a: seq<bool>, b: seq<bool>)
    ensures FeedBits(c, a + b) == FeedBits(FeedBits(c, a), b)
    decreases |a|
  {
    if a == [] {
      assert a + b == b;
    } else {
      FeedBitsAppend(FeedBit(c, a[0]), a[1..], b);
      assert (a + b)[1..] == a[1..] + b;
    }
  }

  lemma {:induction false} RegisterFeedsBits(c: bv32, data: seq<bv8>)
    ensures Register(c, data) == FeedBits(c, MessageBits(data))
    decreases |data|
  {
    if data != [] {
      var n := |data| - 1;
      RegisterFeedsBits(c, data[..n]);
      FeedBitsAppend(c, MessageBits(data[..n]), LowBits(data[n], 8));
    }
  }

  lemma {:induction false} WordBitsSplit(c: bv32, m: nat, n: nat)
    ensures WordBits(c, m + n) == WordBits(c, m) + WordBits(Shifted(c, m), n)
    decreases m
  {
    if m != 0 {
      WordBitsSplit(Half(c), m - 1, n);
    }
  }

  /** The low `n` bits, up to eight, of `c` are ones. */
  predicate OnesBelow(c: bv32, n: nat) {
    && (n == 1 ==> c & 0x01 == 0x01) && (n == 2 ==> c & 0x03 == 0x03) && (n == 3 ==> c & 0x07 == 0x07)
    && (n == 4 ==> c & 0x0F == 0x0F) && (n == 5 ==> c & 0x1F == 0x1F) && (n == 6 ==> c & 0x3F == 0x3F)
    && (n == 7 ==> c & 0x7F == 0x7F) && (n == 8 ==> c & 0xFF == 0xFF)
  }

  lemma HalfOnes(c: bv32, n: nat)
    requires 1 <= n <= 8 && OnesBelow(c, n)
    ensures Odd(c) && OnesBelow(Half(c), n - 1)
  {
  }

  lemma {:induction false} OnesWordBits(c: bv32, n: nat)
    requires n <= 8 && OnesBelow(c, n)
    ensures WordBits(c, n) == Repeat(true, n)
    decreases n
  {
    hide OnesBelow, Odd, Half;
    if n != 0 {
      HalfOnes(c, n);
      OnesWordBits(Half(c), n - 1);
      assert [true] + Repeat(true, n - 1) == Repeat(true, n);
    }
  }

  lemma OnesWord(n: nat)
    requires n == 32
    ensures WordBits(0xFFFF_FFFF, n) == Repeat(true, n)
  {
    var ones: bv32 := 0xFFFF_FFFF;
    var m := n - 24;
    FourBytesOfOnes(ones, m);
    OnesWordBits(ones, m);
    OnesWordBits(ones >> 8, m);
    OnesWordBits(ones >> 16, m);
    OnesWordBits(ones >> 24, m);
    hide WordBits, Shifted;
    assert Repeat(true, n) == Repeat(true, m) + (Repeat(true, m) + (Repeat(true, m) + Repeat(true, m)));
  }

  lemma FourBytesOfOnes(ones: bv32, m: nat)
    requires ones == 0xFFFF_FFFF && m == 8
    ensures WordBits(ones, 4 * m)
      == WordBits(ones, m) + (WordBits(ones >> 8, m) + (WordBits(ones >> 16, m) + WordBits(ones >> 24, m)))
  {
    ShiftedEight(ones);
    ShiftedEight(ones >> 8);
    ShiftedEight(ones >> 16);
    hide WordBits, Shifted;
    WordBitsSplit(ones, m, m + m + m);
    WordBitsSplit(ones >> 8, m, m + m);
    WordBitsSplit(ones >> 16, m, m);
  }

  /**
   The CRC is, complemented, the remainder of the message, extended by 32 zero bits and with its
   first 32 bits complemented.
   */
  lemma CrcIsRemainder(data: seq<bv8>, n: nat)
    requires n == 32
    ensures WordBits(Crc(data), n) ==
      XorBits(Repeat(true, n), Remainder(AddFront(Repeat(true, n), MessageBits(data) + Repeat(false, n))))
  {
    hide Plus, Half, Odd, Step;
    var ones: bv32 := 0xFFFF_FFFF;
    RegisterFeedsBits(ones, data);
    FeedIsDivision(ones, MessageBits(data), n);
    OnesWord(n);
    WordBitsLinear(Register(ones, data), ones, n);
  }
}
