// The 32-bit word of an unbounded number, and the number below 2^32 a word stands for: what
// links the counters a record keeps to the numbers a peer compares.
module Serials {
  import opened Words

  // Word arithmetic modulo 2^32, under names the proofs can regroup.
  function Inc(x: bv32): bv32 {
    x + 1
  }

  function PastMargin(x: bv32): bv32 {
    x + 256
  }

  function Half(b: bv32): bv32 {
    b >> 1
  }

  predicate Odd(b: bv32) {
    b & 1 == 1
  }

  // The counter after k increments from 0.
  function Word(k: nat): bv32 {
    if k == 0 then 0 else Inc(Word(k - 1))
  }

  // The number of the low n bits.
  function Low(b: bv32, n: nat): nat
    decreases n
  {
    if n == 0 then 0 else (if Odd(b) then 1 else 0) + 2 * Low(Half(b), n - 1)
  }

  // bat_get32's result.
  function Value(b: bv32): nat {
    Low(b, 32)
  }

  lemma {:induction false} PowPlus(m: nat, n: nat)
    ensures Pow2(m + n) == Pow2(m) * Pow2(n)
  {
    if m > 0 {
      PowPlus(m - 1, n);
      assert 2 * (Pow2(m - 1) * Pow2(n)) == Pow2(m) * Pow2(n);
    }
  }

  lemma Pow32()
    ensures Pow2(32) == TWO32
  {
    assert Pow2(2) == 4;
    PowPlus(2, 2);
    PowPlus(4, 4);
    PowPlus(8, 8);
    PowPlus(16, 16);
  }

  // ---- a word counts modulo 2^32 -----------------------------------------------------------

  const LAST: bv32 := 0xFFFF_FFFF

  // Incrementing: an even number gains its last bit, an odd one carries.
  lemma IncEven(b: bv32)
    requires !Odd(b)
    ensures Odd(Inc(b)) && Half(Inc(b)) == Half(b)
  {
    assert b + 1 == b | 1;
  }

  lemma IncOdd(b: bv32)
    requires Odd(b) && b != LAST
    ensures !Odd(Inc(b)) && Half(Inc(b)) == Inc(Half(b))
  {
  }

  lemma HalfIsLess(b: bv32)
    ensures Half(b) != LAST
  {
  }

  lemma {:induction false} LowInc(b: bv32, n: nat)
    requires b != LAST
    ensures Low(b, n) < Pow2(n)
    ensures Low(Inc(b), n) == if Low(b, n) + 1 == Pow2(n) then 0 else Low(b, n) + 1
    decreases n
  {
    hide Inc, Odd, Half;
    HalfIsLess(b);
    if n > 0 {
      if Odd(b) {
        IncOdd(b);
      } else {
        IncEven(b);
      }
      LowInc(Half(b), n - 1);
    }
  }

  ghost predicate Ones(b: bv32, n: nat)
    decreases n
  {
    n == 0 || (Odd(b) && Ones(Half(b), n - 1))
  }

  lemma {:induction false} LowOfOnes(b: bv32, n: nat)
    requires Ones(b, n)
    ensures Low(b, n) == Pow2(n) - 1
    decreases n
  {
    hide Odd, Half;
    if n > 0 {
      LowOfOnes(Half(b), n - 1);
    }
  }

  lemma LastIsOnes()
    ensures Ones(LAST, 32)
  {
    assert Ones(0x1, 1) && Ones(0x3, 2) && Ones(0x7, 3) && Ones(0xF, 4);
    assert Ones(0x1F, 5) && Ones(0x3F, 6) && Ones(0x7F, 7) && Ones(0xFF, 8);
    assert Ones(0x1FF, 9) && Ones(0x3FF, 10) && Ones(0x7FF, 11) && Ones(0xFFF, 12);
    assert Ones(0x1FFF, 13) && Ones(0x3FFF, 14) && Ones(0x7FFF, 15) && Ones(0xFFFF, 16);
    assert Ones(0x1_FFFF, 17) && Ones(0x3_FFFF, 18) && Ones(0x7_FFFF, 19) && Ones(0xF_FFFF, 20);
    assert Ones(0x1F_FFFF, 21) && Ones(0x3F_FFFF, 22) && Ones(0x7F_FFFF, 23) && Ones(0xFF_FFFF, 24);
    assert Ones(0x1FF_FFFF, 25) && Ones(0x3FF_FFFF, 26) && Ones(0x7FF_FFFF, 27) && Ones(0xFFF_FFFF, 28);
    assert Ones(0x1FFF_FFFF, 29) && Ones(0x3FFF_FFFF, 30) && Ones(0x7FFF_FFFF, 31) && Ones(0xFFFF_FFFF, 32);
  }

  lemma ZeroHalves()
    ensures !Odd(0) && Half(0) == 0 && Inc(LAST) == 0
  {
  }

  lemma {:induction false} LowOfZero(n: nat)
    ensures Low(0, n) == 0
    decreases n
  {
    ZeroHalves();
    hide Odd, Half;
    if n > 0 {
      LowOfZero(n - 1);
    }
  }

  lemma ValueInc(b: bv32)
    ensures Value(b) < TWO32 && Value(Inc(b)) == Wrap32(Value(b) + 1)
  {
    hide Inc, Odd, Half, Low, Pow2, Ones;
    Pow32();
    if b == LAST {
      LastIsOnes();
      LowOfOnes(b, 32);
      LowOfZero(32);
      ZeroHalves();
    } else {
      LowInc(b, 32);
    }
  }

  lemma {:induction false} ValueOfWord(k: nat)
    ensures Value(Word(k)) == Wrap32(k)
  {
    hide Inc, Low;
    if k == 0 {
      LowOfZero(32);
    } else {
      ValueOfWord(k - 1);
      ValueInc(Word(k - 1));
      WrapNext(k - 1);
      hide Value;
    }
  }

  // ---- every word is a number's ------------------------------------------------------------

  lemma BitsTell(b: bv32, c: bv32)
    requires Half(b) == Half(c) && (Odd(b) <==> Odd(c))
    ensures b == c
  {
  }

  // With the bits past n equal, the number tells the words apart.
  lemma {:induction false} LowTells(b: bv32, c: bv32, n: nat)
    requires Past(b, n) == Past(c, n) && Low(b, n) == Low(c, n)
    ensures b == c
    decreases n
  {
    hide Odd, Half;
    if n > 0 {
      LowTells(Half(b), Half(c), n - 1);
      BitsTell(b, c);
    }
  }

  function Past(b: bv32, n: nat): bv32
    decreases n
  {
    if n == 0 then b else Past(Half(b), n - 1)
  }

  function Byte(b: bv32): bv32 {
    b >> 8
  }

  lemma EightHalves(b: bv32)
    ensures Half(Half(Half(Half(Half(Half(Half(Half(b)))))))) == Byte(b)
  {
  }

  lemma PastByte(b: bv32, n: nat)
    requires n >= 8
    ensures Past(b, n) == Past(Byte(b), n - 8)
  {
    EightHalves(b);
    hide Half, Byte;
    var b2 := Half(Half(b));
    var b4 := Half(Half(b2));
    var b6 := Half(Half(b4));
    assert Past(b, n) == Past(b2, n - 2);
    assert Past(b2, n - 2) == Past(b4, n - 4);
    assert Past(b4, n - 4) == Past(b6, n - 6);
    assert Past(b6, n - 6) == Past(Half(Half(b6)), n - 8);
  }

  lemma NoneLeft(b: bv32)
    ensures Byte(Byte(Byte(Byte(b)))) == 0
  {
  }

  lemma NonePast(b: bv32)
    ensures Past(b, 32) == 0
  {
    NoneLeft(b);
    hide Byte, Half;
    PastByte(b, 32);
    PastByte(Byte(b), 24);
    PastByte(Byte(Byte(b)), 16);
    PastByte(Byte(Byte(Byte(b))), 8);
  }

  lemma WordOfValue(b: bv32)
    ensures Word(Value(b)) == b
  {
    ValueInc(b);
    ValueOfWord(Value(b));
    var w := Word(Value(b));
    hide Word, Past, Low;
    NonePast(b);
    NonePast(w);
    LowTells(w, b, 32);
  }

  // ---- 256 further on ------------------------------------------------------------------

  lemma WordOf256()
    ensures Word(256) == PastMargin(Word(0))
  {
    ZeroHalves();
    LowOfZero(23);
    assert Low(0x1, 24) == 1 && Low(0x2, 25) == 2 && Low(0x4, 26) == 4 && Low(0x8, 27) == 8;
    assert Low(0x10, 28) == 16 && Low(0x20, 29) == 32 && Low(0x40, 30) == 64 && Low(0x80, 31) == 128;
    assert Value(0x100) == 256;
    WordOfValue(0x100);
  }

  lemma IncPast(x: bv32)
    ensures PastMargin(Inc(x)) == Inc(PastMargin(x))
  {
  }

  lemma {:induction false} WordPast256(k: nat)
    ensures Word(k + 256) == PastMargin(Word(k))
  {
    hide Inc, PastMargin;
    if k == 0 {
      WordOf256();
    } else {
      WordPast256(k - 1);
      IncPast(Word(k - 1));
    }
  }
}
