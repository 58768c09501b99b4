// The CRC register of main/bat/bat_crc32c.c: the CRC-32C polynomial of section 12.1 of
// RFC 3720, bits reflected, without a final exclusive or.
module Crc32c {
  const POLY: bv32 := 0x82F63B78

  // Exclusive or under a name of its own, for the lemmas that only regroup.
  function Xor(x: bv32, y: bv32): bv32 {
    x ^ y
  }

  // One bit through the register.
  function Step(c: bv32): bv32 {
    (c >> 1) ^ Tap(c)
  }

  function Tap(c: bv32): bv32 {
    if c & 1 == 1 then POLY else 0
  }

  function Steps(c: bv32, n: nat): bv32
    decreases n
  {
    if n == 0 then c else Steps(Step(c), n - 1)
  }

  function ByteSteps(c: bv32): bv32 {
    Steps(c, 8)
  }

  function Crc(c: bv32, p: seq<bv8>): bv32
    decreases |p|
  {
    if p == [] then c else Crc(ByteSteps(Xor(c, p[0] as bv32)), p[1..])
  }

  method BatCrc32c(crc: bv32, p: seq<bv8>) returns (r: bv32)
    ensures r == Crc(crc, p)
  {
    hide Step, Tap;
    r := crc;
    var i := 0;
    while i < |p|
      invariant 0 <= i <= |p|
      invariant Crc(r, p[i..]) == Crc(crc, p)
    {
      ghost var c := Xor(r, p[i] as bv32);
      r := r ^ (p[i] as bv32);
      for k := 0 to 8
        invariant Steps(r, 8 - k) == Steps(c, 8)
      {
        MaskIsStep(r);
        r := (r >> 1) ^ (POLY & (0 - (r & 1)));
      }
      assert p[i..] == [p[i]] + p[i + 1..];
      i := i + 1;
    }
    assert p[i..] == [];
  }

  // ---- the register on known bytes ----------------------------------------------------

  function Eight(c: bv32): bv32 {
    Step(Step(Step(Step(Step(Step(Step(Step(c))))))))
  }

  lemma EightIs(c: bv32)
    ensures ByteSteps(c) == Eight(c)
  {
    hide Step;
  }

  lemma CrcByte(c: bv32, b: bv8, rest: seq<bv8>, r: bv32)
    requires Eight(Xor(c, b as bv32)) == r
    ensures Crc(c, [b] + rest) == Crc(r, rest)
  {
    EightIs(Xor(c, b as bv32));
    CrcFirst(c, b, rest);
    hide Eight, ByteSteps, Crc;
  }

  // Three bytes.
  lemma CrcThree(c: bv32, b0: bv8, b1: bv8, b2: bv8, r0: bv32, r1: bv32, r2: bv32, rest: seq<bv8>)
    requires Eight(Xor(c, b0 as bv32)) == r0 && Eight(Xor(r0, b1 as bv32)) == r1 && Eight(Xor(r1, b2 as bv32)) == r2
    ensures Crc(c, [b0, b1, b2] + rest) == Crc(r2, rest)
  {
    assert [b0, b1, b2] + rest == [b0] + ([b1] + ([b2] + rest));
    hide Crc, Eight, Xor;
    CrcByte(c, b0, [b1] + ([b2] + rest), r0);
    CrcByte(r0, b1, [b2] + rest, r1);
    CrcByte(r1, b2, rest, r2);
  }

  // The nine digits, from an empty register.
  lemma CheckDigits(s: seq<bv8>)
    requires s == [0x31, 0x32, 0x33, 0x34, 0x35, 0x36, 0x37, 0x38, 0x39]
    ensures Crc(0, s) == 0x58E3_FA20
  {
    var v: seq<bv8> := [0x37, 0x38, 0x39];
    var w := [0x34, 0x35, 0x36] + v;
    assert s == [0x31, 0x32, 0x33] + w;
    assert v == [0x37, 0x38, 0x39] + [];
    assert Crc(0x58E3_FA20, []) == 0x58E3_FA20;
    hide Crc;
    CrcThree(0, 0x31, 0x32, 0x33, 0xC288_CAB2, 0x8234_B3B2, 0x701F_8CC8, w);
    CrcThree(0x701F_8CC8, 0x34, 0x35, 0x36, 0xBE5D_BF29, 0x5DA3_5500, 0x161F_0D0C, v);
    CrcThree(0x161F_0D0C, 0x37, 0x38, 0x39, 0xA97C_FD87, 0xECAF_3210, 0x58E3_FA20, []);
  }

  // ---- the register is linear and forgets nothing --------------------------------

  lemma ShiftLinear(x: bv32, y: bv32)
    ensures (x ^ y) >> 1 == (x >> 1) ^ (y >> 1)
    ensures (x ^ y) & 1 == (x & 1) ^ (y & 1)
    ensures x & 1 == 0 || x & 1 == 1
  {
  }

  lemma TapLinear(x: bv32, y: bv32)
    ensures Tap(x ^ y) == Tap(x) ^ Tap(y)
  {
    ShiftLinear(x, y);
    ShiftLinear(y, x);
  }

  lemma Regroup(a: bv32, b: bv32, c: bv32, d: bv32)
    ensures (a ^ b) ^ (c ^ d) == (a ^ c) ^ (b ^ d)
  {
  }

  lemma StepLinear(x: bv32, y: bv32)
    ensures Step(x ^ y) == Step(x) ^ Step(y)
  {
    ShiftLinear(x, y);
    TapLinear(x, y);
    hide Tap;
    Regroup(x >> 1, Tap(x), y >> 1, Tap(y));
  }

  lemma MaskIsStep(c: bv32)
    ensures (c >> 1) ^ (POLY & (0 - (c & 1))) == Step(c)
  {
  }

  lemma StepInjective(x: bv32, y: bv32)
    requires Step(x) == Step(y)
    ensures x == y
  {
  }

  lemma {:induction false} StepsInjective(x: bv32, y: bv32, n: nat)
    requires Steps(x, n) == Steps(y, n)
    ensures x == y
    decreases n
  {
    if n > 0 {
      StepsInjective(Step(x), Step(y), n - 1);
      StepInjective(x, y);
    }
  }

  // Different registers stay different whatever common bytes follow.
  lemma {:induction false} CrcInjective(x: bv32, y: bv32, p: seq<bv8>)
    requires Crc(x, p) == Crc(y, p)
    ensures x == y
    decreases |p|
  {
    hide Xor, ByteSteps;
    if p != [] {
      CrcInjective(ByteSteps(Xor(x, p[0] as bv32)), ByteSteps(Xor(y, p[0] as bv32)), p[1..]);
      ByteInjective(x, y, p[0] as bv32);
    }
  }

  lemma ByteInjective(x: bv32, y: bv32, b: bv32)
    requires ByteSteps(Xor(x, b)) == ByteSteps(Xor(y, b))
    ensures x == y
  {
    hide Step;
    StepsInjective(Xor(x, b), Xor(y, b), 8);
    XorCancels(x, y, b);
  }

  lemma XorCancels(x: bv32, y: bv32, z: bv32)
    requires Xor(x, z) == Xor(y, z)
    ensures x == y
  {
  }

  lemma StepXor(x: bv32, y: bv32)
    ensures Step(Xor(x, y)) == Xor(Step(x), Step(y))
  {
    StepLinear(x, y);
  }

  lemma {:induction false} StepsXor(x: bv32, y: bv32, n: nat)
    ensures Steps(Xor(x, y), n) == Xor(Steps(x, n), Steps(y, n))
    decreases n
  {
    hide Step, Tap, Xor;
    if n > 0 {
      StepXor(x, y);
      StepsXor(Step(x), Step(y), n - 1);
    }
  }

  // ---- words, high byte first -----------------------------------------------------

  function Half(y: bv32): bv32 {
    y >> 1
  }

  predicate Even(y: bv32) {
    y & 1 == 0
  }

  lemma EvenSteps(y: bv32, n: nat)
    requires Even(y) && n > 0
    ensures Steps(y, n) == Steps(Half(y), n - 1)
  {
    assert Step(y) == y >> 1;
  }

  lemma LowByteHalves(y: bv32)
    requires y & 0xFF == 0
    ensures Even(y) && Even(Half(y)) && Even(Half(Half(y))) && Even(Half(Half(Half(y))))
    ensures
      var z := Half(Half(Half(Half(y))));
      Even(z) && Even(Half(z)) && Even(Half(Half(z))) && Even(Half(Half(Half(z))))
      && Half(Half(Half(Half(z)))) == y >> 8
  {
  }

  // A value without low byte passes through a byte's steps as a shift by eight.
  lemma EightSteps(y: bv32, n: nat)
    requires y & 0xFF == 0 && n == 8
    ensures Steps(y, n) == y >> 8
  {
    LowByteHalves(y);
    hide *;
    var z := Half(Half(Half(Half(y))));
    EvenSteps(y, n);
    EvenSteps(Half(y), n - 1);
    EvenSteps(Half(Half(y)), n - 2);
    EvenSteps(Half(Half(Half(y))), n - 3);
    EvenSteps(z, n - 4);
    EvenSteps(Half(z), n - 5);
    EvenSteps(Half(Half(z)), n - 6);
    EvenSteps(Half(Half(Half(z))), n - 7);
    NoSteps(Half(Half(Half(Half(z)))), n - 8);
  }

  lemma NoSteps(y: bv32, n: nat)
    requires n == 0
    ensures Steps(y, n) == y
  {
  }

  // The byte behind others waits in the bits they do not use.
  lemma NextByte(x: bv32, w: bv32, n: nat)
    requires w < 0x1000000 && n == 8
    ensures Xor(Steps(x, n), w) == Steps(Xor(x, w << 8), n)
  {
    StepsXor(x, w << 8, n);
    ByteUp(w);
    EightSteps(w << 8, n);
    hide *;
  }

  lemma ByteUp(w: bv32)
    requires w < 0x1000000
    ensures (w << 8) & 0xFF == 0 && (w << 8) >> 8 == w
  {
  }

  function ByteAt3(w: bv32): bv32 { (w >> 24) & 0xFF }
  function ByteAt2(w: bv32): bv32 { (w >> 16) & 0xFF }
  function ByteAt1(w: bv32): bv32 { (w >> 8) & 0xFF }
  function ByteAt0(w: bv32): bv32 { w & 0xFF }
  function Up(w: bv32): bv32 { w << 8 }

  function Be(w: bv32): seq<bv8> {
    [ByteAt3(w) as bv8, ByteAt2(w) as bv8, ByteAt1(w) as bv8, ByteAt0(w) as bv8]
  }

  // The word as the register sees it, its first byte in the low bits.
  function Le(w: bv32): bv32 {
    Xor(ByteAt3(w), Up(Tail2(w)))
  }

  function Tail2(w: bv32): bv32 {
    Xor(ByteAt2(w), Up(Tail1(w)))
  }

  function Tail1(w: bv32): bv32 {
    Xor(ByteAt1(w), Up(ByteAt0(w)))
  }

  lemma TailsFit(w: bv32)
    ensures Tail1(w) < 0x1000000 && Tail2(w) < 0x1000000 && ByteAt0(w) < 0x1000000
  {
  }

  lemma LeInjective(v: bv32, w: bv32)
    requires Le(v) == Le(w)
    ensures v == w
  {
  }

  lemma XorAssoc(x: bv32, y: bv32, z: bv32)
    ensures Xor(x, Xor(y, z)) == Xor(Xor(x, y), z)
  {
  }

  lemma XorSwap(x: bv32, y: bv32, z: bv32)
    ensures Xor(Xor(x, y), z) == Xor(Xor(x, z), y)
  {
    XorAssoc(x, y, z);
    XorAssoc(x, z, y);
    assert Xor(y, z) == Xor(z, y);
    hide Xor;
  }

  lemma XorComm(x: bv32, y: bv32)
    ensures Xor(x, y) == Xor(y, x)
  {
  }

  lemma XorNone(x: bv32)
    ensures Xor(x, 0) == x
  {
  }

  lemma XorSame(x: bv32, y: bv32)
    ensures Xor(x, y) == x <==> y == 0
  {
  }

  // A register holding a byte b and a tail behind it, b taken in.
  lemma Absorb(x: bv32, b: bv32, t: bv32)
    requires t < 0x1000000
    ensures ByteSteps(Xor(x, Xor(b, Up(t)))) == Xor(ByteSteps(Xor(x, b)), t)
  {
    XorAssoc(x, b, Up(t));
    NextByte(Xor(x, b), t, 8);
    hide Step, Xor;
  }

  // A word's bytes one after the other, or all at once.
  lemma WordAtOnce(c: bv32, w: bv32)
    ensures
      ByteSteps(Xor(ByteSteps(Xor(ByteSteps(Xor(ByteSteps(Xor(c, ByteAt3(w))), ByteAt2(w))), ByteAt1(w))), ByteAt0(w)))
      == ByteSteps(ByteSteps(ByteSteps(ByteSteps(Xor(c, Le(w))))))
  {
    TailsFit(w);
    hide ByteSteps, Step, Tap, Xor, Up, ByteAt0, ByteAt1, ByteAt2, ByteAt3;
    Absorb(c, ByteAt3(w), Tail2(w));
    var c1 := ByteSteps(Xor(c, ByteAt3(w)));
    Absorb(c1, ByteAt2(w), Tail1(w));
    Absorb(ByteSteps(Xor(c1, ByteAt2(w))), ByteAt1(w), ByteAt0(w));
  }

  lemma CrcOfWord(c: bv32, w: bv32, rest: seq<bv8>)
    ensures Crc(c, Be(w) + rest) == Crc(ByteSteps(ByteSteps(ByteSteps(ByteSteps(Xor(c, Le(w)))))), rest)
  {
    WordAtOnce(c, w);
    BytesAreSelf(w);
    BeUnfolds(w, rest);
    hide *;
    var b3, b2, b1, b0 := ByteAt3(w) as bv8, ByteAt2(w) as bv8, ByteAt1(w) as bv8, ByteAt0(w) as bv8;
    var c1 := ByteSteps(Xor(c, ByteAt3(w)));
    var c2 := ByteSteps(Xor(c1, ByteAt2(w)));
    CrcFirst(c, b3, [b2] + ([b1] + ([b0] + rest)));
    CrcFirst(c1, b2, [b1] + ([b0] + rest));
    CrcFirst(c2, b1, [b0] + rest);
    CrcFirst(ByteSteps(Xor(c2, ByteAt1(w))), b0, rest);
  }

  lemma BeUnfolds(w: bv32, rest: seq<bv8>)
    ensures Be(w) + rest
      == [ByteAt3(w) as bv8] + ([ByteAt2(w) as bv8] + ([ByteAt1(w) as bv8] + ([ByteAt0(w) as bv8] + rest)))
  {
    hide ByteAt0, ByteAt1, ByteAt2, ByteAt3;
  }

  lemma CrcFirst(c: bv32, b: bv8, rest: seq<bv8>)
    ensures Crc(c, [b] + rest) == Crc(ByteSteps(Xor(c, b as bv32)), rest)
  {
    assert ([b] + rest)[1..] == rest;
  }

  lemma BytesAreSelf(w: bv32)
    ensures (ByteAt3(w) as bv8) as bv32 == ByteAt3(w) && (ByteAt2(w) as bv8) as bv32 == ByteAt2(w)
    ensures (ByteAt1(w) as bv8) as bv32 == ByteAt1(w) && (ByteAt0(w) as bv8) as bv32 == ByteAt0(w)
  {
  }

  // Messages that differ in exactly one word have different checks.
  lemma OneWordDiffers(c: bv32, before: seq<bv8>, v: bv32, w: bv32, after: seq<bv8>)
    requires v != w
    ensures Crc(c, before + Be(v) + after) != Crc(c, before + Be(w) + after)
  {
    CrcAppend(c, before, Be(v) + after);
    CrcAppend(c, before, Be(w) + after);
    Associate(before, Be(v), after);
    Associate(before, Be(w), after);
    hide Be, Crc;
    var x := Crc(c, before);
    CrcOfWord(x, v, after);
    CrcOfWord(x, w, after);
    if Crc(c, before + Be(v) + after) == Crc(c, before + Be(w) + after) {
      var p, q := Xor(x, Le(v)), Xor(x, Le(w));
      CrcInjective(ByteSteps(ByteSteps(ByteSteps(ByteSteps(p)))), ByteSteps(ByteSteps(ByteSteps(ByteSteps(q)))), after);
      FourInjective(p, q);
      XorCancelsLeft(x, Le(v), Le(w));
      LeInjective(v, w);
    }
  }

  lemma Associate(a: seq<bv8>, b: seq<bv8>, c: seq<bv8>)
    ensures a + b + c == a + (b + c)
  {
  }

  lemma FourInjective(p: bv32, q: bv32)
    requires ByteSteps(ByteSteps(ByteSteps(ByteSteps(p)))) == ByteSteps(ByteSteps(ByteSteps(ByteSteps(q))))
    ensures p == q
  {
    hide Step, Tap;
    StepsInjective(ByteSteps(ByteSteps(ByteSteps(p))), ByteSteps(ByteSteps(ByteSteps(q))), 8);
    StepsInjective(ByteSteps(ByteSteps(p)), ByteSteps(ByteSteps(q)), 8);
    StepsInjective(ByteSteps(p), ByteSteps(q), 8);
    StepsInjective(p, q, 8);
  }

  lemma XorCancelsLeft(x: bv32, y: bv32, z: bv32)
    requires Xor(x, y) == Xor(x, z)
    ensures y == z
  {
  }

  lemma {:induction false} CrcAppend(c: bv32, a: seq<bv8>, b: seq<bv8>)
    ensures Crc(c, a + b) == Crc(Crc(c, a), b)
    decreases |a|
  {
    hide ByteSteps, Xor;
    if a == [] {
      assert a + b == b;
    } else {
      assert (a + b)[1..] == a[1..] + b;
      CrcAppend(ByteSteps(Xor(c, a[0] as bv32)), a[1..], b);
    }
  }
}
