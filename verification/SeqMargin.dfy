// What a start does to the check of the kept record: its three counters, each 256 further on,
// never leave the check as it was, however many of them were written (main/bat/bat_core.c,
// bat_init and keep_crc). Few differences are possible, and the register is linear.
module SeqMargin {
  import opened Crc32c
  import opened Serials

  // A word's four bytes through the register.
  function WordSteps(c: bv32): bv32 {
    ByteSteps(ByteSteps(ByteSteps(ByteSteps(c))))
  }

  lemma ByteStepsXor(x: bv32, y: bv32)
    ensures ByteSteps(Xor(x, y)) == Xor(ByteSteps(x), ByteSteps(y))
  {
    StepsXor(x, y, 8);
    hide Step, Xor;
  }

  lemma WordStepsXor(x: bv32, y: bv32)
    ensures WordSteps(Xor(x, y)) == Xor(WordSteps(x), WordSteps(y))
  {
    hide ByteSteps, Xor;
    ByteStepsXor(x, y);
    ByteStepsXor(ByteSteps(x), ByteSteps(y));
    ByteStepsXor(ByteSteps(ByteSteps(x)), ByteSteps(ByteSteps(y)));
    ByteStepsXor(ByteSteps(ByteSteps(ByteSteps(x))), ByteSteps(ByteSteps(ByteSteps(y))));
  }

  function FourEights(c: bv32): bv32 {
    Eight(Eight(Eight(Eight(c))))
  }

  lemma WordStepsIs(c: bv32)
    ensures WordSteps(c) == FourEights(c)
  {
    EightIs(c);
    EightIs(Eight(c));
    EightIs(Eight(Eight(c)));
    EightIs(Eight(Eight(Eight(c))));
    hide Eight, ByteSteps;
  }

  // ---- what adding 256 changes -----------------------------------------------------------

  // The bits of a number that change: an unbroken run from bit 8 up.
  predicate Carries(d: bv32) {
    || d == 0x00000100 || d == 0x00000300 || d == 0x00000700 || d == 0x00000F00
    || d == 0x00001F00 || d == 0x00003F00 || d == 0x00007F00 || d == 0x0000FF00
    || d == 0x0001FF00 || d == 0x0003FF00 || d == 0x0007FF00 || d == 0x000FFF00
    || d == 0x001FFF00 || d == 0x003FFF00 || d == 0x007FFF00 || d == 0x00FFFF00
    || d == 0x01FFFF00 || d == 0x03FFFF00 || d == 0x07FFFF00 || d == 0x0FFFFF00
    || d == 0x1FFFFF00 || d == 0x3FFFFF00 || d == 0x7FFFFF00 || d == 0xFFFFFF00
  }

  lemma MarginCarries(x: bv32)
    ensures Carries(x ^ PastMargin(x))
  {
  }

  // The same as the register sees it, and after one and two more words.
  predicate Fresh(e: bv32) {
    || e == 0x00010000 || e == 0x00030000 || e == 0x00070000 || e == 0x000F0000
    || e == 0x001F0000 || e == 0x003F0000 || e == 0x007F0000 || e == 0x00FF0000
    || e == 0x00FF0100 || e == 0x00FF0300 || e == 0x00FF0700 || e == 0x00FF0F00
    || e == 0x00FF1F00 || e == 0x00FF3F00 || e == 0x00FF7F00 || e == 0x00FFFF00
    || e == 0x00FFFF01 || e == 0x00FFFF03 || e == 0x00FFFF07 || e == 0x00FFFF0F
    || e == 0x00FFFF1F || e == 0x00FFFF3F || e == 0x00FFFF7F || e == 0x00FFFFFF
  }

  predicate Once(e: bv32) {
    || e == 0x13A29877 || e == 0x34E7A899 || e == 0x7A6DC945 || e == 0xE7790AFD
    || e == 0xD8BCFB7C || e == 0xA737187E || e == 0x5820DE7A || e == 0xA3E32483
    || e == 0x06A2B6FD || e == 0x49CDE4F0 || e == 0xD71340EA || e == 0xEF427E2F
    || e == 0x9FE003A5 || e == 0x7EA4F8B1 || e == 0xB9C17868 || e == 0x32E60F2B
    || e == 0xEFA3A593 || e == 0x50C48612 || e == 0x2BE6B7E1 || e == 0xDDA2D407
    || e == 0x34C6653A || e == 0xE3E371B1 || e == 0x48452E56 || e == 0x1AE5E769
  }

  predicate Twice(e: bv32) {
    || e == 0xEF306B19 || e == 0x34BCCBDA || e == 0x8649FCAD || e == 0xE64FE4B2
    || e == 0x2643D48C || e == 0xA3B7C201 || e == 0xADB399EA || e == 0xB1BB2E3C
    || e == 0xD9B802F4 || e == 0x09BE5B64 || e == 0xAC5E9EB5 || e == 0xE27363E6
    || e == 0x7E289940 || e == 0x43731AFD || e == 0x39C41D87 || e == 0xCCAA1373
    || e == 0x85966E54 || e == 0x17EE941A || e == 0x36F31677 || e == 0x74C812AD
    || e == 0xF0BE1B19 || e == 0xFDBE7E80 || e == 0xE7BEB5B2 || e == 0xD3BF23D6
  }

  lemma CarriesFresh(d: bv32)
    requires Carries(d)
    ensures Fresh(Le(d))
  {
  }

  lemma FreshOnce1()
    ensures FourEights(0x00010000) == 0x13A29877
    ensures FourEights(0x00030000) == 0x34E7A899
    ensures FourEights(0x00070000) == 0x7A6DC945
    ensures FourEights(0x000F0000) == 0xE7790AFD
    ensures FourEights(0x001F0000) == 0xD8BCFB7C
    ensures FourEights(0x003F0000) == 0xA737187E
  {
  }

  lemma FreshOnce2()
    ensures FourEights(0x007F0000) == 0x5820DE7A
    ensures FourEights(0x00FF0000) == 0xA3E32483
    ensures FourEights(0x00FF0100) == 0x06A2B6FD
    ensures FourEights(0x00FF0300) == 0x49CDE4F0
    ensures FourEights(0x00FF0700) == 0xD71340EA
    ensures FourEights(0x00FF0F00) == 0xEF427E2F
  {
  }

  lemma FreshOnce3()
    ensures FourEights(0x00FF1F00) == 0x9FE003A5
    ensures FourEights(0x00FF3F00) == 0x7EA4F8B1
    ensures FourEights(0x00FF7F00) == 0xB9C17868
    ensures FourEights(0x00FFFF00) == 0x32E60F2B
    ensures FourEights(0x00FFFF01) == 0xEFA3A593
    ensures FourEights(0x00FFFF03) == 0x50C48612
  {
  }

  lemma FreshOnce4()
    ensures FourEights(0x00FFFF07) == 0x2BE6B7E1
    ensures FourEights(0x00FFFF0F) == 0xDDA2D407
    ensures FourEights(0x00FFFF1F) == 0x34C6653A
    ensures FourEights(0x00FFFF3F) == 0xE3E371B1
    ensures FourEights(0x00FFFF7F) == 0x48452E56
    ensures FourEights(0x00FFFFFF) == 0x1AE5E769
  {
  }

  lemma OnceTwice1()
    ensures FourEights(0x13A29877) == 0xEF306B19
    ensures FourEights(0x34E7A899) == 0x34BCCBDA
    ensures FourEights(0x7A6DC945) == 0x8649FCAD
    ensures FourEights(0xE7790AFD) == 0xE64FE4B2
    ensures FourEights(0xD8BCFB7C) == 0x2643D48C
    ensures FourEights(0xA737187E) == 0xA3B7C201
  {
  }

  lemma OnceTwice2()
    ensures FourEights(0x5820DE7A) == 0xADB399EA
    ensures FourEights(0xA3E32483) == 0xB1BB2E3C
    ensures FourEights(0x06A2B6FD) == 0xD9B802F4
    ensures FourEights(0x49CDE4F0) == 0x09BE5B64
    ensures FourEights(0xD71340EA) == 0xAC5E9EB5
    ensures FourEights(0xEF427E2F) == 0xE27363E6
  {
  }

  lemma OnceTwice3()
    ensures FourEights(0x9FE003A5) == 0x7E289940
    ensures FourEights(0x7EA4F8B1) == 0x43731AFD
    ensures FourEights(0xB9C17868) == 0x39C41D87
    ensures FourEights(0x32E60F2B) == 0xCCAA1373
    ensures FourEights(0xEFA3A593) == 0x85966E54
    ensures FourEights(0x50C48612) == 0x17EE941A
  {
  }

  lemma OnceTwice4()
    ensures FourEights(0x2BE6B7E1) == 0x36F31677
    ensures FourEights(0xDDA2D407) == 0x74C812AD
    ensures FourEights(0x34C6653A) == 0xF0BE1B19
    ensures FourEights(0xE3E371B1) == 0xFDBE7E80
    ensures FourEights(0x48452E56) == 0xE7BEB5B2
    ensures FourEights(0x1AE5E769) == 0xD3BF23D6
  {
  }

  lemma FreshOnce(e: bv32)
    requires Fresh(e)
    ensures Once(WordSteps(e))
  {
    WordStepsIs(e);
    FreshOnce1();
    FreshOnce2();
    FreshOnce3();
    FreshOnce4();
    hide WordSteps, FourEights;
  }

  lemma OnceTwice(e: bv32)
    requires Once(e)
    ensures Twice(WordSteps(e))
  {
    WordStepsIs(e);
    OnceTwice1();
    OnceTwice2();
    OnceTwice3();
    OnceTwice4();
    hide WordSteps, FourEights;
  }

  lemma NeverCancel(a: bv32, b: bv32, c: bv32)
    requires Twice(a) && Once(b) && Fresh(c)
    ensures a ^ b ^ c != 0
  {
  }

  lemma NeverCancelTwo(a: bv32, b: bv32)
    requires Twice(a) && Once(b)
    ensures a ^ b != 0
  {
  }

  // ---- three words at the end of a message --------------------------------------------

  lemma ThreeWords(c: bv32, v1: bv32, v2: bv32, v3: bv32)
    ensures Crc(c, Be(v1) + Be(v2) + Be(v3)) ==
              WordSteps(Xor(WordSteps(Xor(WordSteps(Xor(c, Le(v1))), Le(v2))), Le(v3)))
  {
    assert Be(v1) + Be(v2) + Be(v3) == Be(v1) + (Be(v2) + (Be(v3) + []));
    hide Be, ByteSteps;
    CrcOfWord(c, v1, Be(v2) + (Be(v3) + []));
    var c1 := WordSteps(Xor(c, Le(v1)));
    CrcOfWord(c1, v2, Be(v3) + []);
    CrcOfWord(WordSteps(Xor(c1, Le(v2))), v3, []);
  }

  // What the words leave in the register beside what was there.
  function Left(x1: bv32, x2: bv32, x3: bv32): bv32 {
    Xor(Xor(WordSteps(WordSteps(x1)), WordSteps(x2)), x3)
  }

  lemma LeftApart(c: bv32, x1: bv32, x2: bv32, x3: bv32)
    ensures
      Xor(WordSteps(Xor(WordSteps(Xor(c, x1)), x2)), x3) == Xor(WordSteps(WordSteps(c)), Left(x1, x2, x3))
  {
    WordStepsXor(c, x1);
    WordStepsXor(Xor(WordSteps(c), WordSteps(x1)), x2);
    WordStepsXor(WordSteps(c), WordSteps(x1));
    var p, q, r := WordSteps(WordSteps(c)), WordSteps(WordSteps(x1)), WordSteps(x2);
    hide WordSteps;
    XorAssoc(p, q, r);
    XorAssoc(p, Xor(q, r), x3);
    hide Xor;
  }

  lemma LeftXor(x1: bv32, x2: bv32, x3: bv32, y1: bv32, y2: bv32, y3: bv32)
    ensures Left(Xor(x1, y1), Xor(x2, y2), Xor(x3, y3)) == Xor(Left(x1, x2, x3), Left(y1, y2, y3))
  {
    WordStepsXor(x1, y1);
    WordStepsXor(WordSteps(x1), WordSteps(y1));
    WordStepsXor(x2, y2);
    hide WordSteps, Xor;
    XorRegroup(WordSteps(WordSteps(x1)), WordSteps(WordSteps(y1)), WordSteps(x2), WordSteps(y2));
    XorRegroup(Xor(WordSteps(WordSteps(x1)), WordSteps(x2)), Xor(WordSteps(WordSteps(y1)), WordSteps(y2)), x3, y3);
  }

  lemma XorRegroup(a: bv32, b: bv32, c: bv32, d: bv32)
    ensures Xor(Xor(a, b), Xor(c, d)) == Xor(Xor(a, c), Xor(b, d))
  {
    XorAssoc(Xor(a, b), c, d);
    XorSwap(a, b, c);
    XorAssoc(Xor(a, c), b, d);
    hide Xor;
  }

  lemma LeXor(v: bv32, w: bv32)
    ensures Le(v ^ w) == Xor(Le(v), Le(w))
  {
  }

  // Two messages that differ in their last three words have the same check only if the
  // differences alone leave nothing.
  lemma SameCheck(c: bv32, u1: bv32, u2: bv32, u3: bv32, v1: bv32, v2: bv32, v3: bv32)
    requires Crc(c, Be(u1) + Be(u2) + Be(u3)) == Crc(c, Be(v1) + Be(v2) + Be(v3))
    ensures Left(Le(u1 ^ v1), Le(u2 ^ v2), Le(u3 ^ v3)) == 0
  {
    ThreeWords(c, u1, u2, u3);
    ThreeWords(c, v1, v2, v3);
    LeftApart(c, Le(u1), Le(u2), Le(u3));
    LeftApart(c, Le(v1), Le(v2), Le(v3));
    var x, y := Left(Le(u1), Le(u2), Le(u3)), Left(Le(v1), Le(v2), Le(v3));
    LeXor(u1, v1);
    LeXor(u2, v2);
    LeXor(u3, v3);
    LeftXor(Le(u1), Le(u2), Le(u3), Le(v1), Le(v2), Le(v3));
    hide Be, Left, Le;
    var k := WordSteps(WordSteps(c));
    FourInjective(Xor(k, x), Xor(k, y));
    hide WordSteps, ByteSteps;
    XorCancelsLeft(k, x, y);
    assert x ^ x == 0;
  }

  lemma WordStepsOfNone(x: bv32)
    requires x == 0
    ensures WordSteps(x) == 0
  {
    WordStepsXor(x, x);
    assert x ^ x == 0;
    var w := WordSteps(x);
    hide WordSteps;
    assert w ^ w == 0;
  }

  // A counter's word, 256 further on if it was written.
  function Further(x: bv32, on: bool): bv32 {
    if on then PastMargin(x) else x
  }

  lemma FurtherDiffers(x: bv32, on: bool)
    ensures if on then Fresh(Le(Further(x, on) ^ x)) else Le(Further(x, on) ^ x) == 0
  {
    if on {
      MarginCarries(x);
      assert PastMargin(x) ^ x == x ^ PastMargin(x);
      CarriesFresh(x ^ PastMargin(x));
      hide Fresh, Carries, Le;
    }
  }

  lemma MarginChangesCheck(c: bv32, v1: bv32, v2: bv32, v3: bv32, two: bool, three: bool)
    requires three ==> two
    ensures
      Crc(c, Be(Further(v1, true)) + Be(Further(v2, two)) + Be(Further(v3, three))) != Crc(c, Be(v1) + Be(v2) + Be(v3))
  {
    var u1, u2, u3 := Further(v1, true), Further(v2, two), Further(v3, three);
    FurtherDiffers(v1, true);
    FurtherDiffers(v2, two);
    FurtherDiffers(v3, three);
    var e1, e2, e3 := Le(u1 ^ v1), Le(u2 ^ v2), Le(u3 ^ v3);
    hide Le, Further, Fresh, Be, Left, Crc;
    if Crc(c, Be(u1) + Be(u2) + Be(u3)) == Crc(c, Be(v1) + Be(v2) + Be(v3)) {
      SameCheck(c, u1, u2, u3, v1, v2, v3);
      NothingLeft(e1, e2, e3, two, three);
    }
  }

  lemma NothingLeft(e1: bv32, e2: bv32, e3: bv32, two: bool, three: bool)
    requires Fresh(e1) && (if two then Fresh(e2) else e2 == 0) && (if three then Fresh(e3) else e3 == 0)
             && (three ==> two)
    ensures Left(e1, e2, e3) != 0
  {
    FreshOnce(e1);
    OnceTwice(WordSteps(e1));
    if two {
      FreshOnce(e2);
    } else {
      WordStepsOfNone(e2);
    }
    hide WordSteps, Fresh, Once, Twice;
    Nonzero(WordSteps(WordSteps(e1)), WordSteps(e2), e3, two, three);
  }

  lemma Nonzero(a: bv32, b: bv32, c: bv32, two: bool, three: bool)
    requires Twice(a) && (if two then Once(b) else b == 0) && (if three then Fresh(c) else c == 0) && (three ==> two)
    ensures Xor(Xor(a, b), c) != 0
  {
    assert a != 0;
    hide Once, Fresh, Twice;
    if three {
      NeverCancel(a, b, c);
    } else if two {
      NeverCancelTwo(a, b);
    }
  }
}
