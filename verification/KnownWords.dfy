/** The first words of two streams, computed digit by digit. */
module KnownWords {
  import opened Words
  import opened Generator

  type Op = (nat, nat) -> nat

  function Differ(p: nat, q: nat): nat {
    if p == q then 0 else 1
  }

  /** What exclusive or does to one more bit. */
  ghost predicate BitLaw(f: Op, a: nat, b: nat, p: nat, q: nat) {
    p < 2 && q < 2 ==> f(2 * a + p, 2 * b + q) == 2 * f(a, b) + Differ(p, q)
  }

  ghost predicate Bitwise(f: Op) {
    f(0, 0) == 0 && forall a, b, p, q :: BitLaw(f, a, b, p, q)
  }

  function XorOp(): Op {
    (a: nat, b: nat) => Xor(a, b)
  }

  lemma XorIsBitwise()
    ensures Bitwise(XorOp())
  {
    forall a, b, p, q ensures BitLaw(XorOp(), a, b, p, q) {
      if p < 2 && q < 2 { XorBit(a, b, p, q); }
    }
  }

  lemma XorBit(a: nat, b: nat, p: nat, q: nat)
    requires p < 2 && q < 2
    ensures Xor(2 * a + p, 2 * b + q) == 2 * Xor(a, b) + Differ(p, q)
  {
    var x, y := 2 * a + p, 2 * b + q;
    assert x / 2 == a && y / 2 == b && x % 2 == p && y % 2 == q;
    XorStep(x, y);
    var r := Xor(x, y);
    assert r == 2 * (r / 2) + r % 2;
  }

  function TopBit(c: nat, place: nat): nat {
    if c >= place then 1 else 0
  }

  function Under(c: nat, place: nat): nat {
    if c >= place then c - place else c
  }

  /** Exclusive or of two hexadecimal digits. */
  function DigitXor(c: nat, d: nat): nat {
    var c2, d2 := Under(c, 8), Under(d, 8);
    var c1, d1 := Under(c2, 4), Under(d2, 4);
    8 * Differ(TopBit(c, 8), TopBit(d, 8)) + 4 * Differ(TopBit(c2, 4), TopBit(d2, 4))
      + 2 * Differ(TopBit(c1, 2), TopBit(d1, 2)) + Differ(Under(c1, 2), Under(d1, 2))
  }

  /** One more digit. */
  lemma OneDigit(f: Op, a: nat, b: nat, c: nat, d: nat)
    requires Bitwise(f) && c < 16 && d < 16
    ensures f(16 * a + c, 16 * b + d) == 16 * f(a, b) + DigitXor(c, d)
  {
    var c2, d2 := Under(c, 8), Under(d, 8);
    var c1, d1 := Under(c2, 4), Under(d2, 4);
    var a3, b3 := 2 * a + TopBit(c, 8), 2 * b + TopBit(d, 8);
    var a2, b2 := 2 * a3 + TopBit(c2, 4), 2 * b3 + TopBit(d2, 4);
    var a1, b1 := 2 * a2 + TopBit(c1, 2), 2 * b2 + TopBit(d1, 2);
    assert BitLaw(f, a, b, TopBit(c, 8), TopBit(d, 8));
    assert BitLaw(f, a3, b3, TopBit(c2, 4), TopBit(d2, 4));
    assert BitLaw(f, a2, b2, TopBit(c1, 2), TopBit(d1, 2));
    assert BitLaw(f, a1, b1, Under(c1, 2), Under(d1, 2));
    assert 16 * a + c == 2 * a1 + Under(c1, 2) && 16 * b + d == 2 * b1 + Under(d1, 2);
  }

  /** Four more digits. */
  lemma FourDigits(f: Op, a: nat, b: nat, c3: nat, c2: nat, c1: nat, c0: nat, d3: nat, d2: nat, d1: nat, d0: nat)
    requires Bitwise(f) && c3 < 16 && c2 < 16 && c1 < 16 && c0 < 16 && d3 < 16 && d2 < 16 && d1 < 16 && d0 < 16
    ensures
      f(65536 * a + 4096 * c3 + 256 * c2 + 16 * c1 + c0, 65536 * b + 4096 * d3 + 256 * d2 + 16 * d1 + d0)
        == 65536 * f(a, b) + 4096 * DigitXor(c3, d3) + 256 * DigitXor(c2, d2) + 16 * DigitXor(c1, d1)
             + DigitXor(c0, d0)
  {
    var a3, b3 := 16 * a + c3, 16 * b + d3;
    var a2, b2 := 16 * a3 + c2, 16 * b3 + d2;
    var a1, b1 := 16 * a2 + c1, 16 * b2 + d1;
    OneDigit(f, a, b, c3, d3);
    OneDigit(f, a3, b3, c2, d2);
    OneDigit(f, a2, b2, c1, d1);
    OneDigit(f, a1, b1, c0, d0);
  }

  /** The finalizer by any exclusive or. */
  function FinishBy(f: Op, s: nat): nat {
    var a := f(s, s / 0x40000000) * 0xbf58476d1ce4e5b9 % 0x1_0000_0000_0000_0000;
    var b := f(a, a / 0x8000000) * 0x94d049bb133111eb % 0x1_0000_0000_0000_0000;
    f(b, b / 0x80000000)
  }

  lemma FinishByXor(s: Word)
    ensures FinishBy(XorOp(), s) == Finish(s)
  {
    FinishIs(s);
  }

  lemma Top00(f: Op)
    requires Bitwise(f)
    ensures f(0x9E3779B9, 0x2) == 0x9E3779BB
  {
    FourDigits(f, 0x0, 0x0, 9, 0xE, 3, 7, 0, 0, 0, 0);
    assert f(0x9E37, 0x0) == 0x9E37;
    FourDigits(f, 0x9E37, 0x0, 7, 9, 0xB, 9, 0, 0, 0, 2);
  }

  lemma Round00(f: Op, v: nat, w: nat)
    requires Bitwise(f) && v == 0x9E3779B97F4A7C15 && w == 0x278DDE6E5
    ensures f(v, w) == 0x9E3779BB07979AF0
  {
    Top00(f);
    FourDigits(f, 0x9E3779B9, 0x2, 7, 0xF, 4, 0xA, 7, 8, 0xD, 0xD);
    assert f(0x9E3779B97F4A, 0x278DD) == 0x9E3779BB0797;
    FourDigits(f, 0x9E3779B97F4A, 0x278DD, 7, 0xC, 1, 5, 0xE, 6, 0xE, 5);
  }

  lemma Top01(f: Op)
    requires Bitwise(f)
    ensures f(0x6F68261B, 0xD) == 0x6F682616
  {
    FourDigits(f, 0x0, 0x0, 6, 0xF, 6, 8, 0, 0, 0, 0);
    assert f(0x6F68, 0x0) == 0x6F68;
    FourDigits(f, 0x6F68, 0x0, 2, 6, 1, 0xB, 0, 0, 0, 0xD);
  }

  lemma Round01(f: Op, v: nat, w: nat)
    requires Bitwise(f) && v == 0x6F68261B57E7A770 && w == 0xDED04C36A
    ensures f(v, w) == 0x6F682616BAE3641A
  {
    Top01(f);
    FourDigits(f, 0x6F68261B, 0xD, 5, 7, 0xE, 7, 0xE, 0xD, 0, 4);
    assert f(0x6F68261B57E7, 0xDED04) == 0x6F682616BAE3;
    FourDigits(f, 0x6F68261B57E7, 0xDED04, 0xA, 7, 7, 0, 0xC, 3, 6, 0xA);
  }

  lemma Top02(f: Op)
    requires Bitwise(f)
    ensures f(0xE220A838, 0x1) == 0xE220A839
  {
    FourDigits(f, 0x0, 0x0, 0xE, 2, 2, 0, 0, 0, 0, 0);
    assert f(0xE220, 0x0) == 0xE220;
    FourDigits(f, 0xE220, 0x0, 0xA, 8, 3, 8, 0, 0, 0, 1);
  }

  lemma Round02(f: Op, v: nat, w: nat)
    requires Bitwise(f) && v == 0xE220A838BF5C9DDE && w == 0x1C4415071
    ensures f(v, w) == 0xE220A8397B1DCDAF
  {
    Top02(f);
    FourDigits(f, 0xE220A838, 0x1, 0xB, 0xF, 5, 0xC, 0xC, 4, 4, 1);
    assert f(0xE220A838BF5C, 0x1C441) == 0xE220A8397B1D;
    FourDigits(f, 0xE220A838BF5C, 0x1C441, 9, 0xD, 0xD, 0xE, 5, 0, 7, 1);
  }

  lemma FinishOf0(f: Op, s: nat)
    requires Bitwise(f) && s == 0x9E3779B97F4A7C15
    ensures FinishBy(f, s) == 0xE220A8397B1DCDAF
  {
    Round00(f, s, s / 0x40000000);
    var a := f(s, s / 0x40000000) * 0xbf58476d1ce4e5b9 % 0x1_0000_0000_0000_0000;
    Round01(f, a, a / 0x8000000);
    var b := f(a, a / 0x8000000) * 0x94d049bb133111eb % 0x1_0000_0000_0000_0000;
    Round02(f, b, b / 0x80000000);
  }

  /** The first word of the stream that starts at 0. */
  lemma FirstWordOf0(seed: Word)
    requires seed == 0
    ensures SplitMix(seed) == 0xE220A8397B1DCDAF
  {
    XorIsBitwise();
    var s: Word := (seed + INCREMENT) % M;
    FinishOf0(XorOp(), s);
    FinishByXor(s);
  }

  lemma Top10(f: Op)
    requires Bitwise(f)
    ensures f(0x9E3779B9, 0x2) == 0x9E3779BB
  {
    FourDigits(f, 0x0, 0x0, 9, 0xE, 3, 7, 0, 0, 0, 0);
    assert f(0x9E37, 0x0) == 0x9E37;
    FourDigits(f, 0x9E37, 0x0, 7, 9, 0xB, 9, 0, 0, 0, 2);
  }

  lemma Round10(f: Op, v: nat, w: nat)
    requires Bitwise(f) && v == 0x9E3779B97F4A7C16 && w == 0x278DDE6E5
    ensures f(v, w) == 0x9E3779BB07979AF3
  {
    Top10(f);
    FourDigits(f, 0x9E3779B9, 0x2, 7, 0xF, 4, 0xA, 7, 8, 0xD, 0xD);
    assert f(0x9E3779B97F4A, 0x278DD) == 0x9E3779BB0797;
    FourDigits(f, 0x9E3779B97F4A, 0x278DD, 7, 0xC, 1, 6, 0xE, 6, 0xE, 5);
  }

  lemma Top11(f: Op)
    requires Bitwise(f)
    ensures f(0xAD70FC62, 0x15) == 0xAD70FC77
  {
    FourDigits(f, 0x0, 0x0, 0xA, 0xD, 7, 0, 0, 0, 0, 0);
    assert f(0xAD70, 0x0) == 0xAD70;
    FourDigits(f, 0xAD70, 0x0, 0xF, 0xC, 6, 2, 0, 0, 1, 5);
  }

  lemma Round11(f: Op, v: nat, w: nat)
    requires Bitwise(f) && v == 0xAD70FC62AE96589B && w == 0x15AE1F8C55
    ensures f(v, w) == 0xAD70FC770089D4CE
  {
    Top11(f);
    FourDigits(f, 0xAD70FC62, 0x15, 0xA, 0xE, 9, 6, 0xA, 0xE, 1, 0xF);
    assert f(0xAD70FC62AE96, 0x15AE1F) == 0xAD70FC770089;
    FourDigits(f, 0xAD70FC62AE96, 0x15AE1F, 5, 8, 9, 0xB, 8, 0xC, 5, 5);
  }

  lemma Top12(f: Op)
    requires Bitwise(f)
    ensures f(0x910A2DED, 0x1) == 0x910A2DEC
  {
    FourDigits(f, 0x0, 0x0, 9, 1, 0, 0xA, 0, 0, 0, 0);
    assert f(0x910A, 0x0) == 0x910A;
    FourDigits(f, 0x910A, 0x0, 2, 0xD, 0xE, 0xD, 0, 0, 0, 1);
  }

  lemma Round12(f: Op, v: nat, w: nat)
    requires Bitwise(f) && v == 0x910A2DEDAB16071A && w == 0x122145BDB
    ensures f(v, w) == 0x910A2DEC89025CC1
  {
    Top12(f);
    FourDigits(f, 0x910A2DED, 0x1, 0xA, 0xB, 1, 6, 2, 2, 1, 4);
    assert f(0x910A2DEDAB16, 0x12214) == 0x910A2DEC8902;
    FourDigits(f, 0x910A2DEDAB16, 0x12214, 0, 7, 1, 0xA, 5, 0xB, 0xD, 0xB);
  }

  lemma FinishOf1(f: Op, s: nat)
    requires Bitwise(f) && s == 0x9E3779B97F4A7C16
    ensures FinishBy(f, s) == 0x910A2DEC89025CC1
  {
    Round10(f, s, s / 0x40000000);
    var a := f(s, s / 0x40000000) * 0xbf58476d1ce4e5b9 % 0x1_0000_0000_0000_0000;
    Round11(f, a, a / 0x8000000);
    var b := f(a, a / 0x8000000) * 0x94d049bb133111eb % 0x1_0000_0000_0000_0000;
    Round12(f, b, b / 0x80000000);
  }

  /** The first word of the stream that starts at 1. */
  lemma FirstWordOf1(seed: Word)
    requires seed == 1
    ensures SplitMix(seed) == 0x910A2DEC89025CC1
  {
    XorIsBitwise();
    var s: Word := (seed + INCREMENT) % M;
    FinishOf1(XorOp(), s);
    FinishByXor(s);
  }

  /** So the first decision of the random policy seeded with 0 is to wait. */
  lemma FirstUnitOf0(seed: Word)
    requires seed == 0
    ensures 0.883 < Unit(Output(seed, 1)) < 0.884
  {
    FirstWordOf0(seed);
    FirstOutput(seed);
    UnitOfFirst(Output(seed, 1));
  }

  lemma FirstOutput(seed: Word)
    ensures Output(seed, 1) == SplitMix(seed)
  {}

  lemma UnitOfFirst(word: Word)
    requires word == 0xE220A8397B1DCDAF
    ensures 0.883 < Unit(word) < 0.884
  {
    UnitExact(word, 7956156453446585);
  }
}
