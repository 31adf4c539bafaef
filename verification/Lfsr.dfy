module Lfsr {
  const POLY: bv32 := 0xEDB88320
  const ONE: bv32 := 0x80000000

  function Xor(a: bv32, b: bv32): bv32 { a ^ b }

  function Shr(a: bv32): bv32 { a >> 1 }

  predicate Odd(a: bv32) { a & 1 == 1 }

  function Pick(b: bool, c: bv32): bv32 { if b then c else 0 }

  function Step(r: bv32): bv32 { Xor(Shr(r), Pick(Odd(r), POLY)) }

  function Steps(r: bv32, n: nat): bv32 { if n == 0 then r else Step(Steps(r, n - 1)) }

  function Power(n: nat): bv32 { Steps(ONE, n) }

  // ---- XOR algebra

  lemma XorAssoc(a: bv32, b: bv32, c: bv32)
    ensures Xor(Xor(a, b), c) == Xor(a, Xor(b, c))
  {}

  lemma XorComm(a: bv32, b: bv32)
    ensures Xor(a, b) == Xor(b, a)
  {}

  lemma XorZero(a: bv32)
    ensures Xor(a, 0) == a && Xor(0, a) == a && Xor(a, a) == 0
  {}

  lemma XorCancel(a: bv32, b: bv32)
    ensures Xor(a, b) == 0 <==> a == b
  {
    hide Xor;
    XorAssoc(a, b, b);
    XorZero(a);
    XorZero(b);
  }

  lemma XorSwap(a: bv32, b: bv32, c: bv32, d: bv32)
    ensures Xor(Xor(a, b), Xor(c, d)) == Xor(Xor(a, c), Xor(b, d))
  {
    hide Xor;
    var l, r := Xor(c, d), Xor(b, d);
    XorAssoc(a, b, l);
    XorAssoc(a, c, r);
    assert Xor(b, l) == Xor(c, r) by {
      XorAssoc(b, c, d);
      XorAssoc(c, b, d);
      XorComm(b, c);
    }
  }

  lemma ShrXor(a: bv32, b: bv32)
    ensures Shr(Xor(a, b)) == Xor(Shr(a), Shr(b))
  {}

  lemma OddXor(a: bv32, b: bv32)
    ensures Odd(Xor(a, b)) == (Odd(a) != Odd(b))
  {}

  lemma PickXor(a: bv32, b: bv32, c: bv32)
    ensures Pick(Odd(Xor(a, b)), c) == Xor(Pick(Odd(a), c), Pick(Odd(b), c))
  {
    hide Odd, Xor;
    OddXor(a, b);
    XorZero(c);
    XorZero(0);
  }

  lemma StepXor(a: bv32, b: bv32)
    ensures Step(Xor(a, b)) == Xor(Step(a), Step(b))
  {
    hide Xor, Shr, Pick, Odd;
    ShrXor(a, b);
    PickXor(a, b, POLY);
    XorSwap(Shr(a), Shr(b), Pick(Odd(a), POLY), Pick(Odd(b), POLY));
  }

  lemma StepInjective(a: bv32, b: bv32)
    requires Step(a) == Step(b)
    ensures a == b
  {}

  lemma {:induction false} StepsXor(a: bv32, b: bv32, n: nat)
    ensures Steps(Xor(a, b), n) == Xor(Steps(a, n), Steps(b, n))
  {
    hide Xor, Step;
    if n > 0 {
      StepsXor(a, b, n - 1);
      StepXor(Steps(a, n - 1), Steps(b, n - 1));
    }
  }

  lemma {:induction false} StepsAdd(r: bv32, m: nat, n: nat)
    ensures Steps(Steps(r, m), n) == Steps(r, m + n)
  {
    hide Step;
    if n > 0 { StepsAdd(r, m, n - 1); }
  }

  lemma {:induction false} StepsInjective(a: bv32, b: bv32, n: nat)
    requires Steps(a, n) == Steps(b, n)
    ensures a == b
  {
    hide Step;
    if n > 0 {
      StepInjective(Steps(a, n - 1), Steps(b, n - 1));
      StepsInjective(a, b, n - 1);
    }
  }

  // ---- squaring

  function Square(a: bv32, k: nat): bv32
    decreases k
  {
    if k == 0 then 0 else Xor(Pick(Odd(a), Power(2 * (k - 1))), Square(Shr(a), k - 1))
  }

  lemma {:induction false} SquareXor(a: bv32, b: bv32, k: nat)
    ensures Square(Xor(a, b), k) == Xor(Square(a, k), Square(b, k))
    decreases k
  {
    hide Xor, Shr, Pick, Odd, Power;
    if k == 0 {
      XorZero(0);
    } else {
      var c := Power(2 * (k - 1));
      ShrXor(a, b);
      PickXor(a, b, c);
      SquareXor(Shr(a), Shr(b), k - 1);
      XorSwap(Pick(Odd(a), c), Pick(Odd(b), c), Square(Shr(a), k - 1), Square(Shr(b), k - 1));
    }
  }

  function Mask(k: nat): bv32 { if k == 0 then 0 else (Mask(k - 1) << 1) | 1 }

  // a has only its k low bits set.
  predicate Fits(a: bv32, k: nat) { a <= Mask(k) }

  lemma FitsZero(a: bv32)
    ensures Fits(a, 0) <==> a == 0
  {}

  lemma ShrFits(a: bv32, k: nat)
    requires Fits(a, k + 1)
    ensures Fits(Shr(a), k)
  {}

  lemma AllFit(a: bv32)
    ensures Fits(a, 32)
  {
    assert Mask(8) == 0xFF;
    assert Mask(16) == 0xFFFF;
    assert Mask(24) == 0xFFFFFF;
    assert Mask(32) == 0xFFFFFFFF;
  }

  lemma {:induction false} StepsZero(n: nat)
    ensures Steps(0, n) == 0
  {
    if n > 0 { StepsZero(n - 1); }
  }

  lemma StepsPick(b: bool, c: bv32, n: nat)
    ensures Steps(Pick(b, c), n) == Pick(b, Steps(c, n))
  {
    StepsZero(n);
  }

  lemma {:induction false} SquareShift(a: bv32, k: nat)
    requires Fits(a, k)
    ensures Square(a, k + 1) == Steps(Square(a, k), 2)
    decreases k
  {
    hide Fits, Xor, Shr, Pick, Odd, Power, Step;
    if k == 0 {
      FitsZero(a);
      StepsZero(2);
      SquareOfZero(1);
    } else {
      hide Steps;
      ShrFits(a, k - 1);
      SquareShift(Shr(a), k - 1);
      SquareShiftOnce(a, k);
    }
  }

  lemma SquareShiftOnce(a: bv32, k: nat)
    requires k > 0
    requires Square(Shr(a), k) == Steps(Square(Shr(a), k - 1), 2)
    ensures Square(a, k + 1) == Steps(Square(a, k), 2)
  {
    hide Xor, Shr, Pick, Odd, Steps;
    var p, rest := Pick(Odd(a), Power(2 * (k - 1))), Square(Shr(a), k - 1);
    StepsXor(p, rest, 2);
    StepsAdd(ONE, 2 * (k - 1), 2);
    StepsPick(Odd(a), Power(2 * (k - 1)), 2);
  }

  lemma {:induction false} SquareOfZero(k: nat)
    ensures Square(0, k) == 0
    decreases k
  {
    if k > 0 {
      assert Shr(0) == 0 && !Odd(0);
      SquareOfZero(k - 1);
      XorZero(0);
    }
  }

  lemma LowPowers()
    ensures Power(0) == 0x80000000
    ensures Power(2) == 0x20000000
    ensures Power(4) == 0x08000000
    ensures Power(6) == 0x02000000
    ensures Power(8) == 0x00800000
    ensures Power(10) == 0x00200000
    ensures Power(12) == 0x00080000
    ensures Power(14) == 0x00020000
    ensures Power(16) == 0x00008000
    ensures Power(18) == 0x00002000
    ensures Power(20) == 0x00000800
    ensures Power(22) == 0x00000200
    ensures Power(24) == 0x00000080
    ensures Power(26) == 0x00000020
    ensures Power(28) == 0x00000008
    ensures Power(30) == 0x00000002
    ensures Power(32) == 0xEDB88320
  {}

  lemma MidPowers()
    ensures Power(34) == 0x3B6E20C8
    ensures Power(36) == 0x0EDB8832
    ensures Power(38) == 0xEE0E612C
    ensures Power(40) == 0x3B83984B
    ensures Power(42) == 0x958424A2
    ensures Power(44) == 0xC8D98A08
    ensures Power(46) == 0x32366282
    ensures Power(48) == 0xE1351B80
  {
    LowPowers();
  }

  lemma HighPowers()
    ensures Power(50) == 0x384D46E0
    ensures Power(52) == 0x0E1351B8
    ensures Power(54) == 0x0384D46E
    ensures Power(56) == 0xED59B63B
    ensures Power(58) == 0xA032AF3E
    ensures Power(60) == 0xC5B428EF
    ensures Power(62) == 0xAA09C88B
    ensures Power(64) == 0xB1E6B092
  {
    MidPowers();
  }

  predicate Bit(a: bv32, mask: bv32) { a & mask != 0 }

  function Shr8(a: bv32): bv32 { a >> 8 }

  // eight squaring steps at a time
  function Square8(a: bv32, k: nat, rest: bv32): bv32 {
    Xor(Pick(Bit(a, 0x01), Power(2 * k + 14)), Xor(Pick(Bit(a, 0x02), Power(2 * k + 12)),
    Xor(Pick(Bit(a, 0x04), Power(2 * k + 10)), Xor(Pick(Bit(a, 0x08), Power(2 * k + 8)),
    Xor(Pick(Bit(a, 0x10), Power(2 * k + 6)), Xor(Pick(Bit(a, 0x20), Power(2 * k + 4)),
    Xor(Pick(Bit(a, 0x40), Power(2 * k + 2)), Xor(Pick(Bit(a, 0x80), Power(2 * k)), rest))))))))
  }

  lemma Places(a: bv32)
    ensures var a1 := Shr(a); var a2 := Shr(a1); var a3 := Shr(a2); var a4 := Shr(a3);
            var a5 := Shr(a4); var a6 := Shr(a5); var a7 := Shr(a6);
            && Shr(a7) == Shr8(a)
            && Odd(a) == Bit(a, 0x01) && Odd(a1) == Bit(a, 0x02)
            && Odd(a2) == Bit(a, 0x04) && Odd(a3) == Bit(a, 0x08)
            && Odd(a4) == Bit(a, 0x10) && Odd(a5) == Bit(a, 0x20)
            && Odd(a6) == Bit(a, 0x40) && Odd(a7) == Bit(a, 0x80)
  {}

  lemma SquareUnfold(a: bv32, k: nat)
    ensures Square(a, k + 1) == Xor(Pick(Odd(a), Power(2 * k)), Square(Shr(a), k))
  {}

  lemma SquareByEight(a: bv32, k: nat)
    ensures Square(a, k + 8) == Square8(a, k, Square(Shr8(a), k))
  {
    Places(a);
    hide Xor, Pick, Odd, Bit, Shr, Shr8, Power, Square;
    var a1 := Shr(a); var a2 := Shr(a1); var a3 := Shr(a2); var a4 := Shr(a3);
    var a5 := Shr(a4); var a6 := Shr(a5); var a7 := Shr(a6);
    SquareUnfold(a, k + 7);
    SquareUnfold(a1, k + 6);
    SquareUnfold(a2, k + 5);
    SquareUnfold(a3, k + 4);
    SquareUnfold(a4, k + 3);
    SquareUnfold(a5, k + 2);
    SquareUnfold(a6, k + 1);
    SquareUnfold(a7, k);
  }

  lemma SquareNone(a: bv32)
    ensures Square(a, 0) == 0
  {}

  lemma SquareEval(a: bv32)
    ensures Square(a, 32)
         == Square8(a, 24, Square8(Shr8(a), 16, Square8(Shr8(Shr8(a)), 8, Square8(Shr8(Shr8(Shr8(a))), 0, 0))))
  {
    hide *;
    SquareNone(Shr8(Shr8(Shr8(Shr8(a)))));
    SquareByEight(a, 24);
    SquareByEight(Shr8(a), 16);
    SquareByEight(Shr8(Shr8(a)), 8);
    SquareByEight(Shr8(Shr8(Shr8(a))), 0);
  }

  lemma SquarePick(b: bool, c: bv32, k: nat)
    ensures Square(Pick(b, c), k) == Pick(b, Square(c, k))
  {
    SquareOfZero(k);
  }

  lemma SquarePoly()
    ensures Square(POLY, 32) == Power(64)
  {
    SquareEval(POLY);
    LowPowers(); MidPowers(); HighPowers();
  }
  // squaring doubles the exponent
  lemma SquareStep(a: bv32)
    ensures Square(Step(a), 32) == Steps(Square(a, 32), 2)
  {
    hide Fits, Xor, Shr, Pick, Odd, Steps;
    var b := Shr(a);
    SquareXor(b, Pick(Odd(a), POLY), 32);
    AllFit(a);
    ShrFits(a, 31);
    SquareShift(b, 31);
    // Square(b, 32) == Steps(Square(b, 31), 2)
    var p := Pick(Odd(a), Power(62));
    StepsXor(p, Square(b, 31), 2);
    StepsPick(Odd(a), Power(62), 2);
    StepsAdd(ONE, 62, 2);
    SquareOfZero(32);
    SquarePoly();
    SquarePick(Odd(a), POLY, 32);
    XorComm(Steps(p, 2), Square(b, 32));
  }

  // ---- the order of x

  lemma {:induction false} PowerDouble(n: nat)
    ensures Power(2 * n) == Square(Power(n), 32)
  {
    hide Step, Square;
    if n == 0 {
      SquareOne();
    } else {
      PowerDouble(n - 1);
      SquareStep(Power(n - 1));
      StepsAdd(ONE, 2 * (n - 1), 2);
    }
  }

  lemma SquareOne()
    ensures Square(ONE, 32) == ONE
  {
    SquareEval(ONE);
    LowPowers(); MidPowers(); HighPowers();
  }

  lemma Squaring0()
    ensures Square(0x40000000, 32) == 0x20000000
  { SquareEval(0x40000000); LowPowers(); MidPowers(); HighPowers(); hide Square; }

  lemma Squaring1()
    ensures Square(0x20000000, 32) == 0x08000000
  { SquareEval(0x20000000); LowPowers(); MidPowers(); HighPowers(); hide Square; }

  lemma Squaring2()
    ensures Square(0x08000000, 32) == 0x00800000
  { SquareEval(0x08000000); LowPowers(); MidPowers(); HighPowers(); hide Square; }

  lemma Squaring3()
    ensures Square(0x00800000, 32) == 0x00008000
  { SquareEval(0x00800000); LowPowers(); MidPowers(); HighPowers(); hide Square; }

  lemma Squaring4()
    ensures Square(0x00008000, 32) == 0xEDB88320
  { SquareEval(0x00008000); LowPowers(); MidPowers(); HighPowers(); hide Square; }

  lemma Squaring5()
    ensures Square(0xEDB88320, 32) == 0xB1E6B092
  { SquareEval(0xEDB88320); LowPowers(); MidPowers(); HighPowers(); hide Square; }

  lemma Squaring6()
    ensures Square(0xB1E6B092, 32) == 0xA06A2517
  { SquareEval(0xB1E6B092); LowPowers(); MidPowers(); HighPowers(); hide Square; }

  lemma Squaring7()
    ensures Square(0xA06A2517, 32) == 0xED627DAE
  { SquareEval(0xA06A2517); LowPowers(); MidPowers(); HighPowers(); hide Square; }

  lemma Squaring8()
    ensures Square(0xED627DAE, 32) == 0x88D14467
  { SquareEval(0xED627DAE); LowPowers(); MidPowers(); HighPowers(); hide Square; }

  lemma Squaring9()
    ensures Square(0x88D14467, 32) == 0xD7BBFE6A
  { SquareEval(0x88D14467); LowPowers(); MidPowers(); HighPowers(); hide Square; }

  lemma Squaring10()
    ensures Square(0xD7BBFE6A, 32) == 0xEC447F11
  { SquareEval(0xD7BBFE6A); LowPowers(); MidPowers(); HighPowers(); hide Square; }

  lemma Squaring11()
    ensures Square(0xEC447F11, 32) == 0x8E7EA170
  { SquareEval(0xEC447F11); LowPowers(); MidPowers(); HighPowers(); hide Square; }

  lemma Squaring12()
    ensures Square(0x8E7EA170, 32) == 0x6427800E
  { SquareEval(0x8E7EA170); LowPowers(); MidPowers(); HighPowers(); hide Square; }

  lemma Squaring13()
    ensures Square(0x6427800E, 32) == 0x4D47BAE0
  { SquareEval(0x6427800E); LowPowers(); MidPowers(); HighPowers(); hide Square; }

  lemma Squaring14()
    ensures Square(0x4D47BAE0, 32) == 0x09FE548F
  { SquareEval(0x4D47BAE0); LowPowers(); MidPowers(); HighPowers(); hide Square; }

  lemma Squaring15()
    ensures Square(0x09FE548F, 32) == 0x83852D0F
  { SquareEval(0x09FE548F); LowPowers(); MidPowers(); HighPowers(); hide Square; }

  lemma Squaring16()
    ensures Square(0x83852D0F, 32) == 0x30362F1A
  { SquareEval(0x83852D0F); LowPowers(); MidPowers(); HighPowers(); hide Square; }

  lemma Squaring17()
    ensures Square(0x30362F1A, 32) == 0x7B5A9CC3
  { SquareEval(0x30362F1A); LowPowers(); MidPowers(); HighPowers(); hide Square; }

  lemma Squaring18()
    ensures Square(0x7B5A9CC3, 32) == 0x31FEC169
  { SquareEval(0x7B5A9CC3); LowPowers(); MidPowers(); HighPowers(); hide Square; }

  lemma Squaring19()
    ensures Square(0x31FEC169, 32) == 0x9FEC022A
  { SquareEval(0x31FEC169); LowPowers(); MidPowers(); HighPowers(); hide Square; }

  lemma Squaring20()
    ensures Square(0x9FEC022A, 32) == 0x6C8DEDC4
  { SquareEval(0x9FEC022A); LowPowers(); MidPowers(); HighPowers(); hide Square; }

  lemma Squaring21()
    ensures Square(0x6C8DEDC4, 32) == 0x15D6874D
  { SquareEval(0x6C8DEDC4); LowPowers(); MidPowers(); HighPowers(); hide Square; }

  lemma Squaring22()
    ensures Square(0x15D6874D, 32) == 0x5FDE7A4E
  { SquareEval(0x15D6874D); LowPowers(); MidPowers(); HighPowers(); hide Square; }

  lemma Squaring23()
    ensures Square(0x5FDE7A4E, 32) == 0xBAD90E37
  { SquareEval(0x5FDE7A4E); LowPowers(); MidPowers(); HighPowers(); hide Square; }

  lemma Squaring24()
    ensures Square(0xBAD90E37, 32) == 0x2E4E5EEF
  { SquareEval(0xBAD90E37); LowPowers(); MidPowers(); HighPowers(); hide Square; }

  lemma Squaring25()
    ensures Square(0x2E4E5EEF, 32) == 0x4EABA214
  { SquareEval(0x2E4E5EEF); LowPowers(); MidPowers(); HighPowers(); hide Square; }

  lemma Squaring26()
    ensures Square(0x4EABA214, 32) == 0xA8A472C0
  { SquareEval(0x4EABA214); LowPowers(); MidPowers(); HighPowers(); hide Square; }

  lemma Squaring27()
    ensures Square(0xA8A472C0, 32) == 0x429A969E
  { SquareEval(0xA8A472C0); LowPowers(); MidPowers(); HighPowers(); hide Square; }

  lemma Squaring28()
    ensures Square(0x429A969E, 32) == 0x148D302A
  { SquareEval(0x429A969E); LowPowers(); MidPowers(); HighPowers(); hide Square; }

  lemma Squaring29()
    ensures Square(0x148D302A, 32) == 0xC40BA6D0
  { SquareEval(0x148D302A); LowPowers(); MidPowers(); HighPowers(); hide Square; }

  lemma Squaring30()
    ensures Square(0xC40BA6D0, 32) == 0xC4E22C3C
  { SquareEval(0xC40BA6D0); LowPowers(); MidPowers(); HighPowers(); hide Square; }

  lemma Squaring31()
    ensures Square(0xC4E22C3C, 32) == 0x40000000
  { SquareEval(0xC4E22C3C); LowPowers(); MidPowers(); HighPowers(); hide Square; }

  lemma Doublings()
    ensures Power(0x10000) == 0x83852D0F
    ensures Power(0x1_0000_0000) == 0x40000000
  {
    hide Square;
    assert Power(1) == 0x40000000 by { LowPowers(); MidPowers(); HighPowers(); }
    Squaring0(); Squaring1(); Squaring2(); Squaring3(); Squaring4(); Squaring5(); Squaring6(); Squaring7();
    Squaring8(); Squaring9(); Squaring10(); Squaring11(); Squaring12(); Squaring13(); Squaring14(); Squaring15();
    Squaring16(); Squaring17(); Squaring18(); Squaring19(); Squaring20(); Squaring21(); Squaring22(); Squaring23();
    Squaring24(); Squaring25(); Squaring26(); Squaring27(); Squaring28(); Squaring29(); Squaring30(); Squaring31();
    hide Power;
    PowerDouble(0x1);
    PowerDouble(0x2);
    PowerDouble(0x4);
    PowerDouble(0x8);
    PowerDouble(0x10);
    PowerDouble(0x20);
    PowerDouble(0x40);
    PowerDouble(0x80);
    PowerDouble(0x100);
    PowerDouble(0x200);
    PowerDouble(0x400);
    PowerDouble(0x800);
    PowerDouble(0x1000);
    PowerDouble(0x2000);
    PowerDouble(0x4000);
    PowerDouble(0x8000);
    PowerDouble(0x10000);
    PowerDouble(0x20000);
    PowerDouble(0x40000);
    PowerDouble(0x80000);
    PowerDouble(0x100000);
    PowerDouble(0x200000);
    PowerDouble(0x400000);
    PowerDouble(0x800000);
    PowerDouble(0x1000000);
    PowerDouble(0x2000000);
    PowerDouble(0x4000000);
    PowerDouble(0x8000000);
    PowerDouble(0x10000000);
    PowerDouble(0x20000000);
    PowerDouble(0x40000000);
    PowerDouble(0x80000000);
  }

  predicate Period(n: nat) { Power(n) == ONE }

  lemma {:induction false} PeriodSub(a: nat, b: nat)
    requires Period(a) && Period(a + b)
    ensures Period(b)
  {
    StepsAdd(ONE, a, b);
  }

  lemma {:induction false} PeriodMultiple(n: nat, q: nat)
    requires Period(n)
    ensures Period(n * q)
  {
    hide Steps;
    if q == 0 {
      assert Steps(ONE, 0) == ONE by { StepsNone(ONE); }
      assert n * q == 0;
    } else {
      PeriodMultiple(n, q - 1);
      StepsAdd(ONE, n * (q - 1), n);
      assert n * (q - 1) + n == n * q;
    }
  }

  lemma StepsNone(r: bv32)
    ensures Steps(r, 0) == r
  {}

  lemma PowerNext(n: nat)
    ensures Power(n + 1) == Step(Power(n))
  {}

  lemma StepOne()
    ensures Step(ONE) == 0x40000000
  {}

  // 2^32 - 1 == 65535 * 65537 is a period
  lemma PeriodFull()
    ensures Period(65535 * 65537)
  {
    hide Power, Step;
    Doublings();
    PowerNext(0xFFFF_FFFF);
    StepOne();
    StepInjective(Power(0xFFFF_FFFF), ONE);
  }

  lemma NotPeriod()
    ensures !Period(65535)
  {
    hide Power, Step;
    Doublings();
    PowerNext(65535);
    StepOne();
  }

  // 65537 is prime: no number up to its square root divides it.
  lemma NoSmallDivisor()
    ensures forall d :: 2 <= d <= 256 ==> 65537 % d != 0
  {}

  lemma {:induction false} ModOfMultiple(d: nat, q: nat)
    requires d > 0
    ensures (q * d) % d == 0
  {
    if q > 0 {
      ModOfMultiple(d, q - 1);
      ModAddSelf((q - 1) * d, d);
      assert (q - 1) * d + d == q * d;
    }
  }

  lemma ModAddSelf(a: nat, d: nat)
    requires d > 0
    ensures (a + d) % d == a % d
  {
    var q, r := a / d, a % d;
    ModUnique(a + d, d, q + 1, r);
  }

  lemma ModUnique(a: nat, d: nat, q: nat, r: nat)
    requires d > 0 && r < d && a == q * d + r
    ensures a % d == r
  {
    QuotientUnique(d, q, r, a / d, a % d);
  }

  lemma QuotientUnique(d: nat, q: nat, r: nat, q': nat, r': nat)
    requires r < d && r' < d && q * d + r == q' * d + r'
    ensures q == q' && r == r'
  {
    if q < q' {
      Distribute(q' - q, q, d);
    } else if q' < q {
      Distribute(q - q', q', d);
    }
  }

  lemma Distribute(k: nat, q: nat, d: nat)
    requires k > 0
    ensures (q + k) * d >= q * d + d
  {
    assert (q + k) * d == q * d + k * d;
    assert k * d >= d;
  }

  lemma FermatPrime(n: nat)
    requires 1 < n < 65537
    ensures 65537 % n != 0
  {
    if 65537 % n == 0 {
      var q := 65537 / n;
      assert q * n == 65537;
      if n > 256 {
        assert 1 < q <= 256;
        ModOfMultiple(q, n);
        assert n * q == q * n;
        NoSmallDivisor();
        assert false;
      } else {
        NoSmallDivisor();
      }
    }
  }

  // Euclid's descent on 65537 and n: if 65535 * n is a period, so is 65535.
  lemma {:induction false} PeriodDescent(n: nat)
    requires 0 < n < 65537
    requires Period(65535 * n)
    ensures Period(65535)
    decreases n
  {
    hide Period;
    if n > 1 {
      var q, r := 65537 / n, 65537 % n;
      FermatPrime(n);
      PeriodFull();
      PeriodMultiple(65535 * n, q);
      assert 65535 * n * q + 65535 * r == 65535 * 65537;
      PeriodSub(65535 * n * q, 65535 * r);
      PeriodDescent(r);
    }
  }

  // The register does not repeat within 65536 steps.
  lemma NoShortPeriod(m: nat)
    requires 0 < m < 65537
    ensures Power(m) != ONE
  {
    if Period(m) {
      hide Power;
      PeriodMultiple(m, 65535);
      PeriodDescent(m);
      NotPeriod();
    }
  }

  lemma PowersDistinct(i: nat, j: nat)
    requires i < j < i + 65537
    ensures Power(i) != Power(j)
  {
    NoShortPeriod(j - i);
    StepsAdd(ONE, j - i, i);
    if Power(i) == Power(j) {
      StepsInjective(ONE, Power(j - i), i);
    }
  }
}
