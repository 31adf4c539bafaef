module LinkCorrection {
  import opened Lfsr
  import opened Crc32

  // ---- syndromes

  // One bit set: the test (syn & (syn - 1)) == 0 on a non-zero syndrome.
  predicate SingleBit(syn: bv32) { syn != 0 && syn & (syn - 1) == 0 }

  // The register after an error d message bits before the end.
  function Response(d: nat): bv32 { Steps(POLY, d) }

  lemma ResponseIsPower(d: nat)
    ensures Response(d) == Power(32 + d)
  {
    assert Power(32) == POLY by { LowPowers(); }
    hide Steps, POLY, Power;
    PowerSteps(32, d);
  }

  lemma PowerSteps(m: nat, n: nat)
    ensures Steps(Power(m), n) == Power(m + n)
  {
    StepsAdd(ONE, m, n);
  }

  lemma OddSingleBit(syn: bv32)
    requires SingleBit(syn) && Odd(syn)
    ensures syn == 1
  {}

  lemma EvenSingleBit(syn: bv32)
    requires SingleBit(syn) && !Odd(syn)
    ensures SingleBit(Shr(syn)) && Step(syn) == Shr(syn)
  {}

  // Every single bit is one of the first 32 register states.
  lemma {:induction false} SingleBitIsPower(syn: bv32, k: nat) returns (n: nat)
    requires SingleBit(syn) && Fits(syn, k) && k <= 32
    ensures 32 - k <= n < 32 && Power(n) == syn
    decreases k
  {
    LastPower();
    if k == 0 {
      FitsZero(syn);
    }
    assert k > 0;
    hide SingleBit, Fits, Step, Shr, Odd;
    if Odd(syn) {
      OddSingleBit(syn);
      n := 31;
    } else {
      EvenSingleBit(syn);
      ShrFits(syn, k - 1);
      n := SingleBitIsPower(Shr(syn), k - 1);
      PowerNext(n - 1);
      StepInjective(syn, Power(n - 1));
      n := n - 1;
    }
  }

  lemma LastPower()
    ensures Power(31) == 1
  {
    LowPowers();
    hide Power;
    PowerNext(30);
  }

  // The first 32 register states are single bits.
  lemma {:induction false} LowPower(n: nat)
    requires n < 32
    ensures SingleBit(Power(n))
  {
    if n > 0 {
      LowPower(n - 1);
      LastPower();
      PowerNext(n - 1);
      hide Power, SingleBit, Step;
      if Odd(Power(n - 1)) {
        OddSingleBit(Power(n - 1));
        PowersDistinct(n - 1, 31);
      }
      EvenSingleBit(Power(n - 1));
    }
  }

  // Longest covered message, in bits, for which all the error responses differ.
  const MAX_BITS: nat := 65504

  lemma ResponsesDistinct(d: nat, e: nat)
    requires d < MAX_BITS && e < MAX_BITS
    ensures Response(d) == Response(e) <==> d == e
  {
    ResponseIsPower(d);
    ResponseIsPower(e);
    hide Response, Power;
    if d < e { PowersDistinct(32 + d, 32 + e); }
    if e < d { PowersDistinct(32 + e, 32 + d); }
  }

  lemma ResponseNotSingleBit(d: nat)
    requires d < MAX_BITS
    ensures !SingleBit(Response(d))
  {
    ResponseIsPower(d);
    AllFit(Response(d));
    hide Response, Power, SingleBit, Fits;
    if SingleBit(Response(d)) {
      var n := SingleBitIsPower(Response(d), 32);
      PowersDistinct(n, 32 + d);
    }
  }

  lemma ResponseNonZero(d: nat)
    ensures Response(d) != 0
  {
    if Response(d) == 0 {
      StepsZero(d);
      StepsInjective(POLY, 0, d);
    }
  }

  // ---- what try_correct does

  datatype Correction = Fixed(data: seq<byte>) | Hopeless

  // First distance from d on whose response is the syndrome; nbits when there is none.
  function Distance(syn: bv32, d: nat, nbits: nat): (r: nat)
    requires d <= nbits
    ensures d <= r <= nbits
    ensures r < nbits ==> Response(r) == syn
    ensures forall k :: d <= k < r ==> Response(k) != syn
    decreases nbits - d
  {
    if d == nbits then nbits else if Response(d) == syn then d else Distance(syn, d + 1, nbits)
  }

  // The covered bytes after correction: unchanged when the error is in the checksum
  // itself, one bit flipped when that explains the syndrome, and hopeless when
  // nothing does or when the bit is in byte 0 (the frame type).
  function Correct(data: seq<byte>, syn: bv32): (c: Correction)
    ensures c.Fixed? ==> |c.data| == |data|
  {
    var nbits := 8 * |data|;
    var d := Distance(syn, 0, nbits);
    if SingleBit(syn) then Fixed(data)
    else if d == nbits then Hopeless
    else if (nbits - 1 - d) / 8 == 0 then Hopeless
    else Fixed(Flip(data, nbits - 1 - d))
  }

  function Syndrome(data: seq<byte>, recv: bv32): bv32 { Xor(Crc(data), recv) }

  // Soundness: a corrected frame is a codeword one bit away from what arrived.
  lemma CorrectIsCodeword(data: seq<byte>, recv: bv32)
    requires recv != Crc(data)
    ensures match Correct(data, Syndrome(data, recv))
            case Hopeless => true
            case Fixed(fixed) =>
              || (fixed == data && SingleBit(Xor(Crc(fixed), recv)))
              || (Crc(fixed) == recv && exists p :: 8 <= p < 8 * |data| && fixed == Flip(data, p))
  {
    var syn := Syndrome(data, recv);
    var nbits := 8 * |data|;
    var d := Distance(syn, 0, nbits);
    if !SingleBit(syn) && d < nbits && (nbits - 1 - d) / 8 != 0 {
      hide SingleBit, Response, Xor;
      var p := nbits - 1 - d;
      CrcOfFlip(data, p);
      assert Response(d) == Xor(Crc(data), recv);
      XorUndo(Crc(data), recv);
      assert 8 <= p < 8 * |data| && Flip(data, p) == Correct(data, syn).data;
    }
  }

  lemma XorUndo(a: bv32, b: bv32)
    ensures Xor(a, Xor(a, b)) == b
  {}

  lemma CrcOfFlip(data: seq<byte>, p: nat)
    requires p < 8 * |data|
    ensures Crc(Flip(data, p)) == Xor(Crc(data), Response(8 * |data| - 1 - p))
  {
    hide *;
    var raw, change := Raw(data, ALL_ONES), Response(8 * |data| - 1 - p);
    RawOfFlip(data, ALL_ONES, p);
    ResponseIsSteps(8 * |data| - 1 - p);
    CrcIsXor(data);
    CrcIsXor(Flip(data, p));
    XorAssoc(raw, change, ALL_ONES);
    XorAssoc(raw, ALL_ONES, change);
    XorComm(change, ALL_ONES);
  }

  const ALL_ONES: bv32 := 0xFFFF_FFFF

  lemma CrcIsXor(data: seq<byte>)
    ensures Crc(data) == Xor(Raw(data, ALL_ONES), ALL_ONES)
  {
    hide Raw, Xor;
    ComplementIsXor(Raw(data, ALL_ONES));
  }

  lemma ResponseIsSteps(d: nat)
    ensures Response(d) == Steps(POLY, d)
  {}

  lemma ComplementIsXor(a: bv32)
    ensures !a == Xor(a, 0xFFFF_FFFF)
  {}

  // Exact correction of a flipped covered bit outside byte 0.
  lemma CorrectsDataBit(data: seq<byte>, p: nat)
    requires 8 * |data| <= MAX_BITS && 8 <= p < 8 * |data|
    ensures Crc(Flip(data, p)) != Crc(data)
    ensures Correct(Flip(data, p), Syndrome(Flip(data, p), Crc(data))) == Fixed(data)
  {
    hide Xor, SingleBit, Response, Distance, Crc;
    var nbits := 8 * |data|;
    var d := nbits - 1 - p;
    CrcOfFlip(data, p);
    ResponseNonZero(d);
    XorBack(Crc(data), Response(d));
    ResponseNotSingleBit(d);
    DistanceIs(d, nbits);
    FlipTwice(data, p);
  }

  lemma XorBack(a: bv32, b: bv32)
    ensures Xor(Xor(a, b), a) == b
    ensures b != 0 ==> Xor(a, b) != a
  {}

  lemma DistanceIs(d: nat, nbits: nat)
    requires d < nbits <= MAX_BITS
    ensures Distance(Response(d), 0, nbits) == d
  {
    var r := Distance(Response(d), 0, nbits);
    hide Response;
    if r < nbits { ResponsesDistinct(r, d); }
  }

  // A flipped type bit is never "corrected" into another type.
  lemma TypeBitHopeless(data: seq<byte>, p: nat)
    requires 8 * |data| <= MAX_BITS && |data| > 0 && p < 8
    ensures Correct(Flip(data, p), Syndrome(Flip(data, p), Crc(data))) == Hopeless
  {
    hide Xor, SingleBit, Response, Distance, Crc;
    var nbits := 8 * |data|;
    var d := nbits - 1 - p;
    CrcOfFlip(data, p);
    XorBack(Crc(data), Response(d));
    ResponseNotSingleBit(d);
    DistanceIs(d, nbits);
  }

  // An error in the checksum itself leaves the data alone.
  lemma CorrectsChecksumBit(data: seq<byte>, recv: bv32)
    requires SingleBit(Xor(Crc(data), recv))
    ensures Correct(data, Syndrome(data, recv)) == Fixed(data)
  {}
}
