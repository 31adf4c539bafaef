module Crc32 {
  import opened Lfsr

  type byte = bv8

  // ---- The reference: one message bit at a time, least significant bit of each byte first.

  function BitWord(b: bool): bv32 { if b then 1 else 0 }

  function Feed(r: bv32, b: bool): bv32 { Step(Xor(r, BitWord(b))) }

  function FeedBits(r: bv32, bits: seq<bool>): bv32
  {
    if |bits| == 0 then r else Feed(FeedBits(r, bits[..|bits| - 1]), bits[|bits| - 1])
  }

  function ByteBits(b: byte): (bits: seq<bool>)
    ensures |bits| == 8
  {
    [b & 1 != 0, b & 2 != 0, b & 4 != 0, b & 8 != 0, b & 16 != 0, b & 32 != 0, b & 64 != 0, b & 128 != 0]
  }

  function Bits(data: seq<byte>): (bits: seq<bool>)
    ensures |bits| == 8 * |data|
  {
    if |data| == 0 then [] else Bits(data[..|data| - 1]) + ByteBits(data[|data| - 1])
  }

  // The register after a message, and the transmitted checksum.
  function Raw(data: seq<byte>, state: bv32): bv32 { FeedBits(state, Bits(data)) }

  function Crc(data: seq<byte>): bv32 { !Raw(data, 0xFFFF_FFFF) }

  // ---- Composition, linearity

  lemma {:induction false} FeedBitsConcat(r: bv32, a: seq<bool>, b: seq<bool>)
    ensures FeedBits(r, a + b) == FeedBits(FeedBits(r, a), b)
  {
    hide Feed;
    if |b| == 0 {
      assert a + b == a;
    } else {
      var c := a + b;
      assert c[..|c| - 1] == a + b[..|b| - 1];
      FeedBitsConcat(r, a, b[..|b| - 1]);
    }
  }

  lemma {:induction false} BitsConcat(a: seq<byte>, b: seq<byte>)
    ensures Bits(a + b) == Bits(a) + Bits(b)
  {
    hide ByteBits;
    if |b| == 0 {
      assert a + b == a;
    } else {
      var c := a + b;
      assert c[..|c| - 1] == a + b[..|b| - 1];
      BitsConcat(a, b[..|b| - 1]);
    }
  }

  lemma RawConcat(a: seq<byte>, b: seq<byte>, state: bv32)
    ensures Raw(a + b, state) == Raw(b, Raw(a, state))
  {
    hide FeedBits, Bits;
    BitsConcat(a, b);
    FeedBitsConcat(state, Bits(a), Bits(b));
  }

  function XorBits(a: seq<bool>, b: seq<bool>): (c: seq<bool>)
    requires |a| == |b|
    ensures |c| == |a|
  {
    seq(|a|, i requires 0 <= i < |a| => a[i] != b[i])
  }

  lemma FeedXor(r: bv32, s: bv32, a: bool, b: bool)
    ensures Feed(Xor(r, s), a != b) == Xor(Feed(r, a), Feed(s, b))
  {
    assert BitWord(a != b) == Xor(BitWord(a), BitWord(b));
    hide Xor, Step, BitWord;
    XorSwap(r, s, BitWord(a), BitWord(b));
    StepXor(Xor(r, BitWord(a)), Xor(s, BitWord(b)));
  }

  lemma {:induction false} FeedBitsXor(r: bv32, s: bv32, a: seq<bool>, b: seq<bool>)
    requires |a| == |b|
    ensures FeedBits(Xor(r, s), XorBits(a, b)) == Xor(FeedBits(r, a), FeedBits(s, b))
  {
    hide Feed, Xor;
    if |a| > 0 {
      var n := |a| - 1;
      FeedBitsXor(r, s, a[..n], b[..n]);
      assert XorBits(a, b)[..n] == XorBits(a[..n], b[..n]);
      FeedXor(FeedBits(r, a[..n]), FeedBits(s, b[..n]), a[n], b[n]);
    }
  }

  // ---- The nibble table

  function NibbleTable(i: bv32): bv32 {
    if i == 0x0 then 0x00000000 else if i == 0x1 then 0x1DB71064
    else if i == 0x2 then 0x3B6E20C8 else if i == 0x3 then 0x26D930AC
    else if i == 0x4 then 0x76DC4190 else if i == 0x5 then 0x6B6B51F4
    else if i == 0x6 then 0x4DB26158 else if i == 0x7 then 0x5005713C
    else if i == 0x8 then 0xEDB88320 else if i == 0x9 then 0xF00F9344
    else if i == 0xA then 0xD6D6A3E8 else if i == 0xB then 0xCB61B38C
    else if i == 0xC then 0x9B64C2B0 else if i == 0xD then 0x86D3D2D4
    else if i == 0xE then 0xA00AE278 else 0xBDBDF21C
  }

  function ShrNibble(crc: bv32): bv32 { crc >> 4 }

  function NibbleIndex(crc: bv32, d: bv32): bv32 { (crc ^ d) & 0x0F }

  function NibbleStep(crc: bv32, d: bv32): bv32 { Xor(ShrNibble(crc), NibbleTable(NibbleIndex(crc, d))) }

  function BitAt(b: bool, w: bv32): bv32 { if b then w else 0 }

  // A bit entering after a step could have entered one place higher before it.
  lemma EnterEarlier(y: bv32, b: bool, w: bv32)
    requires w == 1 || w == 2 || w == 4
    ensures Xor(Step(y), BitAt(b, w)) == Step(Xor(y, BitAt(b, 2 * w)))
  {
    StepOfBit(b, w);
    hide Xor, Step, BitAt;
    StepXor(y, BitAt(b, 2 * w));
  }

  lemma StepOfBit(b: bool, w: bv32)
    requires w == 1 || w == 2 || w == 4
    ensures Step(BitAt(b, 2 * w)) == BitAt(b, w)
  {}

  function LowNibble(d: bv32): bv32 { d & 0x0F }

  lemma LowNibbleBits(d: bv32)
    ensures Xor(BitAt(d & 1 != 0, 1), Xor(BitAt(d & 2 != 0, 2), Xor(BitAt(d & 4 != 0, 4), BitAt(d & 8 != 0, 8))))
         == LowNibble(d)
  {}

  lemma FeedAsBit(r: bv32, b: bool)
    ensures Feed(r, b) == Step(Xor(r, BitAt(b, 1)))
  {}

  lemma FourFeeds(r: bv32, b0: bool, b1: bool, b2: bool, b3: bool)
    ensures Feed(Feed(Feed(Feed(r, b0), b1), b2), b3)
         == Step(Step(Step(Step(
              Xor(r, Xor(BitAt(b0, 1), Xor(BitAt(b1, 2), Xor(BitAt(b2, 4), BitAt(b3, 8)))))))))
  {
    hide Feed, Xor, Step, BitAt;
    var p0, p1, p2, p3 := BitAt(b0, 1), BitAt(b1, 2), BitAt(b2, 4), BitAt(b3, 8);
    var x0 := Xor(r, p0);
    var x1 := Xor(x0, p1);
    var x2 := Xor(x1, p2);
    FeedAsBit(r, b0);
    FeedAsBit(Step(x0), b1);
    EnterEarlier(x0, b1, 1);
    FeedAsBit(Step(Step(x1)), b2);
    EnterEarlier(Step(x1), b2, 1);
    EnterEarlier(x1, b2, 2);
    FeedAsBit(Step(Step(Step(x2))), b3);
    EnterEarlier(Step(Step(x2)), b3, 1);
    EnterEarlier(Step(x2), b3, 2);
    EnterEarlier(x2, b3, 4);
    XorAssoc(x1, p2, p3);
    XorAssoc(x0, p1, Xor(p2, p3));
    XorAssoc(r, p0, Xor(p1, Xor(p2, p3)));
  }

  lemma NibbleMix(crc: bv32, d: bv32)
    ensures NibbleStep(Xor(crc, LowNibble(d)), 0) == NibbleStep(crc, d)
  {
    NibbleMixParts(crc, d);
    hide Xor, LowNibble, NibbleTable, ShrNibble, NibbleIndex;
  }

  lemma NibbleMixParts(crc: bv32, d: bv32)
    ensures ShrNibble(Xor(crc, LowNibble(d))) == ShrNibble(crc)
    ensures NibbleIndex(Xor(crc, LowNibble(d)), 0) == NibbleIndex(crc, d)
  {}

  function FourSteps(y: bv32): bv32 { Step(Step(Step(Step(y)))) }

  lemma FourStepsXor(a: bv32, b: bv32)
    ensures FourSteps(Xor(a, b)) == Xor(FourSteps(a), FourSteps(b))
  {
    hide Xor, Step;
    StepXor(a, b);
    StepXor(Step(a), Step(b));
    StepXor(Step(Step(a)), Step(Step(b)));
    StepXor(Step(Step(Step(a))), Step(Step(Step(b))));
  }

  function HighBits(y: bv32): bv32 { y & 0xFFFF_FFF0 }

  lemma SplitNibble(y: bv32)
    ensures y == Xor(HighBits(y), LowNibble(y))
    ensures NibbleIndex(y, 0) == LowNibble(y)
  {}

  lemma HighFourSteps(y: bv32)
    ensures FourSteps(HighBits(y)) == ShrNibble(y)
  {
    assert !Odd(HighBits(y)) && !Odd(Shr(HighBits(y)));
    assert !Odd(Shr(Shr(HighBits(y)))) && !Odd(Shr(Shr(Shr(HighBits(y)))));
  }

  lemma TableIsFourSteps(n: bv32)
    requires n <= 15
    ensures NibbleTable(n) == FourSteps(n)
  {}

  lemma TableOfLowNibble(y: bv32)
    ensures NibbleTable(LowNibble(y)) == FourSteps(LowNibble(y))
  {
    assert LowNibble(y) <= 15;
    hide FourSteps, NibbleTable;
    TableIsFourSteps(LowNibble(y));
  }

  lemma NibbleIsFourSteps(y: bv32)
    ensures NibbleStep(y, 0) == FourSteps(y)
  {
    SplitNibble(y);
    HighFourSteps(y);
    TableOfLowNibble(y);
    hide Xor, FourSteps, HighBits, LowNibble, NibbleTable, ShrNibble, NibbleIndex;
    FourStepsXor(HighBits(y), LowNibble(y));
  }

  lemma NibbleFeeds(crc: bv32, d: bv32)
    ensures NibbleStep(crc, d)
         == Feed(Feed(Feed(Feed(crc, d & 1 != 0), d & 2 != 0), d & 4 != 0), d & 8 != 0)
  {
    hide Feed, Xor, Step, BitAt, NibbleTable, NibbleStep, LowNibble;
    NibbleMix(crc, d);
    LowNibbleBits(d);
    FourFeeds(crc, d & 1 != 0, d & 2 != 0, d & 4 != 0, d & 8 != 0);
    NibbleIsFourSteps(Xor(crc, LowNibble(d)));
  }

  lemma ByteWord(b: byte)
    ensures var d := b as bv32;
            ByteBits(b) == [d & 1 != 0, d & 2 != 0, d & 4 != 0, d & 8 != 0,
                            (d >> 4) & 1 != 0, (d >> 4) & 2 != 0, (d >> 4) & 4 != 0, (d >> 4) & 8 != 0]
  {}

  lemma ByteFeeds(crc: bv32, b: byte)
    ensures NibbleStep(NibbleStep(crc, b as bv32), b as bv32 >> 4) == Raw([b], crc)
  {
    hide NibbleStep, Feed;
    var d := b as bv32;
    NibbleFeeds(crc, d);
    NibbleFeeds(NibbleStep(crc, d), d >> 4);
    ByteWord(b);
    assert Bits([b]) == ByteBits(b);
    EightFeeds(crc, ByteBits(b));
  }

  lemma EightFeeds(r: bv32, s: seq<bool>)
    requires |s| == 8
    ensures FeedBits(r, s)
         == Feed(Feed(Feed(Feed(Feed(Feed(Feed(Feed(r, s[0]), s[1]), s[2]), s[3]), s[4]), s[5]), s[6]), s[7])
  {
    hide Feed;
    assert s[..8][..7] == s[..7];
    assert s[..7][..6] == s[..6];
    assert s[..6][..5] == s[..5];
    assert s[..5][..4] == s[..4];
    assert s[..4][..3] == s[..3];
    assert s[..3][..2] == s[..2];
    assert s[..2][..1] == s[..1];
    assert s[..1][..0] == [];
    assert s == s[..8];
    assert FeedBits(r, s[..1]) == Feed(r, s[0]);
    assert FeedBits(r, s[..2]) == Feed(FeedBits(r, s[..1]), s[1]);
    assert FeedBits(r, s[..3]) == Feed(FeedBits(r, s[..2]), s[2]);
    assert FeedBits(r, s[..4]) == Feed(FeedBits(r, s[..3]), s[3]);
    assert FeedBits(r, s[..5]) == Feed(FeedBits(r, s[..4]), s[4]);
    assert FeedBits(r, s[..6]) == Feed(FeedBits(r, s[..5]), s[5]);
    assert FeedBits(r, s[..7]) == Feed(FeedBits(r, s[..6]), s[6]);
  }

  method Crc32Raw(data: array<byte>, len: nat, state: bv32) returns (crc: bv32)
    requires len <= data.Length
    ensures crc == Raw(data[..len], state)
  {
    hide Raw, NibbleStep;
    crc := state;
    RawEmpty(state);
    for i := 0 to len
      invariant crc == Raw(data[..i], state)
    {
      ByteFeeds(crc, data[i]);
      RawConcat(data[..i], [data[i]], state);
      assert data[..i + 1] == data[..i] + [data[i]];
      crc := NibbleStep(crc, data[i] as bv32);
      crc := NibbleStep(crc, data[i] as bv32 >> 4);
    }
  }

  lemma RawEmpty(state: bv32)
    ensures Raw([], state) == state
  {}

  // The check value of the CRC-32 of IEEE 802.3: that of the nine digits.
  lemma CheckValue()
    ensures Crc([0x31, 0x32, 0x33, 0x34, 0x35, 0x36, 0x37, 0x38, 0x39]) == 0xCBF4_3926
  {
    hide Raw, NibbleStep;
    var s: seq<byte> := [0x31, 0x32, 0x33, 0x34, 0x35, 0x36, 0x37, 0x38, 0x39];
    RawEmpty(0xFFFF_FFFF);
    assert s[..0] == [];
    DigitSteps();
    Fed(s, 0, 0xFFFFFFFF, 0x7C231048);
    Fed(s, 1, 0x7C231048, 0xB0ACBB32);
    Fed(s, 2, 0xB0ACBB32, 0x77B79C2D);
    Fed(s, 3, 0x77B79C2D, 0x641C1F5C);
    Fed(s, 4, 0x641C1F5C, 0x340AC5E3);
    Fed(s, 5, 0x340AC5E3, 0xF68D2C9E);
    Fed(s, 6, 0xF68D2C9E, 0xAFFC9660);
    Fed(s, 7, 0xAFFC9660, 0x651F2550);
    Fed(s, 8, 0x651F2550, 0x340BC6D9);
    assert s[..9] == s;
  }

  // One byte more, by two table steps.
  lemma Fed(s: seq<byte>, k: nat, before: bv32, after: bv32)
    requires k < |s| && Raw(s[..k], 0xFFFF_FFFF) == before
    requires NibbleStep(NibbleStep(before, s[k] as bv32), s[k] as bv32 >> 4) == after
    ensures Raw(s[..k + 1], 0xFFFF_FFFF) == after
  {
    hide Raw, NibbleStep;
    ByteFeeds(before, s[k]);
    RawConcat(s[..k], [s[k]], 0xFFFF_FFFF);
    assert s[..k + 1] == s[..k] + [s[k]];
  }

  lemma DigitSteps()
    ensures NibbleStep(NibbleStep(0xFFFFFFFF, 0x31), 0x3) == 0x7C231048
    ensures NibbleStep(NibbleStep(0x7C231048, 0x32), 0x3) == 0xB0ACBB32
    ensures NibbleStep(NibbleStep(0xB0ACBB32, 0x33), 0x3) == 0x77B79C2D
    ensures NibbleStep(NibbleStep(0x77B79C2D, 0x34), 0x3) == 0x641C1F5C
    ensures NibbleStep(NibbleStep(0x641C1F5C, 0x35), 0x3) == 0x340AC5E3
    ensures NibbleStep(NibbleStep(0x340AC5E3, 0x36), 0x3) == 0xF68D2C9E
    ensures NibbleStep(NibbleStep(0xF68D2C9E, 0x37), 0x3) == 0xAFFC9660
    ensures NibbleStep(NibbleStep(0xAFFC9660, 0x38), 0x3) == 0x651F2550
    ensures NibbleStep(NibbleStep(0x651F2550, 0x39), 0x3) == 0x340BC6D9
  {}

  // ---- One flipped bit

  lemma {:induction false} FlipSyndrome(r: bv32, bits: seq<bool>, p: nat)
    requires p < |bits|
    ensures FeedBits(r, bits[p := !bits[p]]) == Xor(FeedBits(r, bits), Steps(POLY, |bits| - 1 - p))
  {
    hide Feed, Xor, Step;
    var n := |bits| - 1;
    var flipped := bits[p := !bits[p]];
    var y := FeedBits(r, bits[..n]);
    if p == n {
      assert flipped[..n] == bits[..n];
      FeedFlip(y, bits[n]);
    } else {
      assert flipped[..n] == bits[..n][p := !bits[p]];
      FlipSyndrome(r, bits[..n], p);
      FeedDifference(y, Steps(POLY, n - 1 - p), bits[n]);
    }
  }

  lemma FeedFlip(y: bv32, b: bool)
    ensures Feed(y, !b) == Xor(Feed(y, b), POLY)
  {
    FeedBitXor(y, 0, b, true);
    XorZero(y);
    FeedOne();
    hide Feed, Xor;
  }

  lemma FeedOne()
    ensures Feed(0, true) == POLY
  {}

  lemma FeedBitXor(r: bv32, s: bv32, a: bool, b: bool)
    ensures Feed(Xor(r, s), a != b) == Xor(Feed(r, a), Feed(s, b))
  {
    FeedXor(r, s, a, b);
  }

  lemma FeedDifference(y: bv32, d: bv32, b: bool)
    ensures Feed(Xor(y, d), b) == Xor(Feed(y, b), Step(d))
  {
    FeedXor(y, d, b, false);
    assert Feed(d, false) == Step(d) by { XorZero(d); }
    hide Feed, Xor, Step;
  }

  // ---- Bits of bytes

  // The value of bit j of a byte, as `1u << bit` in the code.
  function BitValue(j: nat): byte
    requires j < 8
  {
    if j == 0 then 1 else if j == 1 then 2 else if j == 2 then 4 else if j == 3 then 8
    else if j == 4 then 16 else if j == 5 then 32 else if j == 6 then 64 else 128
  }

  function FlipByte(b: byte, j: nat): byte
    requires j < 8
  {
    b ^ BitValue(j)
  }

  lemma FlipByteBits(b: byte, j: nat)
    requires j < 8
    ensures ByteBits(FlipByte(b, j)) == ByteBits(b)[j := !ByteBits(b)[j]]
  {
    hide FlipByte, BitOf, ByteBits;
    var f := FlipByte(b, j);
    var bits := ByteBits(b);
    forall k | 0 <= k < 8
      ensures ByteBits(f)[k] == bits[j := !bits[j]][k]
    {
      FlipByteBit(b, j, k);
      ByteBitAt(b, k);
      ByteBitAt(f, k);
    }
  }

  predicate BitOf(b: byte, k: nat)
    requires k < 8
  {
    b & BitValue(k) != 0
  }

  lemma ByteBitAt(b: byte, k: nat)
    requires k < 8
    ensures ByteBits(b)[k] == BitOf(b, k)
  {}

  lemma FlipByteBit(b: byte, j: nat, k: nat)
    requires j < 8 && k < 8
    ensures BitOf(FlipByte(b, j), k) == (BitOf(b, k) != (j == k))
  {}

  lemma FlipByteTwice(b: byte, j: nat)
    requires j < 8
    ensures FlipByte(FlipByte(b, j), j) == b && FlipByte(b, j) != b
  {}

  // data with bit p (byte by byte, least significant first) flipped.
  function Flip(data: seq<byte>, p: nat): (r: seq<byte>)
    requires p < 8 * |data|
    ensures |r| == |data|
  {
    data[p / 8 := FlipByte(data[p / 8], p % 8)]
  }

  lemma FlipTwice(data: seq<byte>, p: nat)
    requires p < 8 * |data|
    ensures Flip(Flip(data, p), p) == data
  {
    FlipByteTwice(data[p / 8], p % 8);
    hide FlipByte;
  }

  lemma {:induction false} FlipBits(data: seq<byte>, p: nat)
    requires p < 8 * |data|
    ensures Bits(Flip(data, p)) == Bits(data)[p := !Bits(data)[p]]
  {
    hide ByteBits, FlipByte;
    var n := |data| - 1;
    if p / 8 == n {
      assert Flip(data, p)[..n] == data[..n];
      FlipByteBits(data[n], p % 8);
    } else {
      assert Flip(data, p)[..n] == Flip(data[..n], p);
      FlipBits(data[..n], p);
    }
  }

  lemma RawOfFlip(data: seq<byte>, state: bv32, p: nat)
    requires p < 8 * |data|
    ensures Raw(Flip(data, p), state) == Xor(Raw(data, state), Steps(POLY, 8 * |data| - 1 - p))
  {
    FlipBits(data, p);
    FlipSyndrome(state, Bits(data), p);
  }
}
