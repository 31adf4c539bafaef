// The diagnostic checksum, CRC-16/CCITT-FALSE, and the test for a single flipped bit.
module Crc16 {
  type byte = bv8

  const POLY: bv16 := 0x1021

  function Xor(a: bv16, b: bv16): bv16 { a ^ b }

  function Shl(a: bv16): bv16 { a << 1 }

  predicate Top(a: bv16) { a & 0x8000 != 0 }

  function Pick(b: bool, c: bv16): bv16 { if b then c else 0 }

  function Step(r: bv16): bv16 { Xor(Shl(r), Pick(Top(r), POLY)) }

  // ---- The reference: one message bit at a time, most significant bit of each byte first

  function Feed(r: bv16, b: bool): bv16 { Step(Xor(r, Pick(b, 0x8000))) }

  function FeedBits(r: bv16, bits: seq<bool>): bv16
  {
    if |bits| == 0 then r else Feed(FeedBits(r, bits[..|bits| - 1]), bits[|bits| - 1])
  }

  function ByteBits(b: byte): (bits: seq<bool>)
    ensures |bits| == 8
  {
    [b & 128 != 0, b & 64 != 0, b & 32 != 0, b & 16 != 0, b & 8 != 0, b & 4 != 0, b & 2 != 0, b & 1 != 0]
  }

  function Bits(data: seq<byte>): (bits: seq<bool>)
    ensures |bits| == 8 * |data|
  {
    if |data| == 0 then [] else Bits(data[..|data| - 1]) + ByteBits(data[|data| - 1])
  }

  lemma {:induction false} FeedBitsConcat(r: bv16, a: seq<bool>, b: seq<bool>)
    ensures FeedBits(r, a + b) == FeedBits(FeedBits(r, a), b)
  {
    hide Feed;
    if |b| == 0 {
      assert a + b == a;
    } else {
      var c := a + b;
      assert c[..|c| - 1] == a + b[..|b| - 1];
      FeedBitsConcat(r, a, b[..|b| - 1]);
    }
  }

  // ---- The nibble table

  function Table(i: bv16): bv16 {
    if i == 0x0 then 0x0000 else if i == 0x1 then 0x1021 else if i == 0x2 then 0x2042 else if i == 0x3 then 0x3063
    else if i == 0x4 then 0x4084 else if i == 0x5 then 0x50A5 else if i == 0x6 then 0x60C6 else if i == 0x7 then 0x70E7
    else if i == 0x8 then 0x8108 else if i == 0x9 then 0x9129 else if i == 0xA then 0xA14A else if i == 0xB then 0xB16B
    else if i == 0xC then 0xC18C else if i == 0xD then 0xD1AD else if i == 0xE then 0xE1CE else 0xF1EF
  }

  function ShlNibble(a: bv16): bv16 { a << 4 }
  function TopNibble(a: bv16): bv16 { a >> 12 }
  function Raised(d: bv16): bv16 { d << 12 }
  function LowBits(a: bv16): bv16 { a & 0x0FFF }

  function NibbleStep(crc: bv16, d: bv16): bv16 { Xor(ShlNibble(crc), Table(Xor(TopNibble(crc), d))) }

  lemma XorAssoc(a: bv16, b: bv16, c: bv16)
    ensures Xor(Xor(a, b), c) == Xor(a, Xor(b, c))
  {}

  lemma XorComm(a: bv16, b: bv16)
    ensures Xor(a, b) == Xor(b, a)
  {}

  lemma XorSwap(a: bv16, b: bv16, c: bv16, d: bv16)
    ensures Xor(Xor(a, b), Xor(c, d)) == Xor(Xor(a, c), Xor(b, d))
  {
    hide Xor;
    XorAssoc(a, b, Xor(c, d));
    XorAssoc(a, c, Xor(b, d));
    assert Xor(b, Xor(c, d)) == Xor(c, Xor(b, d)) by {
      XorAssoc(b, c, d);
      XorAssoc(c, b, d);
      XorComm(b, c);
    }
  }

  lemma ShlXor(a: bv16, b: bv16)
    ensures Shl(Xor(a, b)) == Xor(Shl(a), Shl(b))
  {}

  lemma TopXor(a: bv16, b: bv16)
    ensures Top(Xor(a, b)) == (Top(a) != Top(b))
  {}

  lemma PickXor(a: bv16, b: bv16)
    ensures Pick(Top(Xor(a, b)), POLY) == Xor(Pick(Top(a), POLY), Pick(Top(b), POLY))
  {
    TopXor(a, b);
    hide Top;
  }

  lemma StepXor(a: bv16, b: bv16)
    ensures Step(Xor(a, b)) == Xor(Step(a), Step(b))
  {
    hide Shl, Top, Pick, Xor;
    ShlXor(a, b);
    PickXor(a, b);
    XorSwap(Shl(a), Shl(b), Pick(Top(a), POLY), Pick(Top(b), POLY));
  }

  // A bit entering after a step could have entered one place lower before it.
  lemma EnterEarlier(y: bv16, b: bool, w: bv16)
    requires w == 0x4000 || w == 0x2000 || w == 0x1000
    ensures Xor(Step(y), Pick(b, Shl(w))) == Step(Xor(y, Pick(b, w)))
  {
    StepOfBit(b, w);
    hide Xor, Step, Pick, Shl;
    StepXor(y, Pick(b, w));
  }

  lemma StepOfBit(b: bool, w: bv16)
    requires w == 0x4000 || w == 0x2000 || w == 0x1000
    ensures Step(Pick(b, w)) == Pick(b, Shl(w))
  {}

  function FourSteps(y: bv16): bv16 { Step(Step(Step(Step(y)))) }

  lemma FourFeeds(r: bv16, b0: bool, b1: bool, b2: bool, b3: bool)
    ensures Feed(Feed(Feed(Feed(r, b0), b1), b2), b3)
         == FourSteps(Xor(r, Xor(Pick(b0, 0x8000), Xor(Pick(b1, 0x4000), Xor(Pick(b2, 0x2000), Pick(b3, 0x1000))))))
  {
    assert Shl(0x4000) == 0x8000 && Shl(0x2000) == 0x4000 && Shl(0x1000) == 0x2000;
    hide Xor, Step, Pick, Shl;
    var p0, p1, p2, p3 := Pick(b0, 0x8000), Pick(b1, 0x4000), Pick(b2, 0x2000), Pick(b3, 0x1000);
    var x0 := Xor(r, p0);
    var x1 := Xor(x0, p1);
    var x2 := Xor(x1, p2);
    EnterEarlier(x0, b1, 0x4000);
    EnterEarlier(Step(x1), b2, 0x4000);
    EnterEarlier(x1, b2, 0x2000);
    EnterEarlier(Step(Step(x2)), b3, 0x4000);
    EnterEarlier(Step(x2), b3, 0x2000);
    EnterEarlier(x2, b3, 0x1000);
    XorAssoc(x1, p2, p3);
    XorAssoc(x0, p1, Xor(p2, p3));
    XorAssoc(r, p0, Xor(p1, Xor(p2, p3)));
  }

  lemma NibbleBits(d: bv16)
    requires d <= 15
    ensures Xor(Pick(d & 8 != 0, 0x8000),
                Xor(Pick(d & 4 != 0, 0x4000),
                    Xor(Pick(d & 2 != 0, 0x2000), Pick(d & 1 != 0, 0x1000))))
         == Raised(d)
  {}

  lemma FourStepsXor(a: bv16, b: bv16)
    ensures FourSteps(Xor(a, b)) == Xor(FourSteps(a), FourSteps(b))
  {
    hide Xor, Step;
    StepXor(a, b);
    StepXor(Step(a), Step(b));
    StepXor(Step(Step(a)), Step(Step(b)));
    StepXor(Step(Step(Step(a))), Step(Step(Step(b))));
  }

  lemma LowFourSteps(y: bv16)
    ensures FourSteps(LowBits(y)) == ShlNibble(y)
  {
    var x := LowBits(y);
    assert !Top(x) && !Top(Shl(x)) && !Top(Shl(Shl(x))) && !Top(Shl(Shl(Shl(x))));
  }

  lemma TableIsFourSteps(n: bv16)
    requires n <= 15
    ensures Table(n) == FourSteps(Raised(n))
  {}

  lemma SplitNibble(y: bv16)
    ensures y == Xor(LowBits(y), Raised(TopNibble(y))) && TopNibble(y) <= 15
  {}

  lemma NibbleIsFourSteps(y: bv16)
    ensures Xor(ShlNibble(y), Table(TopNibble(y))) == FourSteps(y)
  {
    SplitNibble(y);
    LowFourSteps(y);
    hide Xor, FourSteps, LowBits, Raised, TopNibble, ShlNibble, Table;
    TableIsFourSteps(TopNibble(y));
    FourStepsXor(LowBits(y), Raised(TopNibble(y)));
  }

  lemma NibbleMix(crc: bv16, d: bv16)
    requires d <= 15
    ensures ShlNibble(Xor(crc, Raised(d))) == ShlNibble(crc)
    ensures TopNibble(Xor(crc, Raised(d))) == Xor(TopNibble(crc), d)
  {}

  // One table step takes in four bits.
  lemma NibbleFeeds(crc: bv16, d: bv16)
    requires d <= 15
    ensures NibbleStep(crc, d)
         == Feed(Feed(Feed(Feed(crc, d & 8 != 0), d & 4 != 0), d & 2 != 0), d & 1 != 0)
  {
    hide Xor, Feed, FourSteps, LowBits, Raised, TopNibble, ShlNibble, Table, Pick;
    NibbleBits(d);
    FourFeeds(crc, d & 8 != 0, d & 4 != 0, d & 2 != 0, d & 1 != 0);
    NibbleMix(crc, d);
    NibbleIsFourSteps(Xor(crc, Raised(d)));
  }

  lemma ByteNibbles(b: byte)
    ensures var d := b as bv16;
            && d >> 4 <= 15 && d & 0x0F <= 15
            && ByteBits(b) == [(d >> 4) & 8 != 0, (d >> 4) & 4 != 0, (d >> 4) & 2 != 0, (d >> 4) & 1 != 0,
                               (d & 0x0F) & 8 != 0, (d & 0x0F) & 4 != 0, (d & 0x0F) & 2 != 0, (d & 0x0F) & 1 != 0]
  {}

  lemma EightFeeds(r: bv16, s: seq<bool>)
    requires |s| == 8
    ensures FeedBits(r, s)
         == Feed(Feed(Feed(Feed(Feed(Feed(Feed(Feed(r, s[0]), s[1]), s[2]), s[3]), s[4]), s[5]), s[6]), s[7])
  {
    var mid := FeedBits(r, s[..4]);
    hide FeedBits, Feed;
    assert s == s[..4] + s[4..];
    FeedBitsConcat(r, s[..4], s[4..]);
    FourBits(r, s[..4]);
    FourBits(mid, s[4..]);
  }

  lemma FourBits(r: bv16, s: seq<bool>)
    requires |s| == 4
    ensures FeedBits(r, s) == Feed(Feed(Feed(Feed(r, s[0]), s[1]), s[2]), s[3])
  {
    hide Feed;
    assert s[..3][..2] == s[..2] && s[..2][..1] == s[..1] && s[..1][..0] == [];
    assert FeedBits(r, s[..1]) == Feed(r, s[0]);
    assert FeedBits(r, s[..2]) == Feed(FeedBits(r, s[..1]), s[1]);
    assert FeedBits(r, s[..3]) == Feed(FeedBits(r, s[..2]), s[2]);
  }

  lemma ByteFeeds(crc: bv16, b: byte)
    ensures NibbleStep(NibbleStep(crc, b as bv16 >> 4), b as bv16 & 0x0F) == FeedBits(crc, ByteBits(b))
  {
    hide NibbleStep, Feed, ByteBits;
    var d := b as bv16;
    ByteNibbles(b);
    NibbleFeeds(crc, d >> 4);
    NibbleFeeds(NibbleStep(crc, d >> 4), d & 0x0F);
    EightFeeds(crc, ByteBits(b));
  }

  method LinkCrc16(data: array<byte>, len: nat, state: bv16) returns (crc: bv16)
    requires len <= data.Length
    ensures crc == FeedBits(state, Bits(data[..len]))
  {
    hide NibbleStep, FeedBits, ByteBits;
    crc := state;
    NoBits(state);
    for i := 0 to len
      invariant crc == FeedBits(state, Bits(data[..i]))
    {
      ByteFeeds(crc, data[i]);
      FeedBitsConcat(state, Bits(data[..i]), ByteBits(data[i]));
      assert data[..i + 1][..i] == data[..i];
      crc := NibbleStep(crc, data[i] as bv16 >> 4);
      crc := NibbleStep(crc, data[i] as bv16 & 0x0F);
    }
  }

  lemma NoBits(state: bv16)
    ensures FeedBits(state, []) == state
  {}

  // The check value of CRC-16/CCITT-FALSE, which starts from all ones: that of the nine digits.
  lemma CheckValue()
    ensures FeedBits(0xFFFF, Bits([0x31, 0x32, 0x33, 0x34, 0x35, 0x36, 0x37, 0x38, 0x39])) == 0x29B1
  {
    hide FeedBits, Bits, NibbleStep;
    var s: seq<byte> := [0x31, 0x32, 0x33, 0x34, 0x35, 0x36, 0x37, 0x38, 0x39];
    assert Bits(s[..0]) == [] by { NoBytes(s); }
    NoBits(0xFFFF);
    DigitSteps();
    Fed(s, 0, 0xFFFF, 0xC782);
    Fed(s, 1, 0xC782, 0x3DBA);
    Fed(s, 2, 0x3DBA, 0x5BCE);
    Fed(s, 3, 0x5BCE, 0x5349);
    Fed(s, 4, 0x5349, 0x4560);
    Fed(s, 5, 0x4560, 0x2EF4);
    Fed(s, 6, 0x2EF4, 0x7718);
    Fed(s, 7, 0x7718, 0xA12B);
    Fed(s, 8, 0xA12B, 0x29B1);
    assert s[..9] == s;
  }

  lemma NoBytes(s: seq<byte>)
    ensures Bits(s[..0]) == []
  {}

  // One byte more, by two table steps.
  lemma Fed(s: seq<byte>, k: nat, before: bv16, after: bv16)
    requires k < |s| && FeedBits(0xFFFF, Bits(s[..k])) == before
    requires NibbleStep(NibbleStep(before, s[k] as bv16 >> 4), s[k] as bv16 & 0x0F) == after
    ensures FeedBits(0xFFFF, Bits(s[..k + 1])) == after
  {
    hide FeedBits, NibbleStep, ByteBits;
    ByteFeeds(before, s[k]);
    FeedBitsConcat(0xFFFF, Bits(s[..k]), ByteBits(s[k]));
    assert s[..k + 1][..k] == s[..k];
  }

  lemma DigitSteps()
    ensures NibbleStep(NibbleStep(0xFFFF, 0x3), 0x1) == 0xC782
    ensures NibbleStep(NibbleStep(0xC782, 0x3), 0x2) == 0x3DBA
    ensures NibbleStep(NibbleStep(0x3DBA, 0x3), 0x3) == 0x5BCE
    ensures NibbleStep(NibbleStep(0x5BCE, 0x3), 0x4) == 0x5349
    ensures NibbleStep(NibbleStep(0x5349, 0x3), 0x5) == 0x4560
    ensures NibbleStep(NibbleStep(0x4560, 0x3), 0x6) == 0x2EF4
    ensures NibbleStep(NibbleStep(0x2EF4, 0x3), 0x7) == 0x7718
    ensures NibbleStep(NibbleStep(0x7718, 0x3), 0x8) == 0xA12B
    ensures NibbleStep(NibbleStep(0xA12B, 0x3), 0x9) == 0x29B1
  {}

  // ---- One flipped bit

  // What flipping the message bit d places before the last does to the checksum.
  function Response(d: nat): bv16 { if d == 0 then POLY else Step(Response(d - 1)) }

  lemma FeedFlip(y: bv16, b: bool)
    ensures Feed(y, !b) == Xor(Feed(y, b), POLY)
  {
    FlippedBit(y, b);
    assert Step(0x8000) == POLY;
    hide Step, Xor, Pick;
    StepXor(Xor(y, Pick(b, 0x8000)), 0x8000);
  }

  lemma FlippedBit(y: bv16, b: bool)
    ensures Xor(y, Pick(!b, 0x8000)) == Xor(Xor(y, Pick(b, 0x8000)), 0x8000)
  {
    assert Pick(!b, 0x8000) == Xor(Pick(b, 0x8000), 0x8000);
    hide Xor, Pick;
    XorAssoc(y, Pick(b, 0x8000), 0x8000);
  }

  lemma FeedDifference(y: bv16, e: bv16, b: bool)
    ensures Feed(Xor(y, e), b) == Xor(Feed(y, b), Step(e))
  {
    hide Step, Xor, Pick;
    var p := Pick(b, 0x8000);
    XorAssoc(y, e, p);
    XorComm(e, p);
    XorAssoc(y, p, e);
    StepXor(Xor(y, p), e);
  }

  lemma {:induction false} FlipSyndrome(r: bv16, bits: seq<bool>, p: nat)
    requires p < |bits|
    ensures FeedBits(r, bits[p := !bits[p]]) == Xor(FeedBits(r, bits), Response(|bits| - 1 - p))
  {
    hide Feed, Xor, Step;
    var n := |bits| - 1;
    var flipped := bits[p := !bits[p]];
    if p == n {
      assert flipped[..n] == bits[..n];
      FeedFlip(FeedBits(r, bits[..n]), bits[n]);
    } else {
      assert flipped[..n] == bits[..n][p := !bits[p]];
      FlipSyndrome(r, bits[..n], p);
      FeedDifference(FeedBits(r, bits[..n]), Response(n - 1 - p), bits[n]);
    }
  }

  lemma StepNotZero(r: bv16)
    requires r != 0
    ensures Step(r) != 0
  {}

  lemma {:induction false} ResponseNotZero(d: nat)
    ensures Response(d) != 0
  {
    hide Step;
    if d > 0 {
      ResponseNotZero(d - 1);
      StepNotZero(Response(d - 1));
    }
  }

  function OneBit(k: nat): bv16
    requires k < 16
  {
    if k == 0 then 1 else Shl(OneBit(k - 1))
  }

  // The word has a single bit set.
  ghost predicate IsOneBit(s: bv16) { exists k: nat | k < 16 :: s == OneBit(k) }

  // The word is what some flipped message bit does to the checksum.
  ghost predicate IsResponse(s: bv16, bits: nat) { exists d: nat | d < bits :: s == Response(d) }

  // A word has a single bit exactly when taking one away clears it.
  lemma OneBits(s: bv16)
    requires s != 0
    ensures s & (s - 1) == 0 <==> IsOneBit(s)
  {
    Values();
    hide OneBit;
    PowersOfTwo(s);
    if s & (s - 1) == 0 {
      Chosen(s);
    }
  }

  lemma Values()
    ensures OneBit(0) == 0x1 && OneBit(1) == 0x2 && OneBit(2) == 0x4 && OneBit(3) == 0x8
    ensures OneBit(4) == 0x10 && OneBit(5) == 0x20 && OneBit(6) == 0x40 && OneBit(7) == 0x80
    ensures OneBit(8) == 0x100 && OneBit(9) == 0x200 && OneBit(10) == 0x400 && OneBit(11) == 0x800
    ensures OneBit(12) == 0x1000 && OneBit(13) == 0x2000 && OneBit(14) == 0x4000 && OneBit(15) == 0x8000
  {}

  predicate Power(s: bv16)
  {
    || s == 0x1 || s == 0x2 || s == 0x4 || s == 0x8 || s == 0x10 || s == 0x20 || s == 0x40 || s == 0x80
    || s == 0x100 || s == 0x200 || s == 0x400 || s == 0x800 || s == 0x1000 || s == 0x2000 || s == 0x4000 || s == 0x8000
  }

  lemma PowersOfTwo(s: bv16)
    requires s != 0
    ensures s & (s - 1) == 0 <==> Power(s)
  {}

  lemma Chosen(s: bv16)
    requires Power(s)
    ensures IsOneBit(s)
  {
    Values();
    hide OneBit;
  }

  // True exactly for the syndromes of a single flipped bit, in a message of that many bits or in
  // the checksum.
  method SingleBit(syndrome: bv16, bits: nat) returns (single: bool)
    ensures single <==> IsResponse(syndrome, bits) || IsOneBit(syndrome)
  {
    hide Step, OneBit, IsOneBit;
    if syndrome == 0 {
      NothingExplainsZero(bits);
      return false;
    }
    OneBits(syndrome);
    if syndrome & (syndrome - 1) == 0 { return true; }
    var r := POLY;
    var d: nat := 0;
    while d < bits
      invariant 0 <= d <= bits && r == Response(d)
      invariant forall e: nat | e < d :: syndrome != Response(e)
    {
      if r == syndrome { return true; }
      r := Step(r);
      d := d + 1;
    }
    return false;
  }

  lemma NothingExplainsZero(bits: nat)
    ensures !IsResponse(0, bits) && !IsOneBit(0)
  {
    forall d: nat | d < bits ensures Response(d) != 0 { ResponseNotZero(d); }
    Values();
    hide OneBit, Response;
    forall k: nat | k < 16 ensures OneBit(k) != 0 {}
  }

  // Some flipped bit of this message changes its checksum by s.
  ghost predicate MessageFlip(s: bv16, state: bv16, bits: seq<bool>)
  {
    exists p: nat | p < |bits| :: Xor(FeedBits(state, bits[p := !bits[p]]), FeedBits(state, bits)) == s
  }

  // Some flipped bit of a checksum changes it by s.
  ghost predicate ChecksumFlip(s: bv16, crc: bv16)
  {
    exists k: nat | k < 16 :: Xor(crc, Xor(crc, OneBit(k))) == s
  }

  lemma FlipIsResponse(state: bv16, bits: seq<bool>, p: nat)
    requires p < |bits|
    ensures Xor(FeedBits(state, bits[p := !bits[p]]), FeedBits(state, bits)) == Response(|bits| - 1 - p)
  {
    hide FeedBits, Response, Xor;
    FlipSyndrome(state, bits, p);
    Undo(FeedBits(state, bits), Response(|bits| - 1 - p));
  }

  // For every message of that length and every start value the test means what it says: a
  // syndrome passes exactly when one flipped bit of the message or of its checksum causes it.
  lemma ExplainedMeansOneFlip(s: bv16, state: bv16, bits: seq<bool>)
    ensures IsResponse(s, |bits|) <==> MessageFlip(s, state, bits)
    ensures IsOneBit(s) <==> ChecksumFlip(s, FeedBits(state, bits))
  {
    hide FeedBits, Response, OneBit, Xor;
    if IsResponse(s, |bits|) {
      var d: nat :| d < |bits| && s == Response(d);
      FlipIsResponse(state, bits, |bits| - 1 - d);
    }
    if MessageFlip(s, state, bits) {
      var p: nat :| p < |bits| && Xor(FeedBits(state, bits[p := !bits[p]]), FeedBits(state, bits)) == s;
      FlipIsResponse(state, bits, p);
    }
    forall k: nat | k < 16 ensures Xor(FeedBits(state, bits), Xor(FeedBits(state, bits), OneBit(k))) == OneBit(k) {
      Undo(FeedBits(state, bits), OneBit(k));
    }
  }

  lemma Undo(a: bv16, e: bv16)
    ensures Xor(Xor(a, e), a) == e && Xor(a, Xor(a, e)) == e
  {}
}
