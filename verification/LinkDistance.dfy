// How far apart the codewords are: two flipped bits never make one of another, so a frame that
// is delivered corrected has one codeword only that can have been sent.
module LinkDistance {
  import opened Lfsr
  import opened Crc32
  import opened LinkCorrection
  import opened LinkFrames
  import opened LinkRecovery

  // What is left of a frame's checksum once that of its covered bytes is taken away.
  function SyndromeOf(f: seq<byte>): bv32
    requires |f| == FRAME_BYTES
  {
    Xor(Crc(f[1..1 + COVERED]), TrailerWord(f[1 + COVERED..]))
  }

  // The register state that a flipped bit after the magic adds to the syndrome.
  function Place(p: nat): (n: nat)
    requires 8 <= p < 8 * FRAME_BYTES
    ensures n < 65536
  {
    if p < 8 + 8 * COVERED then 32 + (8 * COVERED + 7 - p)
    else var q := p - 8 - 8 * COVERED; 8 * (q / 8) + 7 - q % 8
  }

  lemma PlacesDiffer(p: nat, q: nat)
    requires 8 <= p < q < 8 * FRAME_BYTES
    ensures Place(p) != Place(q)
  {}

  lemma FlipAdds(f: seq<byte>, p: nat)
    requires |f| == FRAME_BYTES && 8 <= p < 8 * FRAME_BYTES
    ensures SyndromeOf(Flip(f, p)) == Xor(SyndromeOf(f), Power(Place(p)))
  {
    var data, t := f[1..1 + COVERED], f[1 + COVERED..];
    hide Crc, TrailerWord, Power, Weight, Response, Flip, Xor;
    if p < 8 + 8 * COVERED {
      FlippedData(f, p - 8);
      CrcOfFlip(data, p - 8);
      ResponseIsPower(8 * COVERED - 1 - (p - 8));
      XorSwapLast(Crc(data), Power(Place(p)), TrailerWord(t));
    } else {
      var q := p - 8 - 8 * COVERED;
      FlippedTrailer(f, q);
      TrailerFlip(t, q);
      WeightIs(q);
      XorAssoc(Crc(data), TrailerWord(t), Power(Place(p)));
    }
  }

  lemma FlippedData(f: seq<byte>, p: nat)
    requires |f| == FRAME_BYTES && p < 8 * COVERED
    ensures Flip(f, p + 8)[1..1 + COVERED] == Flip(f[1..1 + COVERED], p)
    ensures Flip(f, p + 8)[1 + COVERED..] == f[1 + COVERED..]
  {
    hide FlipByte;
    assert (p + 8) / 8 == p / 8 + 1 && (p + 8) % 8 == p % 8;
  }

  lemma FlippedTrailer(f: seq<byte>, q: nat)
    requires |f| == FRAME_BYTES && q < 32
    ensures Flip(f, q + 8 + 8 * COVERED)[1..1 + COVERED] == f[1..1 + COVERED]
    ensures Flip(f, q + 8 + 8 * COVERED)[1 + COVERED..] == Flip(f[1 + COVERED..], q)
  {
    hide FlipByte;
    assert (q + 8 + 8 * COVERED) / 8 == q / 8 + 1 + COVERED && (q + 8 + 8 * COVERED) % 8 == q % 8;
  }

  lemma XorSwapLast(a: bv32, b: bv32, c: bv32)
    ensures Xor(Xor(a, b), c) == Xor(Xor(a, c), b)
  {
    hide Xor;
    XorAssoc(a, b, c);
    XorAssoc(a, c, b);
    XorComm(b, c);
  }

  lemma WeightIs(q: nat)
    requires q < 32
    ensures Weight(q) == Power(8 * (q / 8) + 7 - q % 8)
  {}

  lemma IsCodeword(f: seq<byte>)
    requires |f| == FRAME_BYTES
    ensures Codeword(f) <==> f[0] == MAGIC && f[1] == TYPE_PCM_CRC && SyndromeOf(f) == 0
  {
    hide Xor, Crc, TrailerWord;
    XorCancel(Crc(f[1..1 + COVERED]), TrailerWord(f[1 + COVERED..]));
  }

  lemma PlacesAdd(p: nat, q: nat)
    requires 8 <= p < 8 * FRAME_BYTES && 8 <= q < 8 * FRAME_BYTES && p != q
    ensures Xor(Power(Place(p)), Power(Place(q))) != 0
  {
    hide Power, Xor, Place;
    if p < q { PlacesDiffer(p, q); } else { PlacesDiffer(q, p); }
    XorCancel(Power(Place(p)), Power(Place(q)));
    if Place(p) < Place(q) { PowersDistinct(Place(p), Place(q)); } else { PowersDistinct(Place(q), Place(p)); }
  }

  // Two flipped bits after the magic always show in the syndrome.
  lemma TwoBitsShow(f: seq<byte>, p: nat, q: nat)
    requires |f| == FRAME_BYTES && SyndromeOf(f) == 0
    requires 8 <= p < 8 * FRAME_BYTES && 8 <= q < 8 * FRAME_BYTES && p != q
    ensures SyndromeOf(Flip(Flip(f, p), q)) != 0
  {
    hide SyndromeOf, Power, Xor, Flip, Place;
    FlipAdds(f, p);
    FlipAdds(Flip(f, p), q);
    PlacesAdd(p, q);
    XorZero(Power(Place(p)));
  }

  // Two flipped bits, wherever they are, never make a codeword of a codeword.
  lemma TwoBitsApart(f: seq<byte>, p: nat, q: nat)
    requires Codeword(f) && p < 8 * FRAME_BYTES && q < 8 * FRAME_BYTES && p != q
    ensures !Codeword(Flip(Flip(f, p), q))
  {
    assert |f| == FRAME_BYTES;
    hide SyndromeOf, FlipByte, Codeword;
    IsCodeword(f);
    var g := Flip(Flip(f, p), q);
    IsCodeword(g);
    if p < 8 || q < 8 {
      MagicGone(f, p, q);
    } else {
      TwoBitsShow(f, p, q);
    }
  }

  lemma MagicGone(f: seq<byte>, p: nat, q: nat)
    requires |f| == FRAME_BYTES && p < 8 * FRAME_BYTES && q < 8 * FRAME_BYTES && p != q
    requires p < 8 || q < 8
    ensures Flip(Flip(f, p), q)[0] != f[0]
  {
    hide BitValue;
    if p < 8 && q < 8 {
      TwoInByte(f[0], p, q);
    } else if p < 8 {
      OneInByte(f[0], p);
    } else {
      OneInByte(f[0], q);
    }
  }

  lemma OneInByte(b: byte, i: nat)
    requires i < 8
    ensures FlipByte(b, i) != b
  {}

  lemma TwoInByte(b: byte, i: nat, j: nat)
    requires i < 8 && j < 8 && i != j
    ensures FlipByte(FlipByte(b, i), j) != b
  {}

  // So the parser never takes a frame with two flipped bits after the type byte for an intact one.
  lemma TwoBitsNeverIntact(payload: seq<byte>, p: nat, q: nat, tail: seq<byte>, cfg: Config)
    requires |payload| == R_PAYLOAD && 16 <= p < 8 * FRAME_BYTES && 16 <= q < 8 * FRAME_BYTES && p != q
    ensures match Parse(Flip(Flip(AudioFrame(payload), p), q) + tail, cfg)
            case Blocked => false
            case Parsed(Frame(typ, _, corrected), _) => typ == TYPE_PCM_CRC && corrected
            case Parsed(e, _) => e == CrcBad
  {
    var f := AudioFrame(payload);
    var g := Flip(Flip(f, p), q);
    FrameIsCodeword(payload);
    TwoBitsApart(f, p, q);
    hide Parse, Codeword, AudioFrame, Flip;
    SameStart(f, p, q);
    DamagedParse(g, tail, cfg);
  }

  lemma DamagedParse(g: seq<byte>, tail: seq<byte>, cfg: Config)
    requires |g| == FRAME_BYTES && g[0] == MAGIC && g[1] == TYPE_PCM_CRC && !Codeword(g)
    ensures match Parse(g + tail, cfg)
            case Blocked => false
            case Parsed(Frame(typ, _, corrected), _) => typ == TYPE_PCM_CRC && corrected
            case Parsed(e, _) => e == CrcBad
  {
    hide Crc, Parse, ParseR, Correct, Syndrome, Codeword, TrailerWord;
    FrameParts(g, tail);
    IntactIsCodeword(g);
    var data, t := g[1..1 + COVERED], g[1 + COVERED..];
    ParseAtMagic(data + t + tail, cfg);
    ParseRAs(data, t, tail);
  }

  lemma FrameIsCodeword(payload: seq<byte>)
    requires |payload| == R_PAYLOAD
    ensures Codeword(AudioFrame(payload))
  {
    AudioFrameParts(payload);
    hide Crc, TrailerWord, Codeword, AudioFrame, Trailer;
    CodewordOf(Covered(payload), Trailer(Crc(Covered(payload))));
  }

  lemma SameStart(f: seq<byte>, p: nat, q: nat)
    requires Codeword(f) && 16 <= p < 8 * FRAME_BYTES && 16 <= q < 8 * FRAME_BYTES
    ensures var g := Flip(Flip(f, p), q); g[0] == MAGIC && g[1] == TYPE_PCM_CRC
  {
    hide Crc, TrailerWord, FlipByte;
  }

  lemma FrameParts(g: seq<byte>, tail: seq<byte>)
    requires |g| == FRAME_BYTES
    ensures g + tail == [g[0]] + (g[1..1 + COVERED] + g[1 + COVERED..] + tail)
  {}

  lemma IntactIsCodeword(g: seq<byte>)
    requires |g| == FRAME_BYTES && g[0] == MAGIC && g[1] == TYPE_PCM_CRC && !Codeword(g)
    ensures Crc(g[1..1 + COVERED]) != TrailerWord(g[1 + COVERED..])
  {
    hide Crc, TrailerWord;
  }

  // Within one bit of what arrived there is at most one codeword: whatever is delivered, no other
  // frame can have been sent with as few flipped bits.
  lemma OneCodewordNear(x: seq<byte>, y: seq<byte>, z: seq<byte>)
    requires Codeword(y) && Codeword(z) && WithinOneBit(x, y) && WithinOneBit(x, z)
    ensures y == z
  {
    hide Codeword, FlipByte;
    if y != z {
      assert |x| == FRAME_BYTES by { hide Flip; Sizes(x, y); }
      if x == y {
        var q :| 0 <= q < 8 * |x| && z == Flip(x, q);
        OneBitApart(y, q);
      } else if x == z {
        var p :| 0 <= p < 8 * |x| && y == Flip(x, p);
        OneBitApart(z, p);
      } else {
        var p :| 0 <= p < 8 * |x| && y == Flip(x, p);
        var q :| 0 <= q < 8 * |x| && z == Flip(x, q);
        FlipTwice(x, p);
        TwoBitsApart(y, p, q);
      }
    }
  }

  lemma Sizes(x: seq<byte>, y: seq<byte>)
    requires Codeword(y) && WithinOneBit(x, y)
    ensures |x| == FRAME_BYTES
  {}

  lemma OneBitApart(f: seq<byte>, p: nat)
    requires Codeword(f) && p < 8 * FRAME_BYTES
    ensures !Codeword(Flip(f, p))
  {
    assert |f| == FRAME_BYTES;
    hide SyndromeOf, FlipByte, Codeword, Power, Place, Xor;
    IsCodeword(f);
    IsCodeword(Flip(f, p));
    if p < 8 {
      OneInByte(f[0], p);
    } else {
      FlipAdds(f, p);
      XorZero(Power(Place(p)));
      PowerNotZero(Place(p));
    }
  }

  lemma PowerNotZero(n: nat)
    ensures Power(n) != 0
  {
    if Power(n) == 0 {
      StepsZero(n);
      StepsInjective(ONE, 0, n);
    }
  }
}
