// What the receiver recovers from the wire over a whole run of `next` calls.
module LinkRecovery {
  import opened Lfsr
  import opened Crc32
  import opened LinkCorrection
  import opened LinkFrames

  // ---- The sending side

  function Trailer(c: bv32): (t: seq<byte>)
    ensures |t| == 4
  {
    [((c >> 24) & 0xFF) as byte, ((c >> 16) & 0xFF) as byte, ((c >> 8) & 0xFF) as byte, (c & 0xFF) as byte]
  }

  lemma TrailerRead(c: bv32)
    ensures var t := Trailer(c); Be32(t[0], t[1], t[2], t[3]) == c
  {}

  const FRAME_BYTES: nat := 1 + R_REST

  // Type byte, length 513, sequence number and PCM.
  function Covered(payload: seq<byte>): (data: seq<byte>)
    ensures |data| == 5 + |payload| && data[0] == TYPE_PCM_CRC && data[5..] == payload
  {
    [TYPE_PCM_CRC, 0, 0, 2, 1] + payload
  }

  function AudioFrame(payload: seq<byte>): (f: seq<byte>)
    ensures |f| == 10 + |payload|
  {
    [MAGIC] + Covered(payload) + Trailer(Crc(Covered(payload)))
  }

  lemma AudioFrameParts(payload: seq<byte>)
    ensures var data := Covered(payload);
            && AudioFrame(payload) == [MAGIC] + data + Trailer(Crc(data))
            && TrailerWord(Trailer(Crc(data))) == Crc(data)
  {
    TrailerRead(Crc(Covered(payload)));
  }

  // A sent frame octet by octet: magic, 'R', a length of 513, the payload and the checksum.
  lemma FrameLooks(payload: seq<byte>)
    requires |payload| == 513
    ensures var (f, c) := (AudioFrame(payload), Crc([0x52, 0, 0, 2, 1] + payload));
            && |f| == 523 && f[..6] == [0xAA, 0x52, 0, 0, 2, 1] && f[6..519] == payload
            && ((f[519] as bv32 << 24) | (f[520] as bv32 << 16) | (f[521] as bv32 << 8) | f[522] as bv32) == c
    ensures R_PAYLOAD == 513
  {
    hide Crc;
    var data := Covered(payload);
    assert data == [0x52, 0, 0, 2, 1] + payload;
    var t := Trailer(Crc(data));
    TrailerRead(Crc(data));
    assert AudioFrame(payload)[519..] == t;
    hide Trailer;
  }

  // ---- One frame

  function TrailerWord(t: seq<byte>): bv32
    requires |t| == 4
  {
    Be32(t[0], t[1], t[2], t[3])
  }

  lemma ParseRAs(data: seq<byte>, t: seq<byte>, tail: seq<byte>)
    requires |data| == COVERED && |t| == 4
    ensures ParseR(data + t + tail)
         == if Crc(data) == TrailerWord(t) then Parsed(Frame(TYPE_PCM_CRC, data[5..], false), tail)
            else match Correct(data, Syndrome(data, TrailerWord(t)))
                 case Fixed(fixed) => Parsed(Frame(TYPE_PCM_CRC, fixed[5..], true), tail)
                 case Hopeless => Parsed(CrcBad, data + t + tail)
  {
    hide Crc, Correct, Syndrome, Be32;
    var after := data + t + tail;
    assert after[..COVERED] == data;
    assert after[R_REST..] == tail;
  }

  lemma ParseAtMagic(data: seq<byte>, cfg: Config)
    requires |data| >= 5 && data[0] == TYPE_PCM_CRC
    ensures Parse([MAGIC] + data, cfg) == ParseR(data)
  {
    var s := [MAGIC] + data;
    assert MagicIndex(s) == 0;
    assert s[1..] == data;
  }

  // An intact frame is delivered as it is.
  lemma IntactDelivered(data: seq<byte>, t: seq<byte>, tail: seq<byte>, cfg: Config)
    requires |data| == COVERED && |t| == 4 && data[0] == TYPE_PCM_CRC && Crc(data) == TrailerWord(t)
    ensures Parse([MAGIC] + data + t + tail, cfg) == Parsed(Frame(TYPE_PCM_CRC, data[5..], false), tail)
  {
    hide Crc, Correct, Syndrome, Parse, ParseR;
    ParseRAs(data, t, tail);
    assert [MAGIC] + data + t + tail == [MAGIC] + (data + t + tail);
    ParseAtMagic(data + t + tail, cfg);
  }

  // ---- One flipped bit in a trailer

  // Bit q of a four-byte big-endian word, bits counted byte by byte from the least significant.
  function Weight(q: nat): bv32
    requires q < 32
  {
    Power(8 * (q / 8) + 7 - q % 8)
  }

  function XorByte(a: byte, v: byte): byte { a ^ v }

  lemma FlipIsXor(a: byte, j: nat)
    requires j < 8
    ensures FlipByte(a, j) == XorByte(a, BitValue(j)) && XorByte(a, 0) == a
  {}

  lemma Be32Xor(a: byte, b: byte, c: byte, d: byte, p: byte, q: byte, r: byte, s: byte)
    ensures Be32(a ^ p, b ^ q, c ^ r, d ^ s) == Xor(Be32(a, b, c, d), Be32(p, q, r, s))
  {}

  lemma Be32XorBytes(a: byte, b: byte, c: byte, d: byte, p: byte, q: byte, r: byte, s: byte)
    ensures Be32(XorByte(a, p), XorByte(b, q), XorByte(c, r), XorByte(d, s))
         == Xor(Be32(a, b, c, d), Be32(p, q, r, s))
  {
    hide Be32, Xor;
    Be32Xor(a, b, c, d, p, q, r, s);
  }

  lemma TopPowers()
    ensures Power(0) == 0x80000000
    ensures Power(1) == 0x40000000
    ensures Power(2) == 0x20000000
    ensures Power(3) == 0x10000000
    ensures Power(4) == 0x08000000
    ensures Power(5) == 0x04000000
    ensures Power(6) == 0x02000000
    ensures Power(7) == 0x01000000
    ensures Power(8) == 0x00800000
    ensures Power(9) == 0x00400000
    ensures Power(10) == 0x00200000
    ensures Power(11) == 0x00100000
    ensures Power(12) == 0x00080000
    ensures Power(13) == 0x00040000
    ensures Power(14) == 0x00020000
    ensures Power(15) == 0x00010000
    ensures Power(16) == 0x00008000
    ensures Power(17) == 0x00004000
    ensures Power(18) == 0x00002000
    ensures Power(19) == 0x00001000
    ensures Power(20) == 0x00000800
    ensures Power(21) == 0x00000400
    ensures Power(22) == 0x00000200
    ensures Power(23) == 0x00000100
    ensures Power(24) == 0x00000080
    ensures Power(25) == 0x00000040
    ensures Power(26) == 0x00000020
    ensures Power(27) == 0x00000010
    ensures Power(28) == 0x00000008
    ensures Power(29) == 0x00000004
    ensures Power(30) == 0x00000002
    ensures Power(31) == 0x00000001
  {
    LowPowers();
    hide Power;
    PowerNext(0); PowerNext(2); PowerNext(4); PowerNext(6);
    PowerNext(8); PowerNext(10); PowerNext(12); PowerNext(14);
    PowerNext(16); PowerNext(18); PowerNext(20); PowerNext(22);
    PowerNext(24); PowerNext(26); PowerNext(28); PowerNext(30);
  }

  lemma WeightOfBit(j: nat)
    requires j < 8
    ensures Be32(BitValue(j), 0, 0, 0) == Power(7 - j)
    ensures Be32(0, BitValue(j), 0, 0) == Power(15 - j)
    ensures Be32(0, 0, BitValue(j), 0) == Power(23 - j)
    ensures Be32(0, 0, 0, BitValue(j)) == Power(31 - j)
  {
    TopPowers();
    hide Power;
  }

  lemma FlipWord(a: byte, b: byte, c: byte, d: byte, j: nat)
    requires j < 8
    ensures Be32(FlipByte(a, j), b, c, d) == Xor(Be32(a, b, c, d), Power(7 - j))
    ensures Be32(a, FlipByte(b, j), c, d) == Xor(Be32(a, b, c, d), Power(15 - j))
    ensures Be32(a, b, FlipByte(c, j), d) == Xor(Be32(a, b, c, d), Power(23 - j))
    ensures Be32(a, b, c, FlipByte(d, j)) == Xor(Be32(a, b, c, d), Power(31 - j))
  {
    hide Be32, BitValue, Power, Xor, XorByte, FlipByte;
    var v := BitValue(j);
    FlipIsXor(a, j); FlipIsXor(b, j); FlipIsXor(c, j); FlipIsXor(d, j);
    WeightOfBit(j);
    Be32XorBytes(a, b, c, d, v, 0, 0, 0);
    Be32XorBytes(a, b, c, d, 0, v, 0, 0);
    Be32XorBytes(a, b, c, d, 0, 0, v, 0);
    Be32XorBytes(a, b, c, d, 0, 0, 0, v);
  }

  lemma TrailerFlip(t: seq<byte>, q: nat)
    requires |t| == 4 && q < 32
    ensures TrailerWord(Flip(t, q)) == Xor(TrailerWord(t), Weight(q))
  {
    hide Be32, Xor, FlipByte, Power;
    FlipWord(t[0], t[1], t[2], t[3], q % 8);
  }

  lemma WeightSingle(q: nat)
    requires q < 32
    ensures SingleBit(Weight(q))
  {
    LowPower(8 * (q / 8) + 7 - q % 8);
  }

  lemma SingleBitWeight(syn: bv32) returns (q: nat)
    requires SingleBit(syn)
    ensures q < 32 && Weight(q) == syn
  {
    AllFit(syn);
    hide SingleBit, Fits, Power;
    var n := SingleBitIsPower(syn, 32);
    q := 8 * (n / 8) + 7 - n % 8;
    assert 8 * (q / 8) + 7 - q % 8 == n;
  }

  // ---- Soundness: what is delivered is a codeword, at most one bit from what arrived

  ghost predicate Codeword(f: seq<byte>)
  {
    && |f| == FRAME_BYTES
    && f[0] == MAGIC
    && f[1] == TYPE_PCM_CRC
    && Crc(f[1..1 + COVERED]) == TrailerWord(f[1 + COVERED..])
  }

  ghost predicate WithinOneBit(x: seq<byte>, y: seq<byte>)
  {
    x == y || exists p :: 0 <= p < 8 * |x| && y == Flip(x, p)
  }

  lemma CodewordOf(data: seq<byte>, t: seq<byte>)
    requires |data| == COVERED && |t| == 4 && data[0] == TYPE_PCM_CRC && Crc(data) == TrailerWord(t)
    ensures Codeword([MAGIC] + data + t)
  {
    hide Crc, TrailerWord;
    var f := [MAGIC] + data + t;
    assert f[1..1 + COVERED] == data && f[1 + COVERED..] == t;
  }

  lemma FlipInFrame(data: seq<byte>, t: seq<byte>, p: nat)
    requires p < 8 * |data|
    ensures [MAGIC] + Flip(data, p) + t == Flip([MAGIC] + data + t, p + 8)
  {
    hide FlipByte;
  }

  lemma FlipInTrailer(data: seq<byte>, t: seq<byte>, q: nat)
    requires q < 8 * |t|
    ensures [MAGIC] + data + Flip(t, q) == Flip([MAGIC] + data + t, q + 8 + 8 * |data|)
  {
    hide FlipByte;
    assert (q + 8 + 8 * |data|) / 8 == q / 8 + 1 + |data|;
  }

  // The sent frame behind a delivered 'R' frame.
  lemma DeliveredIsCodeword(data: seq<byte>, t: seq<byte>, tail: seq<byte>) returns (sent: seq<byte>)
    requires |data| == COVERED && |t| == 4 && data[0] == TYPE_PCM_CRC
    requires ParseR(data + t + tail).Parsed? && ParseR(data + t + tail).event.Frame?
    ensures Codeword(sent) && WithinOneBit([MAGIC] + data + t, sent)
    ensures sent[6..6 + R_PAYLOAD] == ParseR(data + t + tail).event.payload
  {
    hide Crc, Correct, Syndrome, TrailerWord, Xor, SingleBit, ParseR, Codeword, Flip, Weight;
    ParseRAs(data, t, tail);
    var recv := TrailerWord(t);
    if Crc(data) == recv {
      sent := [MAGIC] + data + t;
      CodewordOf(data, t);
    } else {
      CorrectIsCodeword(data, recv);
      var fixed := Correct(data, Syndrome(data, recv)).data;
      if fixed == data && SingleBit(Xor(Crc(fixed), recv)) {
        var q := SingleBitWeight(Xor(Crc(fixed), recv));
        TrailerFlip(t, q);
        XorBackWord(recv, Crc(data));
        sent := [MAGIC] + data + Flip(t, q);
        CodewordOf(data, Flip(t, q));
        FlipInTrailer(data, t, q);
      } else {
        var p :| 8 <= p < 8 * |data| && fixed == Flip(data, p);
        sent := [MAGIC] + fixed + t;
        FlipInFrame(data, t, p);
        FlipKeepsType(data, p);
        CodewordOf(fixed, t);
      }
    }
    assert sent[6..6 + R_PAYLOAD] == sent[1..1 + COVERED][5..];
  }

  lemma FlipKeepsType(data: seq<byte>, p: nat)
    requires 8 <= p < 8 * |data|
    ensures Flip(data, p)[0] == data[0]
  {}

  lemma XorBackWord(a: bv32, b: bv32)
    ensures Xor(a, Xor(b, a)) == b
  {}

  // ---- Exact correction

  lemma DataBitCorrected(data: seq<byte>, t: seq<byte>, p: nat, tail: seq<byte>, cfg: Config)
    requires |data| == COVERED && |t| == 4 && data[0] == TYPE_PCM_CRC && Crc(data) == TrailerWord(t)
    requires 8 <= p < 8 * COVERED
    ensures Parse([MAGIC] + Flip(data, p) + t + tail, cfg) == Parsed(Frame(TYPE_PCM_CRC, data[5..], true), tail)
  {
    var bad := Flip(data, p);
    FlipKeepsType(data, p);
    hide Crc, Correct, Syndrome, ParseR, Parse, Flip, TrailerWord;
    CorrectsDataBit(data, p);
    ParseRAs(bad, t, tail);
    assert [MAGIC] + bad + t + tail == [MAGIC] + (bad + t + tail);
    ParseAtMagic(bad + t + tail, cfg);
  }

  lemma ChecksumBitCorrected(data: seq<byte>, t: seq<byte>, q: nat, tail: seq<byte>, cfg: Config)
    requires |data| == COVERED && |t| == 4 && data[0] == TYPE_PCM_CRC && Crc(data) == TrailerWord(t)
    requires q < 32
    ensures Parse([MAGIC] + data + Flip(t, q) + tail, cfg) == Parsed(Frame(TYPE_PCM_CRC, data[5..], true), tail)
  {
    var bad := Flip(t, q);
    hide Crc, Correct, Xor, SingleBit, ParseR, Parse, Flip, TrailerWord, Weight;
    TrailerFlip(t, q);
    WeightSingle(q);
    SingleBitNonZero(Weight(q));
    XorForth(Crc(data), Weight(q));
    CorrectsChecksumBit(data, TrailerWord(bad));
    ParseRAs(data, bad, tail);
    assert [MAGIC] + data + bad + tail == [MAGIC] + (data + bad + tail);
    ParseAtMagic(data + bad + tail, cfg);
  }

  // One flipped bit anywhere after the type byte: the frame sent is the frame delivered.
  lemma OneBitCorrected(payload: seq<byte>, p: nat, tail: seq<byte>, cfg: Config)
    requires |payload| == R_PAYLOAD
    requires 16 <= p < 8 * FRAME_BYTES
    ensures Parse(Flip(AudioFrame(payload), p) + tail, cfg) == Parsed(Frame(TYPE_PCM_CRC, payload, true), tail)
  {
    AudioFrameParts(payload);
    var data := Covered(payload);
    var t := Trailer(Crc(data));
    hide Crc, Parse, Flip, TrailerWord, Covered, Trailer, AudioFrame;
    if p < 8 + 8 * COVERED {
      FlipInFrame(data, t, p - 8);
      DataBitCorrected(data, t, p - 8, tail, cfg);
    } else {
      var q := p - 8 - 8 * COVERED;
      FlipInTrailer(data, t, q);
      ChecksumBitCorrected(data, t, q, tail, cfg);
    }
  }

  lemma SingleBitNonZero(w: bv32)
    requires SingleBit(w)
    ensures w != 0
  {}

  lemma XorForth(a: bv32, w: bv32)
    ensures Xor(a, Xor(a, w)) == w
    ensures w != 0 ==> Xor(a, w) != a
  {}
}
