// The receiving side of the wire: a byte source with a push-back buffer in front of it,
// and the frame parser that reads from it.
module LinkParser {
  import opened Lfsr
  import opened Crc32
  import opened LinkCorrection
  import opened LinkFrames
  import opened Memory

  const PB_SIZE: nat := 4096

  // Waiting: the call has not come back, it is blocked in a read.
  datatype Result = Waiting | Got(typ: byte, len: nat, badHeader: bool, crcBad: bool, corrected: bool)

  // What a returned frame record and the caller's buffer say about the event.
  ghost predicate Reports(r: Result, payload: seq<byte>, e: Event)
  {
    match e
    case BadHeader => r == Got(0, 0, true, false, false)
    case CrcBad => r == Got(0, 0, false, true, false)
    case Frame(typ, data, corrected) =>
      r == Got(typ, |data|, false, false, corrected) && |data| <= |payload| && payload[..|data|] == data
  }

  // The frame counters: corrected in the covered bytes and in the checksum, covered bits that came
  // as ones and as zeros, uncorrectable, bad headers, bytes pushed back.
  datatype Tally = Tally(inData: nat, inChecksum: nat, flips0to1: nat, flips1to0: nat,
                         uncorrectable: nat, badHeaders: nat, pushedBack: nat)

  // Where a single wrong bit is, and whether it came as a one.
  datatype Fault = InChecksum | InData(one: bool)

  function FaultOf(data: seq<byte>, syn: bv32): Fault
  {
    var d := Distance(syn, 0, 8 * |data|);
    if SingleBit(syn) || d == 8 * |data| then InChecksum
    else var p := 8 * |data| - 1 - d; InData(BitOf(data[p / 8], p % 8))
  }

  // The same for the bytes after a magic, taken as an 'R' frame.
  function FaultIn(after: seq<byte>): Fault
  {
    if |after| < R_REST then InChecksum
    else FaultOf(after[..COVERED],
                 Syndrome(after[..COVERED],
                          Be32(after[COVERED], after[COVERED + 1], after[COVERED + 2], after[COVERED + 3])))
  }

  // The bytes after the first magic.
  ghost function Behind(s: seq<byte>): seq<byte>
  {
    if MagicIndex(s) == |s| then [] else s[MagicIndex(s) + 1..]
  }

  // How an event moves the counters; a corrected bit was where the fault is.
  ghost predicate Counted(was: Tally, now: Tally, e: Event, fault: Fault)
  {
    var fixed := e.Frame? && e.corrected;
    && now.inData == was.inData + (if fixed && fault.InData? then 1 else 0)
    && now.inChecksum == was.inChecksum + (if fixed && fault.InChecksum? then 1 else 0)
    && now.flips0to1 == was.flips0to1 + (if fixed && fault == InData(true) then 1 else 0)
    && now.flips1to0 == was.flips1to0 + (if fixed && fault == InData(false) then 1 else 0)
    && now.uncorrectable == was.uncorrectable + (if e.CrcBad? then 1 else 0)
    && now.badHeaders == was.badHeaders + (if e.BadHeader? then 1 else 0)
    && now.pushedBack == was.pushedBack + (if e.CrcBad? then R_REST else if e.BadHeader? then 5 else 0)
  }

  // A call that came back did what the pure parser says: the event, the bytes left to
  // read, and never more than one failed frame pushed back. A call that is still waiting
  // holds what it has taken of the bytes s, and nothing is lost.
  ghost predicate Did(s: seq<byte>, o: Outcome, fault: Fault, r: Result, taken: seq<byte>, payload: seq<byte>,
                      left: seq<byte>, pushedBack: nat, was: Tally, now: Tally)
  {
    match o
    case Blocked => r.Waiting? && taken + left == s && pushedBack <= R_REST && now == was
    case Parsed(e, rest) =>
      && Reports(r, payload, e)
      && left == rest
      && pushedBack <= R_REST
      && Counted(was, now, e, fault)
  }

  class Parser {
    // What the wire has delivered and nobody has read yet.
    var input: seq<byte>
    const acceptRaw: bool
    const pb: array<byte>
    var pbHead: nat
    var pbLen: nat
    var correctedData: nat
    var correctedTrailer: nat
    var flips0to1: nat
    var flips1to0: nat
    var uncorrectable: nat
    var badHeaders: nat
    var pushbackBytes: nat

    constructor (acceptRaw: bool)
      ensures Valid() && Logical() == [] && pbLen == 0
      ensures this.acceptRaw == acceptRaw && fresh(pb)
    {
      this.acceptRaw := acceptRaw;
      input := [];
      pb := new byte[PB_SIZE];
      pbHead, pbLen := 0, 0;
      correctedData, correctedTrailer, flips0to1, flips1to0 := 0, 0, 0, 0;
      uncorrectable, badHeaders, pushbackBytes := 0, 0, 0;
    }

    // More bytes come in on the wire.
    method Arrive(bytes: seq<byte>)
      requires Valid()
      modifies this`input
      ensures Valid() && Logical() == old(Logical()) + bytes
    {
      input := input + bytes;
    }

    ghost predicate Valid()
      reads this`pbHead, this`pbLen
    {
      pb.Length == PB_SIZE && pbHead + pbLen <= PB_SIZE
    }

    ghost function Held(): seq<byte>
      requires Valid()
      reads this`pbHead, this`pbLen, pb
    { pb[pbHead..pbHead + pbLen] }

    // The bytes still to be read: what was pushed back, then the wire.
    ghost function Logical(): seq<byte>
      requires Valid()
      reads this`input, this`pbHead, this`pbLen, pb
    {
      Held() + input
    }

    // Takes k pushed-back bytes.
    method TakeHeld(buf: array<byte>, off: nat, k: nat)
      requires Valid() && buf != pb && off + k <= buf.Length && k <= pbLen
      modifies this`pbHead, this`pbLen, buf
      ensures Valid() && Held() == old(Held()[k..]) && pbLen == old(pbLen) - k
      ensures forall i :: 0 <= i < buf.Length ==>
        buf[i] == if off <= i < off + k then old(Held()[i - off]) else old(buf[i])
    {
      Move(buf, off, pb, pbHead, k);
      pbHead := pbHead + k;
      pbLen := pbLen - k;
      if pbLen == 0 { pbHead := 0; }
    }

    method Get(buf: array<byte>, off: nat, n: nat) returns (ok: bool)
      requires Valid() && buf != pb && off + n <= buf.Length
      modifies this`input, this`pbHead, this`pbLen, buf
      ensures Valid()
      ensures ok == (n <= |old(Logical())|)
      ensures !ok ==> Logical() == old(Logical()) && pbLen == old(pbLen) && buf[..] == old(buf[..])
      ensures ok ==> Logical() == old(Logical())[n..]
      ensures ok ==> pbLen == if n < old(pbLen) then old(pbLen) - n else 0
      ensures ok ==> forall i :: 0 <= i < buf.Length ==>
        buf[i] == if off <= i < off + n then old(Logical())[i - off] else old(buf[i])
    {
      var k := if n < pbLen then n else pbLen;
      if n - k > |input| { return false; }
      TakeHeld(buf, off, k);
      if n > k {
        Store(buf, off + k, input[..n - k]);
        input := input[n - k..];
      }
      ok := true;
    }

    // Put len bytes back in front of everything unread, as far as they fit.
    method PushBack(data: array<byte>, len: nat)
      requires Valid() && data != pb && len <= data.Length
      modifies this`pbHead, this`pbLen, this`pushbackBytes, pb
      ensures Valid()
      ensures var n := if len + old(pbLen) > PB_SIZE then PB_SIZE - old(pbLen) else len;
              && Logical() == data[..n] + old(Logical())
              && pbLen == old(pbLen) + n
              && pushbackBytes == old(pushbackBytes) + n
    {
      var n := len;
      if n + pbLen > PB_SIZE { n := PB_SIZE - pbLen; }
      ghost var unread := Held();
      if pbHead < n { MakeRoom(); }
      PutInFront(data, n);
      assert data[..n] + unread + input == data[..n] + (unread + input);
    }

    method PutInFront(data: array<byte>, n: nat)
      requires Valid() && data != pb && n <= data.Length && n <= pbHead
      modifies this`pbHead, this`pbLen, this`pushbackBytes, pb
      ensures Valid() && Held() == data[..n] + old(Held()) && pbLen == old(pbLen) + n
      ensures pushbackBytes == old(pushbackBytes) + n
    {
      Move(pb, pbHead - n, data, 0, n);
      pbHead := pbHead - n;
      pbLen := pbLen + n;
      pushbackBytes := pushbackBytes + n;
    }

    // Moves the push-back bytes to the end of the buffer.
    method MakeRoom()
      requires Valid()
      modifies this`pbHead, pb
      ensures Valid() && pbHead == PB_SIZE - pbLen
      ensures Held() == old(Held())
    {
      ghost var held := Held();
      Move(pb, PB_SIZE - pbLen, pb, pbHead, pbLen);
      assert forall i :: 0 <= i < pbLen ==> pb[PB_SIZE - pbLen + i] == held[i];
      pbHead := PB_SIZE - pbLen;
    }

    // Tries to explain the syndrome by one flipped bit, and flips it back.
    method TryCorrect(h: array<byte>, payload: array<byte>, syn: bv32) returns (ok: bool)
      requires h.Length == 5 && payload.Length >= R_PAYLOAD && h != payload
      requires syn != 0
      modifies this`correctedData, this`correctedTrailer, this`flips0to1, this`flips1to0, h, payload
      ensures match Correct(old(h[..] + payload[..R_PAYLOAD]), syn)
              case Hopeless => !ok && h[..] == old(h[..]) && payload[..] == old(payload[..])
              case Fixed(data) => ok && h[..] + payload[..R_PAYLOAD] == data
      ensures var fault := FaultOf(old(h[..] + payload[..R_PAYLOAD]), syn);
              && correctedTrailer == old(correctedTrailer) + (if ok && fault.InChecksum? then 1 else 0)
              && correctedData == old(correctedData) + (if ok && fault.InData? then 1 else 0)
              && flips0to1 == old(flips0to1) + (if ok && fault == InData(true) then 1 else 0)
              && flips1to0 == old(flips1to0) + (if ok && fault == InData(false) then 1 else 0)
    {
      ghost var data := h[..] + payload[..R_PAYLOAD];
      hide Response, SingleBit, Flip, Correct, FaultOf, Distance, BitOf;
      Explained(data, syn);
      var single := IsSingleBit(syn);
      if single {
        correctedTrailer := correctedTrailer + 1;
        return true;
      }
      var nbits := COVERED * 8;
      var d := Search(syn, nbits);
      if d == nbits { return false; }
      var p := nbits - 1 - d;
      if p / 8 == 0 { return false; }
      FlipBack(h, payload, p);
      correctedData := correctedData + 1;
      return true;
    }

    // Steps the response through zeros until it meets the syndrome.
    method Search(syn: bv32, nbits: nat) returns (d: nat)
      ensures d == Distance(syn, 0, nbits)
    {
      hide Response, Step;
      var r := POLY;
      ResponseFirst();
      d := 0;
      while d < nbits
        invariant d <= nbits
        invariant r == Response(d)
        invariant Distance(syn, 0, nbits) == Distance(syn, d, nbits)
      {
        if r == syn { return; }
        ResponseNext(d);
        r := Step(r);
        d := d + 1;
      }
    }

    method FlipBack(h: array<byte>, payload: array<byte>, p: nat)
      requires h.Length == 5 && payload.Length >= R_PAYLOAD && h != payload
      requires 8 <= p < 8 * COVERED
      modifies this`flips0to1, this`flips1to0, h, payload
      ensures h[..] + payload[..R_PAYLOAD] == Flip(old(h[..] + payload[..R_PAYLOAD]), p)
      ensures var one := BitOf(old(h[..] + payload[..R_PAYLOAD])[p / 8], p % 8);
              && flips0to1 == old(flips0to1) + (if one then 1 else 0)
              && flips1to0 == old(flips1to0) + (if one then 0 else 1)
    {
      hide FlipByte;
      ghost var data := h[..] + payload[..R_PAYLOAD];
      var byteIndex, bit := p / 8, p % 8;
      if byteIndex < 5 {
        CountFlip(h[byteIndex], bit);
        h[byteIndex] := FlipByte(h[byteIndex], bit);
      } else {
        CountFlip(payload[byteIndex - 5], bit);
        payload[byteIndex - 5] := FlipByte(payload[byteIndex - 5], bit);
      }
    }

    // A received 1 was a sent 0.
    method CountFlip(b: byte, bit: nat)
      requires bit < 8
      modifies this`flips0to1, this`flips1to0
      ensures flips0to1 == old(flips0to1) + if BitOf(b, bit) then 1 else 0
      ensures flips1to0 == old(flips1to0) + if BitOf(b, bit) then 0 else 1
    {
      if b & BitValue(bit) != 0 { flips0to1 := flips0to1 + 1; } else { flips1to0 := flips1to0 + 1; }
    }

    // Drops bytes up to and including the next magic.
    method SkipToMagic() returns (ok: bool)
      requires Valid()
      modifies this`input, this`pbHead, this`pbLen
      ensures Valid() && pbLen <= old(pbLen)
      ensures ok ==> pbLen < old(pbLen) || pbLen == 0
      ensures var s := old(Logical());
              ok == (MagicIndex(s) < |s|) && (if ok then Logical() == s[MagicIndex(s) + 1..] else Logical() == [])
    {
      ghost var s := Logical();
      ghost var j := 0;
      var b := new byte[1];
      while true
        invariant Valid() && pbLen <= old(pbLen)
        invariant j <= |s| && Logical() == s[j..]
        invariant forall k :: 0 <= k < j ==> s[k] != MAGIC
        decreases |s| - j
      {
        var got := Get(b, 0, 1);
        if !got { return false; }
        if b[0] == MAGIC { return true; }
        j := j + 1;
      }
    }

    // One call of `next`: it does what the pure parser does to the bytes still to be read,
    // and never leaves more than one failed frame in the push-back buffer. While it waits for
    // more it holds the bytes it has taken.
    method Next(payload: array<byte>, maxLen: nat) returns (r: Result, ghost taken: seq<byte>)
      requires Valid() && pbLen <= R_REST
      requires payload != pb && payload.Length >= R_PAYLOAD && payload.Length >= maxLen
      modifies this, pb, payload
      ensures Valid()
      ensures var s := old(Logical());
              Did(s, Parse(s, Config(acceptRaw, maxLen)), FaultIn(Behind(s)),
                  r, taken, payload[..], Logical(), pbLen, old(Counters()), Counters())
    {
      hide Logical, ParseHeader, MagicIndex, FaultIn;
      ghost var s := Logical();
      ghost var m := MagicIndex(s);
      ghost var was := Counters();
      var found := SkipToMagic();
      if !found { return Waiting, s; }
      hide Did, Parse, Counters, Behind;
      r, taken := NextHeader(payload, maxLen);
      AfterMagic(s, Config(acceptRaw, maxLen), r, taken, payload[..], Logical(), pbLen, was, Counters());
      taken := s[..m + 1] + taken;
    }

    // The header after a magic, and the rest of the frame.
    method NextHeader(payload: array<byte>, maxLen: nat) returns (r: Result, ghost taken: seq<byte>)
      requires Valid() && pbLen <= R_REST - 1
      requires payload != pb && payload.Length >= R_PAYLOAD && payload.Length >= maxLen
      modifies this, pb, payload
      ensures Valid()
      ensures var s := old(Logical());
              Did(s, ParseHeader(s, Config(acceptRaw, maxLen)), FaultIn(s),
                  r, taken, payload[..], Logical(), pbLen, old(Counters()), Counters())
    {
      hide Logical, ParseR, ParseOther, FaultIn;
      ghost var after := Logical();
      var h := new byte[5];
      var got := Get(h, 0, 5);
      if !got {
        assert [] + after == after;
        return Waiting, [];
      }
      hide Did;
      assert h[..] + Logical() == after;
      if h[0] == TYPE_PCM_CRC {
        r, taken := NextR(h, payload);
      } else {
        r, taken := NextOther(h, payload, maxLen);
      }
    }

    ghost function Counters(): Tally
      reads this`correctedData, this`correctedTrailer, this`flips0to1, this`flips1to0, this`uncorrectable,
             this`badHeaders, this`pushbackBytes
    {
      Tally(correctedData, correctedTrailer, flips0to1, flips1to0, uncorrectable, badHeaders, pushbackBytes)
    }

    // An 'R' frame, after its header.
    method NextR(h: array<byte>, payload: array<byte>) returns (r: Result, ghost taken: seq<byte>)
      requires Valid() && pbLen <= R_REST - 6
      requires h.Length == 5 && h != pb && h != payload
      requires payload != pb && payload.Length >= R_PAYLOAD
      modifies this, pb, payload, h
      ensures Valid()
      ensures var s := old(h[..] + Logical());
              Did(s, ParseR(s), FaultIn(s),
                  r, taken, payload[..], Logical(), pbLen, old(Counters()), Counters())
    {
      hide Logical, FaultIn;
      ghost var unread := Logical();
      var t := new byte[4];
      var got := Get(payload, 0, R_PAYLOAD);
      if !got { return Waiting, h[..]; }
      got := Get(t, 0, 4);
      if !got { return Waiting, h[..] + payload[..R_PAYLOAD]; }
      assert payload[..R_PAYLOAD] == unread[..R_PAYLOAD];
      assert t[..] == unread[R_PAYLOAD..][..4];
      Pieces(h[..], unread);
      hide ParseR, Did;
      r := CheckR(h, payload, t);
      taken := [];
    }

    // An 'R' frame that has arrived completely.
    method CheckR(h: array<byte>, payload: array<byte>, t: array<byte>) returns (r: Result)
      requires Valid() && pbLen == 0 && t.Length == 4 && t != pb && t != h && t != payload
      requires h.Length == 5 && h != pb && h != payload
      requires payload != pb && payload.Length >= R_PAYLOAD
      modifies this`pbHead, this`pbLen, this`pushbackBytes, this`uncorrectable, this`correctedData,
               this`correctedTrailer, this`flips0to1, this`flips1to0, pb, payload, h
      ensures Valid()
      ensures var s := old(h[..] + payload[..R_PAYLOAD] + t[..] + Logical());
              Did(s, ParseR(s), FaultIn(s),
                  r, [], payload[..], Logical(), pbLen, old(Counters()), Counters())
    {
      hide Crc, Raw, Correct, Xor, Be32, Logical, FaultOf, ParseR, FaultIn;
      ghost var data, unread := h[..] + payload[..R_PAYLOAD], Logical();
      TakenApart(data, t[..], unread);
      var recv := Be32(t[0], t[1], t[2], t[3]);
      var computed := Checksum(h, payload);
      if computed == recv {
        assert payload[..R_PAYLOAD] == data[5..];
        return Got(TYPE_PCM_CRC, R_PAYLOAD, false, false, false);
      }
      var syn := XorWords(computed, recv);
      var ok := TryCorrect(h, payload, syn);
      if ok {
        assert payload[..R_PAYLOAD] == (h[..] + payload[..R_PAYLOAD])[5..];
        return Got(TYPE_PCM_CRC, R_PAYLOAD, false, false, true);
      }
      uncorrectable := uncorrectable + 1;
      PutBackFrame(h, payload, t);
      return Got(0, 0, false, true, false);
    }

    method Checksum(h: array<byte>, payload: array<byte>) returns (computed: bv32)
      requires h.Length == 5 && payload.Length >= R_PAYLOAD
      ensures computed == Crc(h[..] + payload[..R_PAYLOAD])
    {
      hide Raw;
      RawConcat(h[..], payload[..R_PAYLOAD], 0xFFFF_FFFF);
      assert h[..5] == h[..];
      var state := Crc32Raw(h, 5, 0xFFFF_FFFF);
      var raw := Crc32Raw(payload, R_PAYLOAD, state);
      computed := !raw;
    }

    // Pushes back everything of a failed frame but its magic.
    method PutBackFrame(h: array<byte>, payload: array<byte>, t: array<byte>)
      requires Valid() && h.Length == 5 && payload.Length >= R_PAYLOAD && t.Length == 4
      requires h != pb && payload != pb && t != pb && pbLen <= PB_SIZE - R_REST
      modifies this`pbHead, this`pbLen, this`pushbackBytes, pb
      ensures Valid() && pbLen == old(pbLen) + R_REST
      ensures Logical() == old(h[..] + payload[..R_PAYLOAD] + t[..] + Logical())
      ensures pushbackBytes == old(pushbackBytes) + R_REST
    {
      var back := new byte[R_REST];
      Move(back, 0, h, 0, 5);
      Move(back, 5, payload, 0, R_PAYLOAD);
      Move(back, COVERED, t, 0, 4);
      assert back[..R_REST] == h[..] + payload[..R_PAYLOAD] + t[..];
      PushBack(back, R_REST);
    }

    // A frame of another type, after its header.
    method NextOther(h: array<byte>, payload: array<byte>, maxLen: nat) returns (r: Result, ghost taken: seq<byte>)
      requires Valid() && pbLen <= R_REST - 6
      requires h.Length == 5 && h != pb && h != payload
      requires payload != pb && payload.Length >= MAX_CONTROL && payload.Length >= maxLen
      modifies this, pb, payload
      ensures Valid()
      ensures var s := old(h[..] + Logical());
              Did(s, ParseOther(s, Config(acceptRaw, maxLen)), FaultIn(s),
                  r, taken, payload[..], Logical(), pbLen, old(Counters()), Counters())
    {
      hide Logical, HeaderLength, LengthAllowed, FaultIn;
      ghost var after := h[..] + Logical();
      var len := LengthField(h);
      assert after[..5] == h[..];
      if !LengthAllowed(h[0], len, Config(acceptRaw, maxLen)) {
        RejectHeader(h);
        return Got(0, 0, true, false, false), [];
      }
      AllowedFits(h[0], len, Config(acceptRaw, maxLen));
      if len > 0 {
        var got := Get(payload, 0, len);
        if !got { return Waiting, h[..]; }
      }
      assert Logical() == after[5 + len..];
      assert payload[..len] == after[5..5 + len];
      return Got(h[0], len, false, false, false), [];
    }

    // The magic was bogus: keep scanning right after it.
    method RejectHeader(h: array<byte>)
      requires Valid() && h.Length == 5 && h != pb && pbLen <= R_REST - 6
      modifies this`pbHead, this`pbLen, this`pushbackBytes, this`badHeaders, pb
      ensures Valid() && pbLen <= R_REST
      ensures Logical() == old(h[..] + Logical())
      ensures Counted(old(Counters()), Counters(), BadHeader, InChecksum)
    {
      hide Logical;
      badHeaders := badHeaders + 1;
      PushBack(h, 5);
      assert h[..5] == h[..];
    }

    method LengthField(h: array<byte>) returns (len: nat)
      requires h.Length == 5
      ensures len == HeaderLength(h[..])
    {
      len := h[1] as nat * 0x100_0000 + h[2] as nat * 0x1_0000 + h[3] as nat * 0x100 + h[4] as nat;
    }
  }

  // The bytes up to the magic are taken first.
  lemma AfterMagic(s: seq<byte>, cfg: Config, r: Result, taken: seq<byte>, payload: seq<byte>,
                   left: seq<byte>, pushedBack: nat, was: Tally, now: Tally)
    requires MagicIndex(s) < |s|
    requires var after := s[MagicIndex(s) + 1..];
             Did(after, ParseHeader(after, cfg), FaultIn(after), r, taken, payload, left, pushedBack, was, now)
    ensures Did(s, Parse(s, cfg), FaultIn(Behind(s)),
                r, s[..MagicIndex(s) + 1] + taken, payload, left, pushedBack, was, now)
  {
    hide ParseHeader, MagicIndex, FaultIn, Did;
    var m := MagicIndex(s) + 1;
    Preceded(s, m, ParseHeader(s[m..], cfg), FaultIn(s[m..]), r, taken, payload, left, pushedBack, was, now);
  }

  lemma Preceded(s: seq<byte>, m: nat, o: Outcome, fault: Fault, r: Result, taken: seq<byte>, payload: seq<byte>,
                 left: seq<byte>, pushedBack: nat, was: Tally, now: Tally)
    requires m <= |s| && Did(s[m..], o, fault, r, taken, payload, left, pushedBack, was, now)
    ensures Did(s, o, fault, r, s[..m] + taken, payload, left, pushedBack, was, now)
  {
    hide Reports, Counted;
    assert s[..m] + taken + left == s[..m] + (taken + left);
  }

  // What the search for a syndrome says of the covered bytes.
  lemma Explained(data: seq<byte>, syn: bv32)
    ensures var (c, fault, d) := (Correct(data, syn), FaultOf(data, syn), Distance(syn, 0, 8 * |data|));
            if SingleBit(syn) then c == Fixed(data) && fault == InChecksum
            else if d == 8 * |data| then c == Hopeless
            else
              var p := 8 * |data| - 1 - d;
              && c == (if p / 8 == 0 then Hopeless else Fixed(Flip(data, p)))
              && fault == InData(BitOf(data[p / 8], p % 8))
  {
    hide Flip, SingleBit, BitOf, Distance;
  }

  // An 'R' frame and where its fault is, from its covered bytes, its checksum and what follows.
  lemma TakenApart(data: seq<byte>, t: seq<byte>, unread: seq<byte>)
    requires |data| == COVERED && |t| == 4
    ensures var (after, recv) := (data + t + unread, Be32(t[0], t[1], t[2], t[3]));
            && FaultIn(after) == FaultOf(data, Syndrome(data, recv))
            && ParseR(after)
               == if Crc(data) == recv then Parsed(Frame(TYPE_PCM_CRC, data[5..], false), unread)
                  else match Correct(data, Syndrome(data, recv))
                       case Fixed(fixed) => Parsed(Frame(TYPE_PCM_CRC, fixed[5..], true), unread)
                       case Hopeless => Parsed(CrcBad, after)
  {
    hide Crc, Correct, Syndrome, Be32, FaultOf;
    var after := data + t + unread;
    assert after[..COVERED] == data;
    assert after[R_REST..] == unread;
    assert forall i :: 0 <= i < 4 ==> after[COVERED + i] == t[i];
  }

  // Every event that is not a clean frame moves one counter; a corrected bit is also counted by its
  // direction, and a failed frame by the bytes pushed back.
  lemma CountedOnce(was: Tally, now: Tally, e: Event, fault: Fault)
    requires Counted(was, now, e, fault)
    ensures match e
            case BadHeader => now == was.(badHeaders := was.badHeaders + 1, pushedBack := was.pushedBack + 5)
            case CrcBad => now == was.(uncorrectable := was.uncorrectable + 1, pushedBack := was.pushedBack + 522)
            case Frame(_, _, false) => now == was
            case Frame(_, _, true) =>
              if fault == InChecksum then now == was.(inChecksum := was.inChecksum + 1)
              else if fault == InData(true) then
                now == was.(inData := was.inData + 1, flips0to1 := was.flips0to1 + 1)
              else now == was.(inData := was.inData + 1, flips1to0 := was.flips1to0 + 1)
  {}

  // The fault found is the one there is: a flipped covered bit came as the opposite of what was
  // sent, and a flipped checksum bit lies in the checksum.
  lemma FaultFound(data: seq<byte>, p: nat, recv: bv32)
    requires 8 * |data| <= MAX_BITS && 8 <= p < 8 * |data|
    ensures FaultOf(Flip(data, p), Syndrome(Flip(data, p), Crc(data))) == InData(!BitOf(data[p / 8], p % 8))
    ensures SingleBit(Syndrome(data, recv)) ==> FaultOf(data, Syndrome(data, recv)) == InChecksum
  {
    hide Xor, SingleBit, Response, Distance, Crc, BitOf, FlipByte;
    var d := 8 * |data| - 1 - p;
    CrcOfFlip(data, p);
    XorBack(Crc(data), Response(d));
    ResponseNotSingleBit(d);
    DistanceIs(d, 8 * |data|);
    Opposite(data[p / 8], p % 8);
    Explained(data, Syndrome(data, recv));
  }

  lemma Opposite(b: byte, k: nat)
    requires k < 8
    ensures BitOf(FlipByte(b, k), k) == !BitOf(b, k)
  {}

  lemma Pieces(h: seq<byte>, unread: seq<byte>)
    requires |unread| >= R_PAYLOAD + 4
    ensures h + unread[..R_PAYLOAD] + unread[R_PAYLOAD..][..4] + unread[R_PAYLOAD..][4..] == h + unread
  {}

  lemma AllowedFits(typ: byte, len: nat, cfg: Config)
    requires LengthAllowed(typ, len, cfg)
    ensures len <= MAX_CONTROL || len <= cfg.maxLen
  {}

  method XorWords(a: bv32, b: bv32) returns (r: bv32)
    ensures r == Xor(a, b)
    ensures a != b ==> r != 0
  {
    XorCancel(a, b);
    r := a ^ b;
  }

  method IsSingleBit(syn: bv32) returns (r: bool)
    requires syn != 0
    ensures r == SingleBit(syn)
  {
    r := syn & (syn - 1) == 0;
  }

  lemma ResponseFirst()
    ensures Response(0) == POLY
  {}

  lemma ResponseNext(d: nat)
    ensures Response(d + 1) == Step(Response(d))
  {}
}
