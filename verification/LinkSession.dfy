// Whole runs of the receiver: repeated calls of `next` on one stretch of wire bytes.
module LinkSession {
  import Bytes
  import opened Crc32
  import opened LinkFrames
  import opened LinkRecovery

  // An event and the stretch of the stream it used up.
  datatype Item = Item(start: nat, end: nat, event: Event)

  function Run(s: seq<byte>, cfg: Config, at: nat): (items: seq<Item>)
    decreases |s|
  {
    match Parse(s, cfg)
    case Blocked => []
    case Parsed(e, rest) =>
      ParseProgress(s, cfg);
      var end := at + |s| - |rest|;
      [Item(at + MagicIndex(s), end, e)] + Run(rest, cfg, end)
  }

  // One call, then the rest of the run.
  lemma RunStep(s: seq<byte>, cfg: Config, at: nat)
    requires Parse(s, cfg).Parsed?
    ensures var Parsed(e, rest) := Parse(s, cfg);
            && |rest| < |s| && rest == s[|s| - |rest|..] && MagicIndex(s) < |s|
            && Run(s, cfg, at) == [Item(at + MagicIndex(s), at + |s| - |rest|, e)] + Run(rest, cfg, at + |s| - |rest|)
  {
    hide Parse;
    ParseProgress(s, cfg);
    ParsedHasMagic(s, cfg);
  }

  lemma ParsedHasMagic(s: seq<byte>, cfg: Config)
    requires Parse(s, cfg).Parsed?
    ensures MagicIndex(s) < |s|
  {}

  function Events(items: seq<Item>): seq<Event>
  {
    seq(|items|, i requires 0 <= i < |items| => items[i].event)
  }

  // ---- Resynchronisation

  // Enough bytes after p for nothing that starts before p to be left waiting.
  predicate EnoughAfter(s: seq<byte>, p: nat, cfg: Config)
  {
    p + FRAME_BYTES <= |s| && (cfg.acceptRaw ==> p + 6 + cfg.maxLen <= |s|)
  }

  lemma MagicBefore(s: seq<byte>, p: nat)
    requires p < |s| && s[p] == MAGIC
    ensures MagicIndex(s) <= p
  {}

  // Looking for a frame from a magic before it: either a frame is accepted there, or the
  // scan goes on right behind that magic.
  lemma StepBefore(s: seq<byte>, p: nat, cfg: Config)
    requires EnoughAfter(s, p, cfg) && MagicIndex(s) < p
    ensures Parse(s, cfg).Parsed?
    ensures !Parse(s, cfg).event.Frame? ==> Parse(s, cfg).rest == s[MagicIndex(s) + 1..]
  {
    hide HeaderLength, Be32, Crc, LinkCorrection.Correct;
  }

  lemma ParseSkips(s: seq<byte>, cfg: Config)
    requires MagicIndex(s) < |s|
    ensures Parse(s[MagicIndex(s)..], cfg) == Parse(s, cfg)
  {
    hide ParseHeader;
    var m := MagicIndex(s);
    assert MagicIndex(s[m..]) == 0;
    assert s[m..][1..] == s[m + 1..];
  }

  // A frame that starts at a magic the parser has reached.
  lemma IntactHere(s: seq<byte>, p: nat, cfg: Config)
    requires p + FRAME_BYTES <= |s| && Codeword(s[p..p + FRAME_BYTES]) && MagicIndex(s) == p
    ensures Parse(s, cfg) == Parsed(Frame(TYPE_PCM_CRC, s[p + 6..p + 6 + R_PAYLOAD], false), s[p + FRAME_BYTES..])
  {
    hide Parse, Crc, TrailerWord;
    ParseSkips(s, cfg);
    var f := s[p..p + FRAME_BYTES];
    var data, t, tail := f[1..1 + COVERED], f[1 + COVERED..], s[p + FRAME_BYTES..];
    CodewordStart(f);
    Pieces(s, p);
    hide Codeword;
    IntactDelivered(data, t, tail, cfg);
  }

  // Magic byte, covered bytes, checksum, and what follows the frame.
  lemma Pieces(s: seq<byte>, p: nat)
    requires p + FRAME_BYTES <= |s| && s[p] == MAGIC
    ensures var f := s[p..p + FRAME_BYTES];
            && s[p..] == [MAGIC] + f[1..1 + COVERED] + f[1 + COVERED..] + s[p + FRAME_BYTES..]
            && f == [MAGIC] + f[1..1 + COVERED] + f[1 + COVERED..]
            && f[1..1 + COVERED][5..] == s[p + 6..p + 6 + R_PAYLOAD]
  {
    var f := s[p..p + FRAME_BYTES];
    assert f == [MAGIC] + f[1..1 + COVERED] + f[1 + COVERED..];
    assert s[p..] == f + s[p + FRAME_BYTES..];
  }

  // Every intact 'R' frame is delivered unless its first byte lies inside a frame that was
  // accepted earlier.
  lemma {:induction false} Resynchronises(s: seq<byte>, p: nat, cfg: Config, at: nat) returns (i: nat)
    requires EnoughAfter(s, p, cfg) && Codeword(s[p..p + FRAME_BYTES])
    ensures i < |Run(s, cfg, at)|
    ensures var item := Run(s, cfg, at)[i];
            || item == Item(at + p, at + p + FRAME_BYTES, Frame(TYPE_PCM_CRC, s[p + 6..p + 6 + R_PAYLOAD], false))
            || (item.event.Frame? && item.start < at + p < item.end)
    decreases |s|
  {
    hide Parse, Codeword, Run;
    assert s[p..p + FRAME_BYTES][0] == MAGIC by { CodewordStart(s[p..p + FRAME_BYTES]); }
    MagicBefore(s, p);
    if MagicIndex(s) == p {
      IntactHere(s, p, cfg);
      RunStep(s, cfg, at);
      i := 0;
    } else {
      StepBefore(s, p, cfg);
      RunStep(s, cfg, at);
      var rest := Parse(s, cfg).rest;
      var used := |s| - |rest|;
      if p < used {
        i := 0;
      } else {
        Further(s, used, p, FRAME_BYTES);
        Further(s, used, p + 6, R_PAYLOAD);
        i := Resynchronises(rest, p - used, cfg, at + used);
        i := i + 1;
      }
    }
  }

  lemma Further(s: seq<byte>, used: nat, p: nat, n: nat)
    requires used <= p && p + n <= |s|
    ensures s[used..][p - used..p - used + n] == s[p..p + n]
  {}

  lemma CodewordStart(f: seq<byte>)
    requires Codeword(f)
    ensures f[0] == MAGIC
  {}

  // ---- Soundness over a run

  // Behind every delivered 'R' frame there is a valid frame, at most one bit away from the
  // 523 bytes the frame was read from.
  lemma {:induction false} RunIsSound(s: seq<byte>, cfg: Config, at: nat, i: nat) returns (sent: seq<byte>)
    requires i < |Run(s, cfg, at)|
    requires var e := Run(s, cfg, at)[i].event; e.Frame? && e.typ == TYPE_PCM_CRC
    ensures var item := Run(s, cfg, at)[i];
            && at <= item.start && item.end == item.start + FRAME_BYTES && item.end <= at + |s|
            && Codeword(sent)
            && WithinOneBit(s[item.start - at..item.end - at], sent)
            && sent[6..6 + R_PAYLOAD] == item.event.payload
    decreases |s|
  {
    hide Codeword, WithinOneBit, Parse, Run;
    if Parse(s, cfg).Blocked? {
      assert Run(s, cfg, at) == [] by { RunBlocked(s, cfg, at); }
      return;
    }
    RunStep(s, cfg, at);
    var rest := Parse(s, cfg).rest;
    var used := |s| - |rest|;
    var item := Run(s, cfg, at)[i];
    if i == 0 {
      sent := FirstIsSound(s, cfg);
    } else {
      assert item == Run(rest, cfg, at + used)[i - 1];
      sent := RunIsSound(rest, cfg, at + used, i - 1);
      var from, to := item.start - at - used, item.end - at - used;
      assert rest[from..to] == s[from + used..to + used];
    }
  }

  lemma RunBlocked(s: seq<byte>, cfg: Config, at: nat)
    requires Parse(s, cfg).Blocked?
    ensures Run(s, cfg, at) == []
  {}

  lemma FirstIsSound(s: seq<byte>, cfg: Config) returns (sent: seq<byte>)
    requires Parse(s, cfg).Parsed? && Parse(s, cfg).event.Frame? && Parse(s, cfg).event.typ == TYPE_PCM_CRC
    ensures var m := MagicIndex(s);
            && |Parse(s, cfg).rest| == |s| - m - FRAME_BYTES
            && Codeword(sent)
            && WithinOneBit(s[m..m + FRAME_BYTES], sent)
            && sent[6..6 + R_PAYLOAD] == Parse(s, cfg).event.payload
  {
    hide Codeword, WithinOneBit, HeaderLength, Be32, Crc, LinkCorrection.Correct;
    var m := MagicIndex(s);
    var after := s[m + 1..];
    var data, t, tail := after[..COVERED], after[COVERED..R_REST], after[R_REST..];
    assert after == data + t + tail;
    sent := DeliveredIsCodeword(data, t, tail);
    assert s[m..m + FRAME_BYTES] == [MAGIC] + data + t;
  }

  // ---- Waiting and chunking

  lemma MagicIndexExtend(s: seq<byte>, t: seq<byte>)
    requires MagicIndex(s) < |s|
    ensures MagicIndex(s + t) == MagicIndex(s)
  {
    assert (s + t)[MagicIndex(s)] == MAGIC;
  }

  lemma ParseHeaderExtend(after: seq<byte>, t: seq<byte>, cfg: Config)
    requires ParseHeader(after, cfg).Parsed?
    ensures ParseHeader(after + t, cfg)
         == Parsed(ParseHeader(after, cfg).event, ParseHeader(after, cfg).rest + t)
  {
    hide HeaderLength, Be32, Crc, LinkCorrection.Correct, LinkCorrection.Syndrome;
    var all := after + t;
    assert all[..5] == after[..5];
    if after[0] == TYPE_PCM_CRC {
      assert all[..COVERED] == after[..COVERED];
      assert all[R_REST..] == after[R_REST..] + t;
    } else {
      var len := HeaderLength(after[..5]);
      if LengthAllowed(after[0], len, cfg) {
        assert all[5..5 + len] == after[5..5 + len];
        assert all[5 + len..] == after[5 + len..] + t;
      }
    }
  }

  // Bytes that arrive later never change an event that has already been returned.
  lemma ParseExtend(s: seq<byte>, t: seq<byte>, cfg: Config)
    requires Parse(s, cfg).Parsed?
    ensures Parse(s + t, cfg) == Parsed(Parse(s, cfg).event, Parse(s, cfg).rest + t)
  {
    hide ParseHeader;
    var m := MagicIndex(s);
    MagicIndexExtend(s, t);
    assert (s + t)[m + 1..] == s[m + 1..] + t;
    ParseHeaderExtend(s[m + 1..], t, cfg);
  }

  // What is still unread when the receiver starts to wait.
  function Left(s: seq<byte>, cfg: Config): seq<byte>
    decreases |s|
  {
    match Parse(s, cfg)
    case Blocked => s
    case Parsed(_, rest) => ParseProgress(s, cfg); Left(rest, cfg)
  }

  // It makes no difference in which pieces the bytes arrive.
  lemma {:induction false} RunInPieces(s: seq<byte>, t: seq<byte>, cfg: Config, at: nat)
    ensures |Left(s, cfg)| <= |s|
    ensures Run(s + t, cfg, at) == Run(s, cfg, at) + Run(Left(s, cfg) + t, cfg, at + |s| - |Left(s, cfg)|)
    decreases |s|
  {
    hide Parse, Run;
    if Parse(s, cfg).Blocked? {
      RunBlocked(s, cfg, at);
    } else {
      var rest := Parse(s, cfg).rest;
      RunStep(s, cfg, at);
      ParseExtend(s, t, cfg);
      MagicIndexExtend(s, t);
      RunStep(s + t, cfg, at);
      var end := at + |s| - |rest|;
      RunInPieces(rest, t, cfg, end);
      assert |s + t| - |rest + t| == |s| - |rest|;
    }
  }

  // ---- A whole session

  datatype Sent =
    | Junk(bytes: seq<byte>)
    | Control(text: seq<byte>)
    | Raw(typ: byte, data: seq<byte>)
    | Audio(payload: seq<byte>)
    | FlippedAudio(payload: seq<byte>, bit: nat)

  // The byte of that value.
  function Octet(x: nat): (b: byte)
    requires x < 256
    ensures b as nat == x
  {
    if x == 0 then 0 else NextOctet(Octet(x - 1)); Octet(x - 1) + 1
  }

  lemma NextOctet(b: byte)
    requires b != 255
    ensures (b + 1) as nat == b as nat + 1
  {}

  // A frame without a checksum: magic, type, the length in four octets, highest first, and the data.
  ghost function PlainFrame(typ: byte, data: seq<byte>): (f: seq<byte>)
    requires |data| < 0x1_0000_0000
    ensures |f| == 6 + |data|
  {
    [MAGIC] + PlainHeader(typ, |data|) + data
  }

  function PlainHeader(typ: byte, n: nat): (h: seq<byte>)
    requires n < 0x1_0000_0000
    ensures |h| == 5
  {
    [typ, Octet(n / 0x100_0000), Octet(n / 0x1_0000 % 0x100), Octet(n / 0x100 % 0x100), Octet(n % 0x100)]
  }

  // The types without a checksum, and how long their frames may be: control texts of up to 256
  // bytes, and raw audio as far as the receiver takes it.
  predicate Accepted(typ: byte, n: nat, cfg: Config)
  {
    || (typ == 0x43 && n <= 256)
    || (cfg.acceptRaw && (typ == 0x50 || typ == 0x41) && n <= cfg.maxLen)
  }

  // Junk free of magics, control texts and raw audio the receiver takes, full audio frames with
  // at most one bit flipped after the type byte.
  ghost predicate Sendable(x: Sent, cfg: Config)
  {
    match x
    case Junk(bytes) => forall i :: 0 <= i < |bytes| ==> bytes[i] != MAGIC
    case Control(text) => |text| <= 256
    case Raw(typ, data) => typ != 0x43 && |data| < 0x1_0000_0000 && Accepted(typ, |data|, cfg)
    case Audio(payload) => |payload| == R_PAYLOAD
    case FlippedAudio(payload, bit) => |payload| == R_PAYLOAD && 16 <= bit < 8 * FRAME_BYTES
  }

  ghost function Wire(x: Sent, cfg: Config): seq<byte>
    requires Sendable(x, cfg)
  {
    match x
    case Junk(bytes) => bytes
    case Control(text) => PlainFrame(0x43, text)
    case Raw(typ, data) => PlainFrame(typ, data)
    case Audio(payload) => AudioFrame(payload)
    case FlippedAudio(payload, bit) => Flip(AudioFrame(payload), bit)
  }

  ghost function Delivered(x: Sent): seq<Event>
  {
    match x
    case Junk(_) => []
    case Control(text) => [Frame(0x43, text, false)]
    case Raw(typ, data) => [Frame(typ, data, false)]
    case Audio(payload) => [Frame(TYPE_PCM_CRC, payload, false)]
    case FlippedAudio(payload, _) => [Frame(TYPE_PCM_CRC, payload, true)]
  }

  ghost function WireAll(xs: seq<Sent>, cfg: Config): seq<byte>
    requires forall x :: x in xs ==> Sendable(x, cfg)
  {
    if |xs| == 0 then [] else Wire(xs[0], cfg) + WireAll(xs[1..], cfg)
  }

  ghost function DeliveredAll(xs: seq<Sent>): seq<Event>
  {
    if |xs| == 0 then [] else Delivered(xs[0]) + DeliveredAll(xs[1..])
  }

  // The length comes out of its four octets.
  lemma HeaderRead(typ: byte, n: nat)
    requires n < 0x1_0000_0000
    ensures HeaderLength(PlainHeader(typ, n)) == n
  {
    hide Octet;
    Bytes.FourOctets(n);
  }

  // Exactly what becomes of a header with a type and a length, and of what follows it, for every
  // type but that of checked audio.
  lemma PlainParsed(typ: byte, n: nat, rest: seq<byte>, cfg: Config)
    requires n < 0x1_0000_0000 && typ != TYPE_PCM_CRC
    ensures Parse([MAGIC] + PlainHeader(typ, n) + rest, cfg)
         == if !Accepted(typ, n, cfg) then Parsed(BadHeader, PlainHeader(typ, n) + rest)
            else if |rest| < n then Blocked
            else Parsed(Frame(typ, rest[..n], false), rest[n..])
  {
    hide Parse, ParseHeader, HeaderLength, PlainHeader;
    var h := PlainHeader(typ, n);
    assert [MAGIC] + h + rest == [MAGIC] + (h + rest);
    ParseHeaderAt(h + rest, cfg);
    HeaderRead(typ, n);
    ParseOtherAs(typ, n, rest, cfg);
  }

  lemma ParseHeaderAt(after: seq<byte>, cfg: Config)
    ensures Parse([MAGIC] + after, cfg) == ParseHeader(after, cfg)
  {
    hide ParseHeader;
    var s := [MAGIC] + after;
    assert MagicIndex(s) == 0;
    assert s[1..] == after;
  }

  lemma ParseOtherAs(typ: byte, n: nat, rest: seq<byte>, cfg: Config)
    requires n < 0x1_0000_0000 && typ != TYPE_PCM_CRC
    ensures ParseHeader(PlainHeader(typ, n) + rest, cfg)
         == if !Accepted(typ, n, cfg) then Parsed(BadHeader, PlainHeader(typ, n) + rest)
            else if |rest| < n then Blocked
            else Parsed(Frame(typ, rest[..n], false), rest[n..])
  {
    HeaderRead(typ, n);
    AllowedIs(typ, n, cfg);
    var h := PlainHeader(typ, n);
    assert h[0] == typ;
    hide HeaderLength, ParseR, ParseOther, PlainHeader, LengthAllowed, Accepted;
    AfterHeader(h, rest);
    OtherAs(h, n, rest, cfg);
  }

  lemma OtherAs(h: seq<byte>, n: nat, rest: seq<byte>, cfg: Config)
    requires |h| == 5 && HeaderLength(h) == n
    ensures ParseOther(h + rest, cfg)
         == if !LengthAllowed(h[0], n, cfg) then Parsed(BadHeader, h + rest)
            else if |rest| < n then Blocked
            else Parsed(Frame(h[0], rest[..n], false), rest[n..])
  {
    hide HeaderLength, LengthAllowed;
    AfterHeader(h, rest);
    if |rest| >= n { DataAfter(h, rest, n); }
  }

  lemma AllowedIs(typ: byte, n: nat, cfg: Config)
    ensures LengthAllowed(typ, n, cfg) <==> Accepted(typ, n, cfg)
  {}

  lemma AfterHeader(h: seq<byte>, rest: seq<byte>)
    requires |h| == 5
    ensures (h + rest)[..5] == h && (h + rest)[0] == h[0]
  {}

  lemma DataAfter(h: seq<byte>, rest: seq<byte>, n: nat)
    requires |h| == 5 && n <= |rest|
    ensures (h + rest)[5..5 + n] == rest[..n] && (h + rest)[5 + n..] == rest[n..]
  {}

  // A frame the receiver takes is delivered, one it does not take is rescanned behind its magic.
  lemma PlainDelivered(typ: byte, data: seq<byte>, tail: seq<byte>, cfg: Config)
    requires |data| < 0x1_0000_0000 && typ != TYPE_PCM_CRC
    ensures Parse(PlainFrame(typ, data) + tail, cfg)
         == if Accepted(typ, |data|, cfg) then Parsed(Frame(typ, data, false), tail)
            else Parsed(BadHeader, PlainHeader(typ, |data|) + data + tail)
  {
    hide Parse, PlainHeader, Accepted;
    var h := PlainHeader(typ, |data|);
    assert [MAGIC] + h + data + tail == [MAGIC] + h + (data + tail);
    assert h + data + tail == h + (data + tail);
    PlainParsed(typ, |data|, data + tail, cfg);
  }

  lemma AudioDelivered(payload: seq<byte>, tail: seq<byte>, cfg: Config)
    requires |payload| == R_PAYLOAD
    ensures Parse(AudioFrame(payload) + tail, cfg) == Parsed(Frame(TYPE_PCM_CRC, payload, false), tail)
  {
    AudioFrameParts(payload);
    var data := Covered(payload);
    hide Parse, AudioFrame, Trailer, TrailerWord, Crc, Covered;
    IntactDelivered(data, Trailer(Crc(data)), tail, cfg);
  }

  lemma FrameDelivered(x: Sent, tail: seq<byte>, cfg: Config)
    requires Sendable(x, cfg) && !x.Junk?
    ensures Parse(Wire(x, cfg) + tail, cfg) == Parsed(Delivered(x)[0], tail)
  {
    hide Parse, AudioFrame, Flip, PlainFrame;
    match x
    case Control(text) => PlainDelivered(0x43, text, tail, cfg);
    case Raw(typ, data) => PlainDelivered(typ, data, tail, cfg);
    case Audio(payload) => AudioDelivered(payload, tail, cfg);
    case FlippedAudio(payload, bit) => OneBitCorrected(payload, bit, tail, cfg);
  }

  lemma JunkSkipped(bytes: seq<byte>, tail: seq<byte>, cfg: Config, at: nat)
    requires Sendable(Junk(bytes), cfg)
    ensures Run(bytes + tail, cfg, at) == Run(tail, cfg, at + |bytes|)
  {
    hide ParseHeader;
    var s := bytes + tail;
    var m := MagicIndex(tail);
    assert MagicIndex(s) == |bytes| + m by {
      if m < |tail| { assert s[|bytes| + m] == MAGIC; }
    }
    if m < |tail| { assert s[|bytes| + m + 1..] == tail[m + 1..]; }
  }

  // From a synchronised start, whatever well-formed frames are sent come out exactly, in
  // order, single flipped audio bits and junk between frames notwithstanding.
  lemma {:induction false} SessionDelivered(xs: seq<Sent>, cfg: Config, at: nat)
    requires forall x :: x in xs ==> Sendable(x, cfg)
    ensures Events(Run(WireAll(xs, cfg), cfg, at)) == DeliveredAll(xs)
    decreases |xs|
  {
    hide Parse, Wire, Sendable, Run, Delivered, Events;
    if |xs| == 0 {
      NothingToParse(cfg);
      RunBlocked([], cfg, at);
      EventsNone();
    } else {
      var x, tail := xs[0], WireAll(xs[1..], cfg);
      if x.Junk? {
        JunkWire(x, cfg);
        DeliveredOne(x);
        JunkSkipped(x.bytes, tail, cfg, at);
        SessionDelivered(xs[1..], cfg, at + |x.bytes|);
        assert DeliveredAll(xs) == DeliveredAll(xs[1..]);
      } else {
        FrameDelivered(x, tail, cfg);
        var s := Wire(x, cfg) + tail;
        RunStep(s, cfg, at);
        SessionDelivered(xs[1..], cfg, at + |s| - |tail|);
        EventsCons(Run(s, cfg, at));
        DeliveredOne(x);
      }
    }
  }

  lemma EventsNone()
    ensures Events([]) == []
  {}

  lemma EventsCons(items: seq<Item>)
    requires |items| > 0
    ensures Events(items) == [items[0].event] + Events(items[1..])
  {}

  lemma DeliveredOne(x: Sent)
    ensures |Delivered(x)| == if x.Junk? then 0 else 1
  {}

  lemma NothingToParse(cfg: Config)
    ensures Parse([], cfg) == Blocked
  {}

  lemma JunkWire(x: Sent, cfg: Config)
    requires x.Junk? && Sendable(x, cfg)
    ensures Wire(x, cfg) == x.bytes
  {}
}
