// The frame layer as a pure parser: what one call of `next` does to the bytes that
// are still to be read.
module LinkFrames {
  import opened Crc32
  import opened LinkCorrection

  const MAGIC: byte := 0xAA
  const TYPE_MP3: byte := 0x41
  const TYPE_CONTROL: byte := 0x43
  const TYPE_PCM: byte := 0x50
  const TYPE_PCM_CRC: byte := 0x52

  const MAX_PCM: nat := 512
  const R_PAYLOAD: nat := 1 + MAX_PCM
  const COVERED: nat := 5 + R_PAYLOAD
  const R_REST: nat := COVERED + 4
  const MAX_CONTROL: nat := 256

  datatype Config = Config(acceptRaw: bool, maxLen: nat)

  datatype Event =
    | Frame(typ: byte, payload: seq<byte>, corrected: bool)
    | BadHeader
    | CrcBad

  // Blocked: the call is still waiting for bytes.
  datatype Outcome = Blocked | Parsed(event: Event, rest: seq<byte>)

  function Be32(b0: byte, b1: byte, b2: byte, b3: byte): bv32
  {
    (b0 as bv32 << 24) | (b1 as bv32 << 16) | (b2 as bv32 << 8) | b3 as bv32
  }

  function HeaderLength(h: seq<byte>): nat
    requires |h| == 5
  {
    h[1] as nat * 0x100_0000 + h[2] as nat * 0x1_0000 + h[3] as nat * 0x100 + h[4] as nat
  }

  function MagicIndex(s: seq<byte>): (i: nat)
    ensures i <= |s|
    ensures i < |s| ==> s[i] == MAGIC
    ensures forall k :: 0 <= k < i ==> s[k] != MAGIC
  {
    if |s| == 0 then 0 else if s[0] == MAGIC then 0 else 1 + MagicIndex(s[1..])
  }

  // The bytes after a magic that starts an 'R' frame.
  function ParseR(after: seq<byte>): Outcome
  {
    if |after| < R_REST then Blocked
    else
      var data := after[..COVERED];
      var recv := Be32(after[COVERED], after[COVERED + 1], after[COVERED + 2], after[COVERED + 3]);
      if Crc(data) == recv then Parsed(Frame(TYPE_PCM_CRC, data[5..], false), after[R_REST..])
      else match Correct(data, Syndrome(data, recv))
           case Fixed(fixed) => Parsed(Frame(TYPE_PCM_CRC, fixed[5..], true), after[R_REST..])
           case Hopeless => Parsed(CrcBad, after)
  }

  predicate LengthAllowed(typ: byte, len: nat, cfg: Config)
  {
    || (typ == TYPE_CONTROL && len <= MAX_CONTROL)
    || (cfg.acceptRaw && (typ == TYPE_PCM || typ == TYPE_MP3) && len <= cfg.maxLen)
  }

  function ParseOther(after: seq<byte>, cfg: Config): Outcome
    requires |after| >= 5
  {
    var len := HeaderLength(after[..5]);
    if !LengthAllowed(after[0], len, cfg) then Parsed(BadHeader, after)
    else if |after| < 5 + len then Blocked
    else Parsed(Frame(after[0], after[5..5 + len], false), after[5 + len..])
  }

  function ParseHeader(after: seq<byte>, cfg: Config): Outcome
  {
    if |after| < 5 then Blocked
    else if after[0] == TYPE_PCM_CRC then ParseR(after)
    else ParseOther(after, cfg)
  }

  function Parse(s: seq<byte>, cfg: Config): Outcome
  {
    var m := MagicIndex(s);
    if m == |s| then Blocked else ParseHeader(s[m + 1..], cfg)
  }

  // Every call that returns uses up at least one byte.
  lemma ParseProgress(s: seq<byte>, cfg: Config)
    ensures match Parse(s, cfg)
            case Blocked => true
            case Parsed(_, rest) => |rest| < |s| && rest == s[|s| - |rest|..]
  {
  }
}
