// What the encoder gets for a received frame, on values.
module LinkRxSpec {
  import opened Clock
  import opened ConcealSpec

  const FRAME_SAMPLES: nat := 256
  const FRAME_US: nat := FRAME_SAMPLES * 1000000 / 44100
  const MAX_GAP_FRAMES: nat := 16

  type SeqNo = x: int | 0 <= x < 256

  datatype Rx = Rx(conceal: State, haveSeq: bool, lastSeq: SeqNo, lastMs: Millis)

  predicate RxOk(rx: Rx) { StateOk(rx.conceal) }

  function Start(): (rx: Rx)
    ensures RxOk(rx)
  {
    Rx(Initial(), false, 0, 0)
  }

  // Frames missing between two sequence numbers, in 8-bit arithmetic.
  function Gap(last: SeqNo, seqNo: SeqNo): (g: nat)
    ensures g < 256
  {
    (seqNo - (last + 1) % 256) % 256
  }

  function ExpectMs(gap: nat): nat { (gap + 1) * FRAME_US / 1000 }

  // The time that passed fits the missing frames: lost data, not a restarted sender.
  predicate TimeAgrees(gap: nat, elapsed: nat)
  {
    elapsed <= ExpectMs(gap) + 60 && elapsed + 60 >= ExpectMs(gap) / 2
  }

  // `gap` frames of replacement.
  function FillState(s: State, gap: nat): (r: State)
    requires StateOk(s)
    ensures StateOk(r)
  {
    if gap == 0 then s else Lost(FillState(s, gap - 1), FRAME_SAMPLES)
  }

  function FillOut(s: State, gap: nat): (out: seq<Sample>)
    requires StateOk(s)
    ensures |out| == FRAME_SAMPLES * gap
  {
    if gap == 0 then [] else FillOut(s, gap - 1) + LostOut(FillState(s, gap - 1), FRAME_SAMPLES)
  }

  // Frames filled in before a received frame.
  function Filled(rx: Rx, seqNo: SeqNo, now: Millis): (g: nat)
    ensures g < 256
  {
    var gap := Gap(rx.lastSeq, seqNo);
    if rx.haveSeq && TimeAgrees(gap, Elapsed(rx.lastMs, now)) then gap else 0
  }

  predicate IsOutage(rx: Rx, seqNo: SeqNo, now: Millis)
  {
    var gap := Gap(rx.lastSeq, seqNo);
    rx.haveSeq && gap > 0 && !TimeAgrees(gap, Elapsed(rx.lastMs, now))
  }

  // The concealer just before the received frame.
  function Prepared(rx: Rx, seqNo: SeqNo, now: Millis): (s: State)
    requires RxOk(rx)
    ensures StateOk(s)
  {
    if IsOutage(rx, seqNo, now) then Outage(rx.conceal)
    else FillState(rx.conceal, Filled(rx, seqNo, now))
  }

  function Emitted(rx: Rx, seqNo: SeqNo, now: Millis, pcm: seq<Sample>): (out: seq<Sample>)
    requires RxOk(rx)
    ensures |out| == FRAME_SAMPLES * Filled(rx, seqNo, now) + |pcm|
  {
    FillOut(rx.conceal, Filled(rx, seqNo, now)) + GoodOut(Prepared(rx, seqNo, now), pcm)
  }

  function OnGood(rx: Rx, seqNo: SeqNo, now: Millis, pcm: seq<Sample>): (r: Rx)
    requires RxOk(rx)
    ensures RxOk(r)
  {
    Rx(Good(Prepared(rx, seqNo, now), pcm), true, seqNo, now)
  }
}
