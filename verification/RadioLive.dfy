// The radio at the live ring: what the detector knows is what the reads are served by.
module RadioLive {
  import opened Bytes
  import opened Clock
  import opened FileSwitch
  import opened LiveRing
  import opened LiveServe
  import opened LiveSession
  import opened RadioSession
  import RadioRun

  // A read as it is served, classified before the detector takes note of it.
  function ReqOf(d: Detector, x: FileRead, now: Millis, sizes: seq<nat>): Req
    requires d.current < |sizes|
  {
    Req(x.file, x.off, x.n, IsPlayback(d, x), d.anchored && AtEnd(d, sizes), now)
  }

  // The first request of a turn.
  function FirstReq(d: Detector, radio: RadioRun.Radio, step: RadioRun.Step, sizes: seq<nat>, wrap: bool): Req
    requires d.current < |sizes| && radio.file < |sizes|
    requires 0 < |RadioRun.TurnReads(radio, step.turn, sizes, wrap)| == |step.ts|
  {
    ReqOf(d, RadioRun.TurnReads(radio, step.turn, sizes, wrap)[0], step.ts[0], sizes)
  }

  // A turn that opens a file starts with an open of it, and counts as following a natural end
  // exactly when the radio is known to have read its last file to within the tolerance.
  lemma TurnOpens(d: Detector, radio: RadioRun.Radio, step: RadioRun.Step, sizes: seq<nat>, wrap: bool, g: nat)
    requires radio.file < |sizes| && d.current < |sizes| && RadioRun.Layout(sizes)
    requires RadioRun.Synced(d, radio, sizes) && RadioRun.Possible(radio, step, sizes, wrap)
    requires RadioRun.Target(radio, step.turn, |sizes|, wrap) == Some(g)
    ensures |step.ts| > 0
    ensures var q := FirstReq(d, radio, step, sizes, wrap);
            var size := sizes[radio.file];
            && IsOpen(q) && q.file == g && q.n == READ_BYTES
            && (q.afterEnd <==> radio.blocks >= DEBOUNCE_READS
                                && RadioRun.Reached(radio, size) + NATURAL_EOF_TOLERANCE >= size)
  {
    hide HeadEnd, Probes, Heads;
    RadioRun.Each(sizes, g);
    assert OpenOffsets(sizes[g])[0] == 0;
  }

  // A block of playback goes on where the one before it ended; the first after an open is the
  // start of the file once more.
  lemma PlayGoesOn(d: Detector, radio: RadioRun.Radio, step: RadioRun.Step, sizes: seq<nat>, wrap: bool)
    requires radio.file < |sizes| && d.current < |sizes| && step.turn == RadioRun.Play
    requires RadioRun.Synced(d, radio, sizes) && RadioRun.Possible(radio, step, sizes, wrap)
    ensures |step.ts| > 0
    ensures var q := FirstReq(d, radio, step, sizes, wrap);
            q.file == radio.file && q.off == radio.pos && q.playback && (IsOpen(q) <==> radio.pos == 0)
  {}

  // Next is relayed exactly when the file it opens does not follow a natural end, unless the
  // detector has lost sight of the radio or the drive has only just been mounted.
  lemma RelayedOrSeamless(d: Detector, radio: RadioRun.Radio, step: RadioRun.Step, sizes: seq<nat>, wrap: bool)
    requires radio.file < |sizes| && d.current < |sizes| && RadioRun.Layout(sizes)
    requires RadioRun.Synced(d, radio, sizes) && RadioRun.Possible(radio, step, sizes, wrap)
    requires step.turn == RadioRun.PressNext && RadioRun.Following(radio.file, |sizes|, wrap).Some?
    ensures var xs := RadioRun.TurnReads(radio, step.turn, sizes, wrap);
            && |xs| == |step.ts| > 0 && (forall i :: 0 <= i < |xs| ==> xs[i].file < |sizes|)
            && Heard(d, xs, step.ts, sizes, |xs|)
               == if FirstReq(d, radio, step, sizes, wrap).afterEnd || RadioRun.Unheard(radio, step) then []
                  else [Relay.Next]
  {
    TurnOpens(d, radio, step, sizes, wrap, RadioRun.Following(radio.file, |sizes|, wrap).value);
    RadioRun.TurnHeard(d, radio, step, sizes, wrap);
    hide RadioRun.Synced, RadioRun.TurnReads, RadioRun.Reached, ReqOf, Heard;
  }

  // A file played to its end goes on in the next one at the very byte of the stream playback
  // had reached, if and only if that is within the open limits.
  lemma FileEndGoesOn(m: Machine, silence: seq<Byte>, d: Detector, radio: RadioRun.Radio, step: RadioRun.Step,
                      sizes: seq<nat>, wrap: bool)
    requires radio.file < |sizes| && d.current < |sizes| && RadioRun.Layout(sizes)
    requires RadioRun.Synced(d, radio, sizes) && RadioRun.Possible(radio, step, sizes, wrap)
    requires step.turn == RadioRun.FileEnd && radio.blocks >= DEBOUNCE_READS
    requires |step.ts| > 0
    requires var q := FirstReq(d, radio, step, sizes, wrap);
             && Inv(m, silence) && Allowed(m, Action.Read(q)) && Usable(m.r, q.n) && m.l.init
             && !IsReread(m.l, q) && AliveAt(m.l.cursor, m.at, m.r, m.h)
    ensures StartOf(m, ReadOutcome(m.l, m.r, FirstReq(d, radio, step, sizes, wrap))) == m.at
       <==> (var lag := |m.h.stream| - m.at; lag <= MAX_OPEN_LAG && lag <= m.r.total - SAFETY_MARGIN)
  {
    hide Inv, Allowed, Usable, IsReread, AliveAt, StartOf, ReadOutcome, RadioRun.Synced, RadioRun.TurnReads, ReqOf;
    TurnOpens(d, radio, step, sizes, wrap, RadioRun.Target(radio, step.turn, |sizes|, wrap).value);
    NaturalEndExactly(m, FirstReq(d, radio, step, sizes, wrap), silence);
  }

  // ---- Without priming

  // A ring that has not been primed: 5000 bytes appended, and the very first reads, a block at the
  // start of a file and 512 bytes after it. The first comes too early; the second jumps to where
  // nothing has ever been written.
  lemma UnprimedJump(cells: seq<Byte>, data: seq<Byte>, first: Millis, second: Millis, sizes: seq<nat>,
                     silence: seq<Byte>)
    requires |cells| == 0x10_0000 && |data| == 5000 && |sizes| > 0 && |silence| == 17135
    ensures var r := Appended(NewRing(cells), data);
            var x1, x2 := FileRead(0, 0, READ_BYTES), FileRead(0, READ_BYTES, 512);
            var d := Note(FileSwitch.Boot, x1, first, sizes).0;
            var q1 := ReqOf(FileSwitch.Boot, x1, first, sizes);
            && Ready(Idle, r, q1, silence) && ReadOutcome(Idle, r, q1) == TooEarly
            && d.current < |sizes|
            && var q2 := ReqOf(d, x2, second, sizes);
               && Ready(AfterRead(Idle, r, q1, silence), r, q2, silence)
               && ReadOutcome(AfterRead(Idle, r, q1, silence), r, q2)
                  == FromRing(0x10_0000 - 7288, TARGET_LAG, 512)
               && 0x10_0000 - 7288 > r.wp
  {}
}
