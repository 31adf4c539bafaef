// Whole runs: the audio handed to the encoder stays aligned with what was sent.
module LinkRxRun {
  import opened Bytes
  import opened Clock
  import opened ConcealSpec
  import opened ConcealProps
  import opened LinkRxSpec

  // A received frame: its place in the sender's numbering, its audio, and when it came.
  datatype Arrival = Arrival(index: nat, pcm: seq<Sample>, ms: Millis)

  ghost predicate WellOrdered(xs: seq<Arrival>)
  {
    && (forall i :: 0 <= i < |xs| ==> |xs[i].pcm| == FRAME_SAMPLES)
    && (forall i :: 0 < i < |xs| ==> xs[i - 1].index < xs[i].index)
  }

  function SeqOf(index: nat): SeqNo { index % 256 }

  // The receiver after the first n arrivals, and what the encoder has by then.
  function RunState(xs: seq<Arrival>, n: nat): (rx: Rx)
    requires n <= |xs|
    ensures RxOk(rx)
  {
    if n == 0 then Start()
    else OnGood(RunState(xs, n - 1), SeqOf(xs[n - 1].index), xs[n - 1].ms, xs[n - 1].pcm)
  }

  function RunOut(xs: seq<Arrival>, n: nat): seq<Sample>
    requires n <= |xs|
  {
    if n == 0 then []
    else RunOut(xs, n - 1) + Emitted(RunState(xs, n - 1), SeqOf(xs[n - 1].index), xs[n - 1].ms, xs[n - 1].pcm)
  }

  // Frames lost between arrivals n - 1 and n.
  function LossBefore(xs: seq<Arrival>, n: nat): (loss: nat)
    requires 0 < n < |xs| && xs[n - 1].index < xs[n].index
  {
    xs[n].index - xs[n - 1].index - 1
  }

  function FilledBefore(xs: seq<Arrival>, n: nat): (g: nat)
    requires n < |xs|
    ensures g < 256
  {
    Filled(RunState(xs, n), SeqOf(xs[n].index), xs[n].ms)
  }

  // The loss is short enough to be seen, and the time that passed says it was a loss: at most
  // 60 ms more than the frames take, at 5804 us each, and at least half of that less 60 ms.
  predicate Recoverable(xs: seq<Arrival>, n: nat)
    requires 0 < n < |xs| && xs[n - 1].index < xs[n].index
  {
    var loss, passed := LossBefore(xs, n), Elapsed(xs[n - 1].ms, xs[n].ms);
    var due := (loss + 1) * 5804 / 1000;
    loss == 0 || (loss <= 255 && passed <= due + 60 && passed + 60 >= due / 2)
  }

  // A frame that comes within 60 ms of its time after at most 255 lost ones finds the loss
  // recoverable, across a turn of the 32-bit clock as well.
  lemma OnTime(xs: seq<Arrival>, n: nat, passed: nat)
    requires 0 < n < |xs| && xs[n - 1].index < xs[n].index && LossBefore(xs, n) <= 255
    requires xs[n].ms == (xs[n - 1].ms + passed) % 0x1_0000_0000
    requires var due := (LossBefore(xs, n) + 1) * 5804 / 1000; due - 60 <= passed <= due + 60
    ensures Recoverable(xs, n)
  {
    var now := xs[n - 1].ms + passed;
    var turns := now / 0x1_0000_0000;
    DivModIs(xs[n].ms - xs[n - 1].ms, 0x1_0000_0000, -turns, passed);
  }

  lemma GapIsLoss(a: nat, b: nat)
    requires a < b
    ensures Gap(SeqOf(a), SeqOf(b)) == (b - a - 1) % 256
  {
    var (qa, ra, qb, rb) := (a / 256, a % 256, b / 256, b % 256);
    if ra == 255 {
      Shifted(rb, b - a - 1, qb - qa - 1);
    } else {
      Shifted(rb - ra - 1, b - a - 1, qb - qa);
    }
  }

  lemma Shifted(x: int, y: int, k: int)
    requires y == x + 256 * k
    ensures x % 256 == y % 256
  {}

  // A loss is filled with exactly its own length just when it is recoverable, and never
  // with more.
  lemma FillsLoss(xs: seq<Arrival>, n: nat)
    requires WellOrdered(xs) && 0 < n < |xs|
    ensures FilledBefore(xs, n) <= LossBefore(xs, n)
    ensures FilledBefore(xs, n) == LossBefore(xs, n) <==> Recoverable(xs, n)
  {
    hide TimeAgrees, RunState, Gap, Elapsed, SeqOf;
    RememberedFrame(xs, n);
    GapIsLoss(xs[n - 1].index, xs[n].index);
    GapFilled(LossBefore(xs, n), Elapsed(xs[n - 1].ms, xs[n].ms));
  }

  lemma GapFilled(loss: nat, elapsed: nat)
    ensures var filled := if TimeAgrees(loss % 256, elapsed) then loss % 256 else 0;
            && filled <= loss
            && var due := (loss + 1) * 5804 / 1000;
               (filled == loss <==> loss == 0 || (loss <= 255 && elapsed <= due + 60 && elapsed + 60 >= due / 2))
  {
    AgreesWhen(loss, elapsed);
    hide TimeAgrees;
  }

  lemma AgreesWhen(gap: nat, elapsed: nat)
    ensures var due := (gap + 1) * 5804 / 1000;
            TimeAgrees(gap, elapsed) <==> elapsed <= due + 60 && elapsed + 60 >= due / 2
  {}

  // The receiver remembers the frame before.
  lemma RememberedFrame(xs: seq<Arrival>, n: nat)
    requires 0 < n <= |xs|
    ensures var rx := RunState(xs, n);
            rx.haveSeq && rx.lastSeq == SeqOf(xs[n - 1].index) && rx.lastMs == xs[n - 1].ms
  {
    hide Good, Prepared, SeqOf;
  }

  // Nothing is filled before the first frame.
  lemma FirstNotFilled(xs: seq<Arrival>)
    requires |xs| > 0
    ensures FilledBefore(xs, 0) == 0
  {}

  lemma NoOutYet(xs: seq<Arrival>)
    ensures RunOut(xs, 0) == []
  {}

  lemma OutStep(xs: seq<Arrival>, n: nat)
    requires WellOrdered(xs) && n < |xs|
    ensures RunOut(xs, n) <= RunOut(xs, n + 1)
    ensures |RunOut(xs, n + 1)| == |RunOut(xs, n)| + FRAME_SAMPLES * (FilledBefore(xs, n) + 1)
  {
    hide Emitted;
  }

  function Slots(xs: seq<Arrival>, n: nat): nat
    requires WellOrdered(xs) && 0 < n <= |xs|
  {
    SlotsOrdered(xs, n);
    xs[n - 1].index - xs[0].index + 1
  }

  lemma {:induction false} SlotsOrdered(xs: seq<Arrival>, n: nat)
    requires WellOrdered(xs) && 0 < n <= |xs|
    ensures xs[0].index <= xs[n - 1].index
  {
    if n > 1 { SlotsOrdered(xs, n - 1); }
  }

  // The encoder never gets more than one slot per sent frame from the first received to the
  // last, and it gets exactly that many if and only if every loss on the way is recoverable.
  lemma {:induction false} OneSlotPerFrame(xs: seq<Arrival>, n: nat)
    requires WellOrdered(xs) && 0 < n <= |xs|
    ensures |RunOut(xs, n)| <= FRAME_SAMPLES * Slots(xs, n)
    ensures |RunOut(xs, n)| == FRAME_SAMPLES * Slots(xs, n)
       <==> forall k :: 0 < k < n ==> Recoverable(xs, k)
  {
    hide Recoverable, RunOut, FilledBefore;
    OutStep(xs, n - 1);
    if n == 1 {
      FirstNotFilled(xs);
      NoOutYet(xs);
    } else {
      OneSlotPerFrame(xs, n - 1);
      FillsLoss(xs, n - 1);
      assert (forall k :: 0 < k < n ==> Recoverable(xs, k))
        <==> (forall k :: 0 < k < n - 1 ==> Recoverable(xs, k)) && Recoverable(xs, n - 1);
    }
  }

  lemma {:induction false} OutPrefix(xs: seq<Arrival>, m: nat, n: nat)
    requires WellOrdered(xs) && m <= n <= |xs|
    ensures RunOut(xs, m) <= RunOut(xs, n)
  {
    hide RunOut, FilledBefore;
    if m < n {
      OutPrefix(xs, m, n - 1);
      OutStep(xs, n - 1);
    }
  }

  // Audio that directly follows the frame before it is not touched at all.
  predicate Untouched(xs: seq<Arrival>, j: nat)
    requires WellOrdered(xs) && j < |xs|
  {
    j == 0 || LossBefore(xs, j) == 0
  }

  // What the encoder gets for arrival j ends in the frame itself; past the first 64 samples
  // it is exactly what was sent, and all of it is when nothing was lost before it.
  lemma FrameAtEnd(xs: seq<Arrival>, j: nat, k: nat)
    requires WellOrdered(xs) && j < |xs| && k < FRAME_SAMPLES
    requires Untouched(xs, j) || k >= XFADE
    ensures var out := RunOut(xs, j + 1);
            |out| >= FRAME_SAMPLES && out[|out| - FRAME_SAMPLES + k] == xs[j].pcm[k]
  {
    hide GoodOut, FillOut, RunOut, RunState, Prepared, Filled, Untouched;
    var rx := RunState(xs, j);
    var x := xs[j];
    var s := Prepared(rx, SeqOf(x.index), x.ms);
    OutShape(xs, j);
    GoodOutAt(s, x.pcm, k);
    if Untouched(xs, j) { NotConcealing(xs, j); }
  }

  lemma OutShape(xs: seq<Arrival>, j: nat)
    requires WellOrdered(xs) && j < |xs|
    ensures var (rx, x) := (RunState(xs, j), xs[j]);
            RunOut(xs, j + 1) == RunOut(xs, j) + FillOut(rx.conceal, Filled(rx, SeqOf(x.index), x.ms))
                                 + GoodOut(Prepared(rx, SeqOf(x.index), x.ms), x.pcm)
  {
    hide GoodOut, FillOut, Prepared, Filled, RunState;
    var (rx, x) := (RunState(xs, j), xs[j]);
    var fill := FillOut(rx.conceal, Filled(rx, SeqOf(x.index), x.ms));
    var good := GoodOut(Prepared(rx, SeqOf(x.index), x.ms), x.pcm);
    assert RunOut(xs, j) + (fill + good) == RunOut(xs, j) + fill + good;
  }

  lemma NotConcealing(xs: seq<Arrival>, j: nat)
    requires WellOrdered(xs) && j < |xs| && Untouched(xs, j)
    ensures !Prepared(RunState(xs, j), SeqOf(xs[j].index), xs[j].ms).concealing
  {
    hide Prepared, RunState;
    BeforeFrame(xs, j);
    if j > 0 { GapIsLoss(xs[j - 1].index, xs[j].index); }
    NothingToFill(RunState(xs, j), SeqOf(xs[j].index), xs[j].ms);
  }

  // Between frames no concealment is under way, and the last frame's number is known.
  lemma BeforeFrame(xs: seq<Arrival>, j: nat)
    requires j <= |xs|
    ensures var rx := RunState(xs, j);
            && !rx.conceal.concealing
            && (if j == 0 then !rx.haveSeq else rx.lastSeq == SeqOf(xs[j - 1].index))
  {
    hide Prepared;
  }

  lemma NothingToFill(rx: Rx, seqNo: SeqNo, now: Millis)
    requires RxOk(rx) && (rx.haveSeq ==> Gap(rx.lastSeq, seqNo) == 0)
    ensures Prepared(rx, seqNo, now) == rx.conceal
  {
    hide Gap, Elapsed, TimeAgrees;
  }

  // Each surviving frame sits in its own slot, unchanged except for the cross-fade after a
  // loss.
  lemma FrameInItsSlot(xs: seq<Arrival>, n: nat, j: nat, k: nat)
    requires WellOrdered(xs) && j < n <= |xs| && k < FRAME_SAMPLES
    requires forall i :: 0 < i < n ==> Recoverable(xs, i)
    requires Untouched(xs, j) || k >= XFADE
    ensures xs[0].index <= xs[j].index
    ensures var at := FRAME_SAMPLES * (xs[j].index - xs[0].index) + k;
            at < |RunOut(xs, n)| && RunOut(xs, n)[at] == xs[j].pcm[k]
  {
    hide Recoverable, RunOut, Untouched;
    SlotsOrdered(xs, j + 1);
    OneSlotPerFrame(xs, j + 1);
    FrameAtEnd(xs, j, k);
    OutPrefix(xs, j + 1, n);
  }
}
