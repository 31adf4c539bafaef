// What the encoder hears around a loss, in terms of the samples it was given before.
module LinkRxLaw {
  import opened Clock
  import opened ConcealSpec
  import opened ConcealProps
  import opened ConcealLaw
  import opened LinkRxSpec
  import opened LinkRxRun

  // The last 1024 samples given, with silence before the first.
  function Past(out: seq<Sample>): (h: seq<Sample>)
    ensures |h| == 1024
  {
    seq(1024, j requires 0 <= j < 1024 => if |out| + j >= 1024 then out[|out| + j - 1024] else 0)
  }

  lemma PastIsLastHeard(out: seq<Sample>)
    ensures LastHeard(out) == Past(out)
  {
    assert LastHeard(out) == Past(out);
  }

  // ---- Several frames of replacement are one loss

  lemma PushTwice(h: seq<Sample>, a: seq<Sample>, b: seq<Sample>)
    ensures Push(Push(h, a), b) == Push(h, a + b)
  {
    assert h + (a + b) == h + a + b;
  }

  lemma LostTwice(s: State, m: nat, n: nat)
    requires StateOk(s)
    ensures Lost(Lost(s, m), n) == Lost(s, m + n)
  {
    LossGoesOn(s, m, n);
    PushTwice(s.hist, LostOut(s, m), LostOut(Lost(s, m), n));
    FillSplit(Continued(s), m, n);
    hide Fill, Restart, Push, NextTone;
  }

  lemma {:induction false} OneLoss(s: State, gap: nat)
    requires StateOk(s) && gap > 0
    ensures FillState(s, gap) == Lost(s, 256 * gap) && FillOut(s, gap) == LostOut(s, 256 * gap)
  {
    hide Lost, LostOut;
    if gap > 1 {
      OneLoss(s, gap - 1);
      LostTwice(s, 256 * (gap - 1), 256);
      LossGoesOn(s, 256 * (gap - 1), 256);
    } else {
      FirstFill(s);
    }
  }

  lemma FirstFill(s: State)
    requires StateOk(s)
    ensures FillState(s, 1) == Lost(s, 256) && FillOut(s, 1) == LostOut(s, 256)
  {
    hide Lost, LostOut;
    assert FillState(s, 0) == s && FillOut(s, 0) == [];
  }

  // ---- The history is what the encoder was given

  lemma {:induction false} FillPushed(s: State, gap: nat)
    requires StateOk(s)
    ensures FillState(s, gap).hist == Push(s.hist, FillOut(s, gap))
  {
    hide Fill, Continued, After;
    if gap > 0 {
      FillPushed(s, gap - 1);
      PushTwice(s.hist, FillOut(s, gap - 1), LostOut(FillState(s, gap - 1), 256));
    }
  }

  lemma {:induction false} HistoryGiven(xs: seq<Arrival>, n: nat)
    requires n <= |xs|
    ensures RunState(xs, n).conceal.hist == Past(RunOut(xs, n))
  {
    hide Past, OnGood, Emitted;
    if n == 0 {
      NothingGiven();
    } else {
      HistoryGiven(xs, n - 1);
      GivenOnce(RunState(xs, n - 1), SeqOf(xs[n - 1].index), xs[n - 1].ms, xs[n - 1].pcm, RunOut(xs, n - 1));
    }
  }

  lemma NothingGiven()
    ensures Start().conceal.hist == Past([])
  {}

  lemma GivenOnce(rx: Rx, seqNo: SeqNo, now: Millis, pcm: seq<Sample>, out: seq<Sample>)
    requires RxOk(rx) && rx.conceal.hist == Past(out)
    ensures OnGood(rx, seqNo, now, pcm).conceal.hist == Past(out + Emitted(rx, seqNo, now, pcm))
  {
    hide Emitted, OnGood, Past, LastHeard, Push;
    var e := Emitted(rx, seqNo, now, pcm);
    Received(rx, seqNo, now, pcm);
    PastIsLastHeard(out);
    PastIsLastHeard(out + e);
    HistoryFollows(out, e);
  }

  lemma Received(rx: Rx, seqNo: SeqNo, now: Millis, pcm: seq<Sample>)
    requires RxOk(rx)
    ensures OnGood(rx, seqNo, now, pcm).conceal.hist == Push(rx.conceal.hist, Emitted(rx, seqNo, now, pcm))
  {
    hide FillState, FillOut, GoodOut, TimeAgrees, Gap, Elapsed, Push;
    var g := Filled(rx, seqNo, now);
    FillPushed(rx.conceal, g);
    NoFill(rx.conceal);
    PushTwice(rx.conceal.hist, FillOut(rx.conceal, g), GoodOut(Prepared(rx, seqNo, now), pcm));
    assert IsOutage(rx, seqNo, now) ==> g == 0;
    assert Prepared(rx, seqNo, now).hist == Push(rx.conceal.hist, FillOut(rx.conceal, g)) by {
      if IsOutage(rx, seqNo, now) { NothingPushed(rx.conceal.hist); }
    }
  }

  lemma NoFill(s: State)
    requires StateOk(s)
    ensures FillOut(s, 0) == []
  {}

  lemma NothingPushed(h: seq<Sample>)
    ensures Push(h, []) == h
  {
    assert h + [] == h;
  }

  // ---- Around a loss

  // The concealer after a frame: no fill under way, and the full gain for the next.
  lemma Settled(xs: seq<Arrival>, n: nat)
    requires 0 < n <= |xs|
    ensures var s := RunState(xs, n).conceal; StateOk(s) && !s.concealing && s.tone.gain == 1024
  {
    hide Prepared, GoodOut, After;
  }

  lemma FilledHere(xs: seq<Arrival>, n: nat)
    requires WellOrdered(xs) && 0 < n < |xs| && LossBefore(xs, n) > 0 && Recoverable(xs, n)
    ensures var (rx, x, loss) := (RunState(xs, n), xs[n], LossBefore(xs, n));
            && Filled(rx, SeqOf(x.index), x.ms) == loss
            && Prepared(rx, SeqOf(x.index), x.ms) == Lost(rx.conceal, 256 * loss)
            && FillOut(rx.conceal, loss) == LostOut(rx.conceal, 256 * loss)
  {
    hide Recoverable, Lost, LostOut, RunState, FillState, FillOut, SeqOf, Gap, TimeAgrees, Elapsed;
    FillsLoss(xs, n);
    OneLoss(RunState(xs, n).conceal, LossBefore(xs, n));
  }

  // In place of the frames of a recoverable loss the encoder hears the period found in the last
  // 1024 samples it was given, over and over, joined and fading, without a seam between frames.
  lemma LossSounds(xs: seq<Arrival>, n: nat, i: nat)
    requires WellOrdered(xs) && 0 < n < |xs| && Recoverable(xs, n) && i < 256 * LossBefore(xs, n)
    ensures var out := RunOut(xs, n);
            var h := Past(out);
            var p, decay := Period(h), Restart(h, RunState(xs, n).conceal.tone).decay;
            && |out| + i < |RunOut(xs, n + 1)|
            && RunOut(xs, n + 1)[|out| + i]
               == Clipped(CDiv(((h[1024 - p + i % p] as int) + Rest(h, p, i % p)) * Faded(i, decay), 1024))
  {
    hide Recoverable, RunOut, RunState, Restart, Period, Past, LostOut, FillOut, Lost, Prepared, GoodOut;
    FilledHere(xs, n);
    OutShape(xs, n);
    HistoryGiven(xs, n);
    Settled(xs, n);
    FillLaw(RunState(xs, n).conceal, 256 * LossBefore(xs, n), i);
  }

  // The frame after it is faded in, over its first 64 samples, over that same fill going on.
  lemma FrameAfterLoss(xs: seq<Arrival>, n: nat, i: nat)
    requires WellOrdered(xs) && 0 < n < |xs| && Recoverable(xs, n) && LossBefore(xs, n) > 0 && i < 64
    ensures var out, loss := RunOut(xs, n), LossBefore(xs, n);
            var h := Past(out);
            var p, decay, k := Period(h), Restart(h, RunState(xs, n).conceal.tone).decay, 256 * loss + i;
            var fill := Clipped(CDiv(((h[1024 - p + k % p] as int) + Rest(h, p, k % p)) * Faded(k, decay), 1024));
            && |out| + k < |RunOut(xs, n + 1)|
            && RunOut(xs, n + 1)[|out| + k] == CDiv((xs[n].pcm[i] as int) * i + fill * (64 - i), 64)
  {
    hide Recoverable, RunOut, RunState, Restart, Period, Past, LostOut, FillOut, Lost, Prepared, GoodOut;
    FilledHere(xs, n);
    OutShape(xs, n);
    HistoryGiven(xs, n);
    Settled(xs, n);
    var s, m := RunState(xs, n).conceal, 256 * LossBefore(xs, n);
    FillLaw(s, m + 64, m + i);
    CrossFadeLaw(s, m, xs[n].pcm, i);
  }

  // When the time that passed does not fit the frames that seem to be missing, nothing is put in
  // their place, and the frame is faded in over silence.
  lemma FrameAfterOutage(xs: seq<Arrival>, n: nat, i: nat)
    requires WellOrdered(xs) && 0 < n < |xs| && i < 256
    requires var gap, passed := LossBefore(xs, n) % 256, Elapsed(xs[n - 1].ms, xs[n].ms);
             var due := (gap + 1) * 5804 / 1000;
             gap > 0 && (passed > due + 60 || passed + 60 < due / 2)
    ensures var out := RunOut(xs, n);
            && |RunOut(xs, n + 1)| == |out| + 256
            && RunOut(xs, n + 1)[|out| + i] == if i < 64 then CDiv((xs[n].pcm[i] as int) * i, 64) else xs[n].pcm[i]
  {
    hide RunOut, RunState, FillOut, GoodOut, SeqOf, Gap, Elapsed;
    OutShape(xs, n);
    RememberedFrame(xs, n);
    GapIsLoss(xs[n - 1].index, xs[n].index);
    NoFill(RunState(xs, n).conceal);
    OutageLaw(RunState(xs, n).conceal, xs[n].pcm, i);
  }
}
