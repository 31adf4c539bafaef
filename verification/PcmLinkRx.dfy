// The receiver's audio side: frames that passed their check go to the encoder, missing ones
// are replaced.
module PcmLinkRx {
  import opened Bytes
  import opened Clock
  import opened ConcealSpec
  import opened ConcealProps
  import opened LinkRxSpec
  import opened PcmConceal

  const FRAME_BYTES: nat := 2 * FRAME_SAMPLES

  // Loss runs of 1, 2, 3-4, 5-8 and 9-16 frames.
  function RunClass(gap: nat): (k: nat)
    requires 0 < gap
    ensures k < 5
  {
    if gap == 1 then 0 else if gap == 2 then 1 else if gap <= 4 then 2 else if gap <= 8 then 3 else 4
  }

  // Short gaps count as concealed frames, longer ones as silence.
  function Concealed(gap: nat): nat { if gap <= MAX_GAP_FRAMES then gap else 0 }

  function RunsAfter(was: seq<nat>, gap: nat): seq<nat>
    requires |was| == 5
  {
    if 0 < gap <= MAX_GAP_FRAMES then was[RunClass(gap) := was[RunClass(gap)] + 1] else was
  }

  // The tallies of runs fit the frames lost in all: a run of each class is that long.
  ghost predicate Tallied(runs: seq<nat>, lost: nat)
  {
    && |runs| == 5
    && runs[0] + 2 * runs[1] + 3 * runs[2] + 5 * runs[3] + 9 * runs[4] <= lost
    && lost <= runs[0] + 2 * runs[1] + 4 * runs[2] + 8 * runs[3] + 16 * runs[4]
  }

  // A gap of up to 16 frames is counted frame by frame and as one run, of its class; a longer one
  // counts as neither.
  lemma GapTallied(runs: seq<nat>, lost: nat, gap: nat)
    requires Tallied(runs, lost)
    ensures var (runs', lost') := (RunsAfter(runs, gap), lost + Concealed(gap));
            && Tallied(runs', lost')
            && (if 0 < gap <= 16
                then lost' == lost + gap
                     && runs'[0] + runs'[1] + runs'[2] + runs'[3] + runs'[4]
                        == runs[0] + runs[1] + runs[2] + runs[3] + runs[4] + 1
                else lost' == lost && runs' == runs)
  {
    hide RunClass;
    if 0 < gap <= 16 { ClassHolds(gap); }
  }

  lemma ClassHolds(gap: nat)
    requires 0 < gap <= 16
    ensures [1, 2, 3, 5, 9][RunClass(gap)] <= gap <= [1, 2, 4, 8, 16][RunClass(gap)]
  {}

  class LinkRx {
    const conceal: Conceal
    const fill: array<Byte>
    const runs: array<nat>
    var lastSeq: SeqNo
    var lastMs: Millis
    var haveSeq: bool
    var crcBad: nat
    var lostFrames: nat
    var outages: nat
    var silenceFrames: nat
    var lastGap: nat
    // Everything the encoder has been given.
    ghost var heard: seq<Sample>

    ghost function Parts(): set<object>
      reads this
    {
      {this, conceal, conceal.hist, conceal.rep, fill, runs}
    }

    ghost predicate Valid()
      reads this, conceal, conceal.hist, conceal.rep
    {
      && conceal.Valid()
      && fill.Length == FRAME_BYTES
      && runs.Length == 5
      && conceal.hist[..] == LastHeard(heard)
    }

    ghost function View(): Rx
      reads this, conceal, conceal.hist, conceal.rep
    {
      Rx(conceal.View(), haveSeq, lastSeq, lastMs)
    }

    constructor ()
      ensures Valid() && View() == Start() && heard == []
      ensures fresh(Parts())
    {
      conceal := new Conceal();
      fill := new Byte[FRAME_BYTES](i => 0);
      runs := new nat[5](i => 0);
      lastSeq, lastMs, haveSeq := 0, 0, false;
      crcBad, lostFrames, outages, silenceFrames, lastGap := 0, 0, 0, 0, 0;
      heard := [];
      new;
      assert LastHeard([]) == Zeros(HIST);
    }

    method OnCrcBad()
      requires Valid()
      modifies this`crcBad
      ensures Valid() && crcBad == old(crcBad) + 1 && View() == old(View())
    {
      crcBad := crcBad + 1;
    }

    // One frame of replacement to the encoder.
    method FillOne() returns (out: seq<Byte>)
      requires Valid()
      modifies conceal, conceal.hist, conceal.rep, fill, this`heard
      ensures Valid() && |out| == FRAME_BYTES
      ensures var (s, xs) := (old(conceal.View()), SampleList(out));
              && StateOk(s) && conceal.View() == Lost(s, FRAME_SAMPLES)
              && xs == LostOut(s, FRAME_SAMPLES) && heard == old(heard) + xs
    {
      hide Push, LastHeard;
      ghost var s := conceal.View();
      conceal.Lost(fill, FRAME_SAMPLES);
      out := fill[..];
      assert fill[..FRAME_BYTES] == fill[..];
      heard := heard + SampleList(out);
      HistoryFollows(old(heard), SampleList(out));
    }

    // `gap` frames of replacement.
    method FillGap(gap: nat) returns (out: seq<Byte>)
      requires Valid()
      modifies conceal, conceal.hist, conceal.rep, fill, this`heard
      ensures Valid() && |out| % 2 == 0
      ensures conceal.View() == FillState(old(conceal.View()), gap)
      ensures SampleList(out) == FillOut(old(conceal.View()), gap)
      ensures heard == old(heard) + SampleList(out)
    {
      hide Lost, LostOut, SampleList, LastHeard;
      ghost var s := conceal.View();
      out := [];
      SampleListEmpty();
      for f := 0 to gap
        invariant Valid() && |out| % 2 == 0
        invariant conceal.View() == FillState(s, f)
        invariant SampleList(out) == FillOut(s, f)
        invariant heard == old(heard) + SampleList(out)
      {
        var one := FillOne();
        SampleListJoin(out, one);
        out := out + one;
      }
    }

    // What a sequence gap calls for before the received frame: fill, or an outage.
    method CloseGap(seqNo: SeqNo, nowMs: Millis) returns (out: seq<Byte>)
      requires Valid()
      modifies conceal, conceal.hist, conceal.rep, fill, runs, this`heard,
               this`lostFrames, this`outages, this`silenceFrames
      ensures Valid() && |out| % 2 == 0
      ensures conceal.View() == Prepared(old(View()), seqNo, nowMs)
      ensures SampleList(out) == FillOut(old(conceal.View()), Filled(old(View()), seqNo, nowMs))
      ensures heard == old(heard) + SampleList(out)
      ensures lostFrames == old(lostFrames) + Concealed(Filled(old(View()), seqNo, nowMs))
      ensures silenceFrames == old(silenceFrames) + Filled(old(View()), seqNo, nowMs)
                             - Concealed(Filled(old(View()), seqNo, nowMs))
      ensures outages == old(outages) + if IsOutage(old(View()), seqNo, nowMs) then 1 else 0
      ensures runs[..] == RunsAfter(old(runs[..]), Filled(old(View()), seqNo, nowMs))
    {
      hide FillState, FillOut, SampleList, LastHeard, TimeAgrees;
      FillNone(conceal.View());
      SampleListEmpty();
      var gap := Gap(lastSeq, seqNo);
      out := [];
      if haveSeq {
        var agrees := TimeAgrees(gap, Elapsed(lastMs, nowMs));
        if gap > MAX_GAP_FRAMES && agrees {
          out := FillGap(gap);
          silenceFrames := silenceFrames + gap;
        } else if gap > 0 && !agrees {
          outages := outages + 1;
          conceal.Outage();
        } else if gap > 0 {
          out := FillGap(gap);
          lostFrames := lostFrames + gap;
          runs[RunClass(gap)] := runs[RunClass(gap)] + 1;
        }
      }
    }

    // The received frame itself, edited in place.
    method Play(pcm: array<Byte>, len: nat)
      requires Valid() && len % 2 == 0 && len <= pcm.Length && pcm != fill
      modifies conceal, conceal.hist, pcm, this`heard
      ensures Valid()
      ensures conceal.View() == Good(old(conceal.View()), old(SampleList(pcm[..len])))
      ensures SampleList(pcm[..len]) == GoodOut(old(conceal.View()), old(SampleList(pcm[..len])))
      ensures heard == old(heard) + SampleList(pcm[..len])
      ensures pcm[2 * FadeLen(len / 2)..] == old(pcm[2 * FadeLen(len / 2)..])
    {
      hide GoodOut, SampleList, LastHeard, Push;
      assert 2 * (len / 2) == len;
      ghost var was := conceal.hist[..];
      conceal.Good(pcm, len / 2);
      HistoryFollows(heard, SampleList(pcm[..len]));
      heard := heard + SampleList(pcm[..len]);
    }

    // A frame that passed its check. The result is what the encoder gets, in order.
    method Receive(seqNo: SeqNo, pcm: array<Byte>, len: nat, nowMs: Millis) returns (out: seq<Byte>)
      requires Valid() && len % 2 == 0 && len <= pcm.Length && pcm != fill
      modifies Parts(), pcm
      ensures Valid()
      ensures View() == OnGood(old(View()), seqNo, nowMs, old(SampleList(pcm[..len])))
      ensures |out| % 2 == 0
      ensures SampleList(out) == Emitted(old(View()), seqNo, nowMs, old(SampleList(pcm[..len])))
      ensures heard == old(heard) + SampleList(out)
      ensures lastGap == if old(haveSeq) then Gap(old(lastSeq), seqNo) else 0
      ensures |out| >= len && out[|out| - len..] == pcm[..len]
      ensures pcm[2 * FadeLen(len / 2)..] == old(pcm[2 * FadeLen(len / 2)..])
      ensures lostFrames == old(lostFrames) + Concealed(Filled(old(View()), seqNo, nowMs))
      ensures silenceFrames == old(silenceFrames) + Filled(old(View()), seqNo, nowMs)
                             - Concealed(Filled(old(View()), seqNo, nowMs))
      ensures outages == old(outages) + if IsOutage(old(View()), seqNo, nowMs) then 1 else 0
      ensures runs[..] == RunsAfter(old(runs[..]), Filled(old(View()), seqNo, nowMs))
    {
      hide RunsAfter, Concealed, Prepared, FillOut, GoodOut, SampleList, LastHeard, Filled, IsOutage, Good;
      var filler := CloseGap(seqNo, nowMs);
      lastGap := if haveSeq then Gap(lastSeq, seqNo) else 0;
      Play(pcm, len);
      SampleListJoin(filler, pcm[..len]);
      out := filler + pcm[..len];
      lastSeq := seqNo;
      lastMs := nowMs;
      haveSeq := true;
    }
  }

  lemma FillNone(s: State)
    requires StateOk(s)
    ensures FillState(s, 0) == s && FillOut(s, 0) == []
  {}

  lemma SampleListJoin(a: seq<Byte>, b: seq<Byte>)
    requires |a| % 2 == 0 && |b| % 2 == 0
    ensures SampleList(a + b) == SampleList(a) + SampleList(b)
  {
    hide SampleList;
    SampleListSplit(a + b, |a| / 2);
    assert (a + b)[..|a|] == a && (a + b)[|a|..] == b;
  }
}
