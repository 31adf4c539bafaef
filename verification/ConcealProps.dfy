// What concealment guarantees about the audio.
module ConcealProps {
  import opened ConcealSpec

  const INT32_MAX: int := 0x7FFF_FFFF

  // ---- No overflow

  lemma JoinedBounds(t: Tone)
    requires ToneOk(t)
    ensures -32768 - 65535 <= Joined(t) <= 32767 + 65535
    ensures -INT32_MAX <= t.joinOff * (JOIN - t.joinN) <= INT32_MAX
    ensures -INT32_MAX <= Joined(t) * t.gain <= INT32_MAX
  {
    JoinProduct(t.joinOff, JOIN - t.joinN);
    CDivBetween(t.joinOff * (JOIN - t.joinN), JOIN, -65535, 65535);
    GainProduct(Joined(t), t.gain);
  }

  lemma JoinProduct(off: int, k: int)
    requires -65535 <= off <= 65535 && 0 <= k <= JOIN
    ensures -65535 * JOIN <= off * k <= 65535 * JOIN
  {
    Product(off, 65535, k, JOIN);
  }

  lemma GainProduct(v: int, gain: int)
    requires -98303 <= v <= 98303 && 0 <= gain <= FADE_STEPS
    ensures -98303 * FADE_STEPS <= v * gain <= 98303 * FADE_STEPS
  {
    Product(v, 98303, gain, FADE_STEPS);
  }

  lemma Product(v: int, bound: int, k: int, top: int)
    requires -bound <= v <= bound && 0 <= k <= top
    ensures -bound * top <= v * k <= bound * top
  {
    assert v * k <= bound * k <= bound * top;
    assert v * k >= -bound * k >= -bound * top;
  }

  // Every intermediate value of a cross-fade fits as well.
  lemma MixFits(g: Sample, c: Sample, i: nat, f: nat)
    requires i < f <= XFADE
    ensures -INT32_MAX <= (g as int) * i + (c as int) * (f - i) <= INT32_MAX
  {
    Product(g, 32768, i, XFADE);
    Product(c, 32768, f - i, XFADE);
  }

  // The 64-bit sums of the period search never exceed 2^38.
  lemma {:induction false} DotFits(h: seq<Sample>, a: nat, b: nat, n: nat)
    requires a + n <= |h| && b + n <= |h| && n <= WIN
    ensures -0x4000_0000 * n <= Dot(h, a, b, n) <= 0x4000_0000 * n
  {
    if n > 0 {
      DotFits(h, a, b, n - 1);
      SquareFits(h[a + n - 1], h[b + n - 1]);
    }
  }

  lemma SquareFits(x: Sample, y: Sample)
    ensures -0x4000_0000 <= (x as int) * (y as int) <= 0x4000_0000
  {
    if y >= 0 {
      Product(x, 32768, y, 32768);
    } else {
      Product(x, 32768, -(y as int), 32768);
      assert (x as int) * -(y as int) == -((x as int) * (y as int));
    }
  }

  // ---- The fade

  lemma {:induction false} GainAfter(t: Tone, n: nat)
    requires ToneOk(t)
    ensures After(t, n).decay == t.decay
    ensures After(t, n).gain == if t.gain > n * t.decay then t.gain - n * t.decay else 0
  {
    if n > 0 {
      GainAfter(t, n - 1);
      assert n * t.decay == (n - 1) * t.decay + t.decay;
    }
  }

  lemma SilentAtZeroGain(t: Tone)
    requires ToneOk(t) && t.gain == 0
    ensures NextSample(t) == 0
  {
    assert Joined(t) * t.gain == 0;
  }

  // From 1024 / decay samples on, the fill is exact silence.
  lemma FadesToSilence(t: Tone, n: nat, i: nat)
    requires ToneOk(t) && i < n && i >= FADE_STEPS / t.decay
    ensures Fill(t, n)[i] == 0
  {
    FillAt(t, n, i);
    GainAfter(t, i);
    assert i * t.decay >= FADE_STEPS;
    SilentAtZeroGain(After(t, i));
  }

  // The first replacement sample after a good frame moves away from the last sample by no
  // more than the waveform itself moved one period earlier.
  lemma FirstSampleJoins(s: State, n: nat)
    requires StateOk(s) && !s.concealing && s.tone.gain == FADE_STEPS && n > 0
    ensures var p := Period(s.hist);
            var jump := (LostOut(s, n)[0] as int) - (s.hist[HIST - 1] as int);
            var was := (s.hist[HIST - p] as int) - (s.hist[HIST - p - 1] as int);
            (0 <= jump <= was) || (was <= jump <= 0)
  {
    var t := Restart(s.hist, s.tone);
    FillAt(t, n, 0);
    assert After(t, 0) == t;
    assert t.rep[0] == s.hist[HIST - Period(s.hist)];
    assert Joined(t) == (t.rep[0] as int) + t.joinOff by { WholeJoin(t.joinOff); }
    WholeGain(Joined(t));
  }

  lemma WholeJoin(off: int)
    ensures CDiv(off * (JOIN - 0), JOIN) == off
  {}

  lemma WholeGain(v: int)
    ensures CDiv(v * FADE_STEPS, FADE_STEPS) == v
  {}

  // After an outage the next good frame fades in from exact silence.
  lemma OutageFadesInFromSilence(s: State, pcm: seq<Sample>, i: nat)
    requires StateOk(s) && i < FadeLen(|pcm|)
    ensures Fill(Outage(s).tone, FadeLen(|pcm|))[i] == 0
  {
    var t := Outage(s).tone;
    FillAt(t, FadeLen(|pcm|), i);
    GainAfter(t, i);
    assert i * t.decay >= 0;
    SilentAtZeroGain(After(t, i));
  }

  // ---- The period

  // The chosen lag beats every earlier lag and is beaten by none.
  ghost predicate FirstMaximum(h: seq<Sample>, b: Best, upto: nat)
    requires |h| == HIST && MIN_LAG <= upto <= MAX_LAG + 1
  {
    match b
    case NoMatch => forall k :: MIN_LAG <= k < upto ==> !Matches(h, k)
    case Lag(lag) =>
      && MIN_LAG <= lag < upto
      && Matches(h, lag)
      && (forall k :: MIN_LAG <= k < upto && Matches(h, k) ==> Score(h, k) <= Score(h, lag))
      && (forall k :: MIN_LAG <= k < lag && Matches(h, k) ==> Score(h, k) < Score(h, lag))
  }

  lemma {:induction false} BestIsFirstMaximum(h: seq<Sample>, upto: nat)
    requires |h| == HIST && MIN_LAG <= upto <= MAX_LAG + 1
    ensures FirstMaximum(h, BestBelow(h, upto), upto)
  {
    hide Score, Matches;
    if upto > MIN_LAG { BestIsFirstMaximum(h, upto - 1); }
  }

  // ---- Looping over the period

  lemma {:induction false} FillSplit(t: Tone, m: nat, n: nat)
    requires ToneOk(t)
    ensures After(After(t, m), n) == After(t, m + n)
    ensures Fill(t, m + n) == Fill(t, m) + Fill(After(t, m), n)
  {
    hide NextTone, NextSample;
    if n > 0 { FillSplit(t, m, n - 1); }
  }

  lemma {:induction false} LoopState(h: seq<Sample>, t: Tone, n: nat)
    requires |h| == HIST && ToneOk(t)
    ensures var r, u := Restart(h, t), After(Restart(h, t), n);
            && u.rep == r.rep && u.period == r.period && u.joinOff == r.joinOff
            && u.joinN == if u.pos < JOIN then u.pos else JOIN
  {
    hide Period, BestCorr, Frozen;
    if n > 0 { LoopState(h, t, n - 1); }
  }

  // How far the unfaded waveform moves when the fill starts the period over, however often it
  // does: as far as the history moved one period back, less the rest of the offset that a period
  // of JOIN samples has not yet worked off. So it moves as the history did exactly when the
  // period is longer, or the offset too small to leave a rest.
  lemma LoopJoins(h: seq<Sample>, t: Tone, n: nat)
    requires |h| == HIST && ToneOk(t) && n > 0
    requires After(Restart(h, t), n).pos == 0
    ensures var r, p := Restart(h, t), Period(h);
            var moved := Joined(After(r, n)) - Joined(After(r, n - 1));
            var was := (h[HIST - p] as int) - (h[HIST - p - 1] as int);
            var off := (h[HIST - 1] as int) - (h[HIST - p - 1] as int);
            && moved == was - (if p == JOIN then CDiv(off, JOIN) else 0)
            && (moved == was <==> p > JOIN || -(JOIN as int) < off < JOIN)
  {
    var r := Restart(h, t);
    LoopState(h, t, n);
    LoopState(h, t, n - 1);
    var u := After(r, n - 1);
    assert u.pos == u.period - 1 && u.joinN == if u.period > JOIN then JOIN else JOIN - 1;
    assert r.rep[0] == h[HIST - r.period] && r.rep[r.period - 1] == h[HIST - 1];
    WholeJoin(r.joinOff);
    RestOfOffset(r.joinOff);
  }

  lemma RestOfOffset(off: int)
    ensures CDiv(off, JOIN) == 0 <==> -(JOIN as int) < off < JOIN
  {}

  // Two clicks 32 samples apart, the newer one at the end.
  function Clicks(): (h: seq<Sample>)
    ensures |h| == HIST && h[991] == 1000 && h[1023] == 100
    ensures forall i :: 0 <= i < HIST && i != 991 && i != 1023 ==> h[i] == 0
  {
    Zeros(HIST)[991 := 1000][1023 := 100]
  }

  lemma {:induction false} DotOfZeros(h: seq<Sample>, a: nat, b: nat, n: nat)
    requires a + n <= |h| && b + n <= |h|
    requires forall i :: a <= i < a + n ==> h[i] == 0 || h[i - a + b] == 0
    ensures Dot(h, a, b, n) == 0
  {
    if n > 0 {
      DotOfZeros(h, a, b, n - 1);
    }
  }

  // The clicks match each other one period of JOIN samples apart, and nothing else matches.
  lemma ClicksMatch(lag: nat)
    requires MIN_LAG <= lag <= MAX_LAG
    ensures Matches(Clicks(), lag) <==> lag == JOIN
  {
    var h := Clicks();
    var a := HIST - WIN;
    if lag == JOIN {
      DotOfZeros(h, a, a - lag, WIN - 1);
      assert Cross(h, lag) == 100 * 1000;
      DotSelf(h, a - lag, WIN - 1);
      assert Energy(h, lag) >= 1000 * 1000;
    } else {
      DotOfZeros(h, a, a - lag, WIN);
    }
  }

  // A period of JOIN samples at which the loop does not join as it should: the history moved by
  // -1000 there, the fill moves by -972.
  lemma ShortLoopMisses(t: Tone)
    requires ToneOk(t)
    ensures var h, r := Clicks(), Restart(Clicks(), t);
            && Period(h) == JOIN && After(r, JOIN).pos == 0
            && (h[HIST - JOIN] as int) - (h[HIST - JOIN - 1] as int) == -1000
            && Joined(After(r, JOIN)) - Joined(After(r, JOIN - 1)) == -972
  {
    var h := Clicks();
    BestIsFirstMaximum(h, MAX_LAG + 1);
    forall k | MIN_LAG <= k <= MAX_LAG ensures Matches(h, k) <==> k == JOIN { ClicksMatch(k); }
    assert Matches(h, JOIN);
    PosAfter(h, t, JOIN);
    LoopJoins(h, t, JOIN);
  }

  lemma {:induction false} PosAfter(h: seq<Sample>, t: Tone, n: nat)
    requires |h| == HIST && ToneOk(t) && n <= Period(h)
    ensures After(Restart(h, t), n).pos == if n < Period(h) then n else 0
    ensures After(Restart(h, t), n).period == Period(h)
  {
    hide Period, BestCorr, Frozen;
    if n > 0 { PosAfter(h, t, n - 1); }
  }

  // ---- The history

  // The last HIST samples of everything heard, zeros before the start.
  function LastHeard(heard: seq<Sample>): (h: seq<Sample>)
    ensures |h| == HIST
  {
    (Zeros(HIST) + heard)[|heard|..]
  }

  lemma HistoryFollows(heard: seq<Sample>, xs: seq<Sample>)
    ensures Push(LastHeard(heard), xs) == LastHeard(heard + xs)
  {
    assert Zeros(HIST) + (heard + xs) == Zeros(HIST) + heard + xs;
  }

  // What goes in is what comes out from sample 64 on, and all of it when nothing was lost.
  lemma {:induction false} MixedToAt(g: seq<Sample>, c: seq<Sample>, f: nat, n: nat, i: nat)
    requires i < n <= f <= XFADE && f <= |g| && f <= |c|
    ensures MixedTo(g, c, f, n)[i] == Mix(g[i], c[i], i, f)
  {
    if i < n - 1 { MixedToAt(g, c, f, n - 1, i); }
  }

  lemma GoodOutAt(s: State, pcm: seq<Sample>, i: nat)
    requires StateOk(s) && i < |pcm|
    ensures !s.concealing || i >= XFADE ==> GoodOut(s, pcm)[i] == pcm[i]
    ensures s.concealing && i < FadeLen(|pcm|) ==>
      var c := Fill(s.tone, FadeLen(|pcm|))[i];
      (pcm[i] <= GoodOut(s, pcm)[i] <= c) || (c <= GoodOut(s, pcm)[i] <= pcm[i])
  {
    if s.concealing && i < FadeLen(|pcm|) {
      MixedToAt(pcm, Fill(s.tone, FadeLen(|pcm|)), FadeLen(|pcm|), FadeLen(|pcm|), i);
    }
  }
}
