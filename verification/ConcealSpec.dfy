// Packet-loss concealment on values: the repeated period, its fade, the cross-fade into the
// next good frame, and the history it is all based on.
module ConcealSpec {
  type Sample = x: int | -32768 <= x <= 32767

  const HIST: nat := 1024
  const XFADE: nat := 64
  const FADE_STEPS: int := 1024
  const FAST_FADE: int := 128
  const JOIN: nat := 32
  const WIN: nat := 256
  const MIN_LAG: nat := 32
  const MAX_LAG: nat := HIST - WIN

  // Division as C does it: toward zero.
  function CDiv(a: int, b: int): int
    requires b > 0
  {
    if a >= 0 then a / b else -((-a) / b)
  }

  // ---- The continuation being played

  datatype Tone = Tone(rep: seq<Sample>, period: nat, pos: nat, joinOff: int, joinN: nat, decay: int, gain: int)

  predicate ToneOk(t: Tone)
  {
    && |t.rep| == HIST
    && MIN_LAG <= t.period <= MAX_LAG
    && t.pos < t.period
    && -65535 <= t.joinOff <= 65535
    && t.joinN <= JOIN
    && (t.decay == 1 || t.decay == FADE_STEPS / FAST_FADE)
    && 0 <= t.gain <= FADE_STEPS
  }

  function Joined(t: Tone): int
    requires ToneOk(t)
  {
    if t.joinN < JOIN then (t.rep[t.pos] as int) + CDiv(t.joinOff * (JOIN - t.joinN), JOIN) else t.rep[t.pos]
  }

  function Clamp(v: int): Sample
  {
    if v > 32767 then 32767 else if v < -32768 then -32768 else v
  }

  function NextSample(t: Tone): Sample
    requires ToneOk(t)
  {
    Clamp(CDiv(Joined(t) * t.gain, FADE_STEPS))
  }

  function NextTone(t: Tone): (r: Tone)
    requires ToneOk(t)
    ensures ToneOk(r)
  {
    var gain := if t.gain > t.decay then t.gain - t.decay else 0;
    if t.pos + 1 >= t.period then t.(gain := gain, pos := 0, joinN := 0)
    else t.(gain := gain, pos := t.pos + 1, joinN := if t.joinN < JOIN then t.joinN + 1 else t.joinN)
  }

  // The tone after n samples, and those samples.
  function After(t: Tone, n: nat): (r: Tone)
    requires ToneOk(t)
    ensures ToneOk(r)
  {
    if n == 0 then t else NextTone(After(t, n - 1))
  }

  function Fill(t: Tone, n: nat): (s: seq<Sample>)
    requires ToneOk(t)
    ensures |s| == n
  {
    if n == 0 then [] else Fill(t, n - 1) + [NextSample(After(t, n - 1))]
  }

  lemma {:induction false} FillAt(t: Tone, n: nat, i: nat)
    requires ToneOk(t) && i < n
    ensures Fill(t, n)[i] == NextSample(After(t, i))
  {
    hide NextTone, NextSample;
    if i < n - 1 { FillAt(t, n - 1, i); }
  }

  // ---- Finding the period

  function Dot(h: seq<Sample>, a: nat, b: nat, n: nat): int
    requires a + n <= |h| && b + n <= |h|
  {
    if n == 0 then 0 else Dot(h, a, b, n - 1) + (h[a + n - 1] as int) * (h[b + n - 1] as int)
  }

  lemma {:induction false} DotSelf(h: seq<Sample>, a: nat, n: nat)
    requires a + n <= |h|
    ensures Dot(h, a, a, n) >= 0
  {
    if n > 0 { DotSelf(h, a, n - 1); }
  }

  // The newest window against itself and against the window `lag` earlier.
  function Energy(h: seq<Sample>, lag: nat): int
    requires |h| == HIST && lag <= MAX_LAG
  {
    Dot(h, HIST - WIN - lag, HIST - WIN - lag, WIN)
  }

  function Cross(h: seq<Sample>, lag: nat): int
    requires |h| == HIST && lag <= MAX_LAG
  {
    Dot(h, HIST - WIN, HIST - WIN - lag, WIN)
  }

  predicate Matches(h: seq<Sample>, lag: nat)
    requires |h| == HIST && lag <= MAX_LAG
  {
    Cross(h, lag) > 0 && Energy(h, lag) != 0
  }

  function Score(h: seq<Sample>, lag: nat): real
    requires |h| == HIST && lag <= MAX_LAG && Matches(h, lag)
  {
    (Cross(h, lag) as real) * (Cross(h, lag) as real) / (Energy(h, lag) as real)
  }

  datatype Best = NoMatch | Lag(lag: nat)

  // The best of the lags MIN_LAG .. upto - 1; on a tie the first.
  function BestBelow(h: seq<Sample>, upto: nat): (b: Best)
    requires |h| == HIST && MIN_LAG <= upto <= MAX_LAG + 1
    ensures b.Lag? ==> MIN_LAG <= b.lag < upto && Matches(h, b.lag)
  {
    if upto == MIN_LAG then NoMatch
    else
      var b := BestBelow(h, upto - 1);
      if !Matches(h, upto - 1) then b
      else if b.NoMatch? || Score(h, upto - 1) > Score(h, b.lag) then Lag(upto - 1)
      else b
  }

  function BestLag(h: seq<Sample>): Best
    requires |h| == HIST
  {
    BestBelow(h, MAX_LAG + 1)
  }

  // Normalised correlation at the best lag, squared; 0 when nothing matches.
  function BestCorr(h: seq<Sample>): real
    requires |h| == HIST
  {
    match BestLag(h)
    case NoMatch => 0.0
    case Lag(lag) => Normalised(h, lag)
  }

  function Normalised(h: seq<Sample>, lag: nat): real
    requires |h| == HIST && lag <= MAX_LAG && Matches(h, lag)
  {
    if Energy(h, 0) == 0 then 0.0 else Score(h, lag) / (Energy(h, 0) as real)
  }

  function Period(h: seq<Sample>): (p: nat)
    requires |h| == HIST
    ensures MIN_LAG <= p <= MAX_LAG
  {
    match BestLag(h) case NoMatch => MAX_LAG case Lag(lag) => lag
  }

  // The frozen copy of the last `period` samples, over what the buffer held before.
  function Frozen(h: seq<Sample>, was: seq<Sample>, period: nat): (rep: seq<Sample>)
    requires |h| == HIST && |was| == HIST && period <= HIST
    ensures |rep| == HIST
  {
    h[HIST - period..] + was[period..]
  }

  function Restart(h: seq<Sample>, t: Tone): (r: Tone)
    requires |h| == HIST && ToneOk(t)
    ensures ToneOk(r) && r.gain == t.gain
  {
    var p := Period(h);
    Tone(Frozen(h, t.rep, p), p, 0, (h[HIST - 1] as int) - (h[HIST - p - 1] as int), 0,
         if BestCorr(h) >= 0.36 then 1 else FADE_STEPS / FAST_FADE, t.gain)
  }

  // ---- The concealer

  datatype State = State(hist: seq<Sample>, tone: Tone, concealing: bool)

  predicate StateOk(s: State)
  {
    |s.hist| == HIST && ToneOk(s.tone)
  }

  function Zeros(n: nat): (z: seq<Sample>)
    ensures |z| == n && forall i :: 0 <= i < n ==> z[i] == 0
  {
    if n == 0 then [] else Zeros(n - 1) + [0]
  }

  function Initial(): (s: State)
    ensures StateOk(s)
  {
    State(Zeros(HIST), Tone(Zeros(HIST), MAX_LAG, 0, 0, JOIN, 1, 0), false)
  }

  // Shifts samples into the history.
  function Push(hist: seq<Sample>, xs: seq<Sample>): (r: seq<Sample>)
    ensures |r| == |hist|
  {
    (hist + xs)[|xs|..]
  }

  function Continued(s: State): (t: Tone)
    requires StateOk(s)
    ensures ToneOk(t)
  {
    if s.concealing then s.tone else Restart(s.hist, s.tone)
  }

  function LostOut(s: State, n: nat): (out: seq<Sample>)
    requires StateOk(s)
    ensures |out| == n
  {
    Fill(Continued(s), n)
  }

  function Lost(s: State, n: nat): (r: State)
    requires StateOk(s)
    ensures StateOk(r)
  {
    State(Push(s.hist, LostOut(s, n)), After(Continued(s), n), true)
  }

  function Outage(s: State): (r: State)
    requires StateOk(s)
    ensures StateOk(r)
  {
    State(s.hist, s.tone.(gain := 0), true)
  }

  function FadeLen(n: nat): nat { if n < XFADE then n else XFADE }

  function Mix(g: Sample, c: Sample, i: nat, f: nat): (v: Sample)
    requires i < f <= XFADE
    ensures (g <= v <= c) || (c <= v <= g)
  {
    MixBetween(g, c, i, f);
    CDiv((g as int) * i + (c as int) * (f - i), f)
  }

  // The cross-fade lies between its two inputs.
  lemma MixBetween(g: Sample, c: Sample, i: nat, f: nat)
    requires i < f <= XFADE
    ensures var v := CDiv((g as int) * i + (c as int) * (f - i), f); (g <= v <= c) || (c <= v <= g)
  {
    var lo: int, hi: int := if g <= c then g else c, if g <= c then c else g;
    Weighted(lo, g, i);
    Weighted(lo, c, f - i);
    Weighted(g, hi, i);
    Weighted(c, hi, f - i);
    var x := (g as int) * i + (c as int) * (f - i);
    assert lo * i + lo * (f - i) == lo * f;
    assert hi * i + hi * (f - i) == hi * f;
    CDivBetween(x, f, lo, hi);
  }

  lemma Weighted(a: int, b: int, w: nat)
    requires a <= b
    ensures a * w <= b * w
  {}

  lemma CDivBetween(x: int, f: int, lo: int, hi: int)
    requires f > 0 && lo * f <= x <= hi * f
    ensures lo <= CDiv(x, f) <= hi
  {
    if x >= 0 {
      DivBetween(x, f, lo, hi);
    } else {
      assert (-hi) * f <= -x <= (-lo) * f;
      DivBetween(-x, f, -hi, -lo);
    }
  }

  lemma DivBetween(x: int, f: int, lo: int, hi: int)
    requires f > 0 && lo * f <= x <= hi * f
    ensures lo <= x / f <= hi
  {
    var q := x / f;
    assert q * f <= x < q * f + f;
    assert (q + 1) * f == q * f + f && (hi + 1) * f == hi * f + f;
    if q < lo { Weighted(q + 1, lo, f); }
    if q > hi { Weighted(hi + 1, q, f); }
  }

  // The first n samples of the cross-fade over f.
  function MixedTo(g: seq<Sample>, c: seq<Sample>, f: nat, n: nat): (out: seq<Sample>)
    requires n <= f <= XFADE && f <= |g| && f <= |c|
    ensures |out| == n
  {
    if n == 0 then [] else MixedTo(g, c, f, n - 1) + [Mix(g[n - 1], c[n - 1], n - 1, f)]
  }

  function Mixed(g: seq<Sample>, c: seq<Sample>, f: nat): (out: seq<Sample>)
    requires f <= XFADE && f <= |g| && f <= |c|
    ensures |out| == f
  {
    MixedTo(g, c, f, f)
  }

  function GoodOut(s: State, pcm: seq<Sample>): (out: seq<Sample>)
    requires StateOk(s)
    ensures |out| == |pcm|
  {
    if !s.concealing then pcm
    else
      var f := FadeLen(|pcm|);
      Mixed(pcm, Fill(s.tone, f), f) + pcm[f..]
  }

  function Good(s: State, pcm: seq<Sample>): (r: State)
    requires StateOk(s)
    ensures StateOk(r)
  {
    var tone := if s.concealing then After(s.tone, FadeLen(|pcm|)) else s.tone;
    State(Push(s.hist, GoodOut(s, pcm)), tone.(gain := FADE_STEPS), false)
  }
}
