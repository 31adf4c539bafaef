// The concealer as the receiver runs it, on little-endian byte buffers edited in place.
module PcmConceal {
  import opened Bytes
  import opened ConcealSpec
  import opened Memory

  // ---- 16-bit little-endian samples

  function SampleOf(lo: Byte, hi: Byte): Sample
  {
    var v := lo + 256 * hi;
    if v >= 32768 then v - 65536 else v
  }

  function LowByte(v: Sample): Byte { if v >= 0 then v % 256 else (v + 65536) % 256 }

  function HighByte(v: Sample): Byte { if v >= 0 then v / 256 else (v + 65536) / 256 }

  lemma StoredSample(v: Sample)
    ensures SampleOf(LowByte(v), HighByte(v)) == v
  {}

  function SampleList(b: seq<Byte>): (s: seq<Sample>)
    requires |b| % 2 == 0
    ensures |s| == |b| / 2
  {
    if |b| == 0 then [] else SampleList(b[..|b| - 2]) + [SampleOf(b[|b| - 2], b[|b| - 1])]
  }

  // Low byte first, negative numbers in two's complement.
  lemma SampleOctets()
    ensures SampleList([1, 0, 0, 1, 255, 255, 0, 128]) == [1, 256, -1, -32768]
  {
    hide SampleList, SampleOf;
    var b: seq<Byte> := [1, 0, 0, 1, 255, 255, 0, 128];
    FourSamples();
    SampleListAt(b, 0);
    SampleListAt(b, 1);
    SampleListAt(b, 2);
    SampleListAt(b, 3);
  }

  lemma FourSamples()
    ensures SampleOf(1, 0) == 1 && SampleOf(0, 1) == 256 && SampleOf(255, 255) == -1 && SampleOf(0, 128) == -32768
  {}

  lemma {:induction false} SampleListAt(b: seq<Byte>, i: nat)
    requires |b| % 2 == 0 && 2 * i + 1 < |b|
    ensures SampleList(b)[i] == SampleOf(b[2 * i], b[2 * i + 1])
  {
    hide SampleOf;
    if 2 * i + 2 < |b| { SampleListAt(b[..|b| - 2], i); }
  }

  lemma SampleListExtend(b: seq<Byte>, lo: Byte, hi: Byte)
    requires |b| % 2 == 0
    ensures SampleList(b + [lo, hi]) == SampleList(b) + [SampleOf(lo, hi)]
  {
    assert (b + [lo, hi])[..|b|] == b;
  }

  function GetSample(p: array<Byte>, i: nat): Sample
    requires 2 * i + 1 < p.Length
    reads p
  {
    SampleOf(p[2 * i], p[2 * i + 1])
  }

  method PutSample(p: array<Byte>, i: nat, v: Sample)
    requires 2 * i + 1 < p.Length
    modifies p
    ensures p[..] == old(p[..])[2 * i := LowByte(v)][2 * i + 1 := HighByte(v)]
  {
    p[2 * i] := LowByte(v);
    p[2 * i + 1] := HighByte(v);
  }

  lemma SampleGot(p: array<Byte>, n: nat, i: nat)
    requires i < n && 2 * n <= p.Length
    ensures GetSample(p, i) == SampleList(p[..2 * n])[i]
  {
    hide SampleOf;
    SampleListAt(p[..2 * n], i);
  }

  lemma AllPushed(was: seq<Sample>, now: seq<Sample>, xs: seq<Sample>)
    requires |was| == |now| == HIST <= |xs| && forall k :: 0 <= k < HIST ==> now[k] == xs[|xs| - HIST + k]
    ensures now == Push(was, xs)
  {}

  lemma SomePushed(was: seq<Sample>, now: seq<Sample>, xs: seq<Sample>)
    requires |was| == |now| == HIST > |xs|
    requires forall k :: 0 <= k < HIST - |xs| ==> now[k] == was[|xs| + k]
    requires forall k :: 0 <= k < |xs| ==> now[HIST - |xs| + k] == xs[k]
    ensures now == Push(was, xs)
  {}

  class Conceal {
    const hist: array<Sample>
    const rep: array<Sample>
    var pos: nat
    var period: nat
    var joinN: nat
    var joinOff: int
    var decay: int
    var gain: int
    var concealing: bool

    ghost function ToneView(): Tone
      reads this, rep
    {
      Tone(rep[..], period, pos, joinOff, joinN, decay, gain)
    }

    ghost function View(): State
      reads this, hist, rep
    {
      State(hist[..], ToneView(), concealing)
    }

    ghost predicate Valid()
      reads this, hist, rep
    {
      hist != rep && StateOk(View())
    }

    constructor ()
      ensures Valid() && View() == Initial() && fresh(hist) && fresh(rep)
    {
      hist := new Sample[HIST](i => 0);
      rep := new Sample[HIST](i => 0);
      pos, period, joinN := 0, MAX_LAG, JOIN;
      joinOff, decay, gain := 0, 1, 0;
      concealing := false;
      new;
      assert hist[..] == Zeros(HIST);
      assert rep[..] == Zeros(HIST);
    }

    // One sample of the continuation.
    method NextCont() returns (v: Sample)
      requires Valid()
      modifies this`pos, this`joinN, this`gain
      ensures Valid()
      ensures v == NextSample(old(ToneView())) && ToneView() == NextTone(old(ToneView()))
    {
      var x: int := rep[pos];
      if joinN < JOIN {
        x := x + CDiv(joinOff * (JOIN - joinN), JOIN);
        joinN := joinN + 1;
      }
      x := CDiv(x * gain, FADE_STEPS);
      gain := if gain > decay then gain - decay else 0;
      pos := pos + 1;
      if pos >= period { pos, joinN := 0, 0; }
      if x > 32767 { x := 32767; }
      if x < -32768 { x := -32768; }
      v := x;
    }

    // Shifts n samples into the history.
    method Remember(pcm: array<Byte>, n: nat)
      requires Valid() && 2 * n <= pcm.Length
      modifies hist
      ensures Valid()
      ensures hist[..] == Push(old(hist[..]), SampleList(pcm[..2 * n]))
    {
      hide SampleList, Push, ToneOk;
      if n >= HIST {
        RememberAll(pcm, n);
      } else {
        Move(hist, 0, hist, n, HIST - n);
        RememberSome(pcm, n, old(hist[..]));
      }
    }

    // Only the last samples fit.
    method RememberAll(pcm: array<Byte>, n: nat)
      requires Valid() && 2 * n <= pcm.Length && n >= HIST
      modifies hist
      ensures hist[..] == Push(old(hist[..]), SampleList(pcm[..2 * n]))
    {
      hide SampleList, SampleOf, Push, ToneOk, GetSample;
      ghost var xs := SampleList(pcm[..2 * n]);
      for i := 0 to HIST
        invariant forall k :: 0 <= k < i ==> hist[k] == xs[n - HIST + k]
      {
        SampleGot(pcm, n, n - HIST + i);
        hist[i] := GetSample(pcm, n - HIST + i);
      }
      AllPushed(old(hist[..]), hist[..], xs);
    }

    // The history has been moved up; the samples go behind it.
    method RememberSome(pcm: array<Byte>, n: nat, ghost was: seq<Sample>)
      requires Valid() && 2 * n <= pcm.Length && n < HIST && |was| == HIST
      requires forall k :: 0 <= k < HIST - n ==> hist[k] == was[n + k]
      modifies hist
      ensures hist[..] == Push(was, SampleList(pcm[..2 * n]))
    {
      hide SampleList, SampleOf, Push, ToneOk, GetSample;
      ghost var xs := SampleList(pcm[..2 * n]);
      for i := 0 to n
        invariant forall k :: 0 <= k < HIST - n ==> hist[k] == was[n + k]
        invariant forall k :: 0 <= k < i ==> hist[HIST - n + k] == xs[k]
      {
        SampleGot(pcm, n, i);
        hist[HIST - n + i] := GetSample(pcm, i);
      }
      SomePushed(was, hist[..], xs);
    }

    // The stream stopped for a while: the next good frame fades in from silence.
    method Outage()
      requires Valid()
      modifies this`gain, this`concealing
      ensures Valid() && View() == ConcealSpec.Outage(old(View()))
    {
      gain := 0;
      concealing := true;
    }

    // n samples of the continuation into out.
    method PutContinuation(out: array<Byte>, n: nat)
      requires Valid() && 2 * n <= out.Length
      modifies this`pos, this`joinN, this`gain, out
      ensures Valid()
      ensures ToneView() == After(old(ToneView()), n)
      ensures SampleList(out[..2 * n]) == Fill(old(ToneView()), n)
      ensures out[2 * n..] == old(out[2 * n..])
    {
      hide NextTone, NextSample, SampleList;
      ghost var t := ToneView();
      SampleListEmpty();
      for i := 0 to n
        invariant Valid()
        invariant ToneView() == After(t, i)
        invariant SampleList(out[..2 * i]) == Fill(t, i)
        invariant out[2 * n..] == old(out[2 * n..])
      {
        PutNext(out, i);
      }
    }

    // The continuation's next sample, as sample i of the output.
    method PutNext(out: array<Byte>, i: nat)
      requires Valid() && 2 * i + 2 <= out.Length
      modifies this`pos, this`joinN, this`gain, out
      ensures Valid() && ToneView() == NextTone(old(ToneView()))
      ensures SampleList(out[..2 * (i + 1)]) == old(SampleList(out[..2 * i]) + [NextSample(ToneView())])
      ensures out[2 * (i + 1)..] == old(out[2 * (i + 1)..])
    {
      hide NextTone, NextSample, LowByte, HighByte, SampleOf, SampleList;
      var v := NextCont();
      ghost var before := out[..2 * i];
      PutSample(out, i, v);
      assert out[..2 * (i + 1)] == before + [LowByte(v), HighByte(v)];
      SampleListExtend(before, LowByte(v), HighByte(v));
      StoredSample(v);
    }

    // Sums of products of two windows of the history.
    method Correlate(a: nat, b: nat) returns (sum: int)
      requires Valid() && a + WIN <= HIST && b + WIN <= HIST
      ensures sum == Dot(hist[..], a, b, WIN)
    {
      sum := 0;
      for i := 0 to WIN
        invariant sum == Dot(hist[..], a, b, i)
      {
        sum := sum + (hist[a + i] as int) * (hist[b + i] as int);
      }
    }

    // How well the newest window matches the one `lag` back.
    method ScoreAt(lag: nat) returns (matches: bool, score: real)
      requires Valid() && MIN_LAG <= lag <= MAX_LAG
      ensures matches == Matches(hist[..], lag)
      ensures matches ==> score == Score(hist[..], lag) && score > 0.0
    {
      hide Dot;
      score := 0.0;
      var xy := Correlate(HIST - WIN, HIST - WIN - lag);
      var yy := Correlate(HIST - WIN - lag, HIST - WIN - lag);
      matches := !(xy <= 0 || yy == 0);
      if matches {
        score := (xy as real) * (xy as real) / (yy as real);
        ScorePositive(hist[..], lag);
      }
    }

    // The lag where the newest window best matches the audio that far back.
    method BestMatch() returns (best: nat, bestCorr: real)
      requires Valid()
      ensures best == Period(hist[..]) && bestCorr == BestCorr(hist[..])
    {
      hide Dot, Score, Matches;
      ghost var h := hist[..];
      var bestScore: real := -1.0;
      best, bestCorr := MAX_LAG, 0.0;
      var xx := Correlate(HIST - WIN, HIST - WIN);
      for lag := MIN_LAG to MAX_LAG + 1
        invariant match BestBelow(h, lag)
                  case NoMatch => best == MAX_LAG && bestScore == -1.0 && bestCorr == 0.0
                  case Lag(l) => best == l && bestScore == Score(h, l) && bestCorr == Normalised(h, l)
      {
        var matches, score := ScoreAt(lag);
        if !matches { continue; }
        if score > bestScore {
          bestScore, best := score, lag;
          bestCorr := if xx != 0 then score / (xx as real) else 0.0;
        }
      }
    }

    // Freezes the best period and starts it over.
    method FindPeriod()
      requires Valid()
      modifies this`period, this`pos, this`decay, this`joinOff, this`joinN, rep
      ensures Valid() && ToneView() == Restart(hist[..], old(ToneView()))
    {
      hide Period, BestCorr, Dot;
      var best, bestCorr := BestMatch();
      period := best;
      Move(rep, 0, hist, HIST - period, period);
      pos := 0;
      decay := if bestCorr >= 0.36 then 1 else FADE_STEPS / FAST_FADE;
      joinOff := (hist[HIST - 1] as int) - (hist[HIST - period - 1] as int);
      joinN := 0;
      assert rep[..] == Frozen(hist[..], old(rep[..]), period);
    }

    // Replacement samples for n lost ones.
    method Lost(out: array<Byte>, n: nat)
      requires Valid() && 2 * n <= out.Length
      modifies this, hist, rep, out
      ensures Valid()
      ensures View() == ConcealSpec.Lost(old(View()), n)
      ensures SampleList(out[..2 * n]) == LostOut(old(View()), n)
      ensures out[2 * n..] == old(out[2 * n..])
    {
      hide Fill, After, Restart, Push, SampleList, SampleOf, ToneOk;
      if !concealing { FindPeriod(); }
      PutContinuation(out, n);
      Remember(out, n);
      concealing := true;
    }

    // Cross-fades the first f samples in from the continuation.
    method CrossFade(pcm: array<Byte>, f: nat)
      requires Valid() && 2 * f <= pcm.Length && f <= XFADE
      modifies this`pos, this`joinN, this`gain, pcm
      ensures Valid() && ToneView() == After(old(ToneView()), f)
      ensures SampleList(pcm[..2 * f])
           == Mixed(old(SampleList(pcm[..2 * f])), Fill(old(ToneView()), f), f)
      ensures pcm[2 * f..] == old(pcm[2 * f..])
    {
      hide NextTone, NextSample, Mix, Fill, SampleList, SampleOf, After, MixedTo, ToneOk;
      ghost var t := ToneView();
      ghost var was := pcm[..];
      ghost var g := SampleList(was[..2 * f]);
      SampleListEmpty();
      NothingMixed(t, g, Fill(t, f), f);
      for i := 0 to f
        invariant Valid()
        invariant ToneView() == After(t, i)
        invariant SampleList(pcm[..2 * i]) == MixedTo(g, Fill(t, f), f, i)
        invariant pcm[2 * i..] == was[2 * i..]
      {
        ghost var before := pcm[..];
        var c := NextCont();
        assert pcm[..] == before && pcm[..2 * i] == before[..2 * i];
        FillAt(t, f, i);
        SampleListAt(was[..2 * f], i);
        assert GetSample(pcm, i) == g[i] by {
          assert pcm[2 * i..][0] == was[2 * i..][0] && pcm[2 * i..][1] == was[2 * i..][1];
        }
        MixedStep(t, g, Fill(t, f), f, i);
        FadeOne(pcm, i, f, c, g);
      }
    }

    static method FadeOne(pcm: array<Byte>, i: nat, f: nat, c: Sample, ghost g: seq<Sample>)
      requires 2 * i + 1 < pcm.Length && i < f <= XFADE && |g| == f && g[i] == GetSample(pcm, i)
      modifies pcm
      ensures SampleList(pcm[..2 * (i + 1)]) == old(SampleList(pcm[..2 * i])) + [Mix(g[i], c, i, f)]
      ensures pcm[2 * (i + 1)..] == old(pcm[2 * (i + 1)..])
    {
      hide LowByte, HighByte, SampleOf, Mix, SampleList;
      var v := Mix(GetSample(pcm, i), c, i, f);
      ghost var before := pcm[..2 * i];
      PutSample(pcm, i, v);
      assert pcm[..2 * (i + 1)] == before + [LowByte(v), HighByte(v)];
      SampleListExtend(before, LowByte(v), HighByte(v));
      StoredSample(v);
    }

    // A good frame, edited in place; it becomes the new history.
    method Good(pcm: array<Byte>, n: nat)
      requires Valid() && 2 * n <= pcm.Length
      modifies this, hist, pcm
      ensures Valid()
      ensures View() == ConcealSpec.Good(old(View()), old(SampleList(pcm[..2 * n])))
      ensures SampleList(pcm[..2 * n]) == GoodOut(old(View()), old(SampleList(pcm[..2 * n])))
      ensures pcm[2 * FadeLen(n)..] == old(pcm[2 * FadeLen(n)..])
      ensures !old(concealing) ==> pcm[..] == old(pcm[..])
    {
      hide Fill, After, Push, MixedTo, SampleList;
      ghost var was := pcm[..];
      if concealing {
        var f := if n < XFADE then n else XFADE;
        CrossFade(pcm, f);
        concealing := false;
        FadedFrame(was, pcm[..], f, n);
        MixedPrefix(SampleList(was[..2 * n]), old(Fill(ToneView(), f)), f, f);
      }
      Remember(pcm, n);
      gain := FADE_STEPS;
    }
  }

  lemma NothingMixed(t: Tone, g: seq<Sample>, c: seq<Sample>, f: nat)
    requires ToneOk(t) && f <= XFADE && f <= |g| && f <= |c|
    ensures After(t, 0) == t && MixedTo(g, c, f, 0) == []
  {}

  lemma MixedStep(t: Tone, g: seq<Sample>, c: seq<Sample>, f: nat, i: nat)
    requires ToneOk(t) && i < f <= XFADE && f <= |g| && f <= |c|
    ensures After(t, i + 1) == NextTone(After(t, i))
    ensures MixedTo(g, c, f, i + 1) == MixedTo(g, c, f, i) + [Mix(g[i], c[i], i, f)]
  {
    hide NextTone, Mix;
  }

  // The samples of a frame of which only the first f have changed.
  lemma FadedFrame(was: seq<Byte>, now: seq<Byte>, f: nat, n: nat)
    requires f <= n && 2 * n <= |was| == |now| && was[2 * f..] == now[2 * f..]
    ensures SampleList(now[..2 * n]) == SampleList(now[..2 * f]) + SampleList(was[..2 * n])[f..]
    ensures SampleList(was[..2 * n])[..f] == SampleList(was[..2 * f])
  {
    hide SampleList;
    SampleListSplit(was[..2 * n], f);
    SampleListSplit(now[..2 * n], f);
    Cut(now, 2 * f, 2 * n);
    Cut(was, 2 * f, 2 * n);
  }

  lemma Cut(s: seq<Byte>, a: nat, b: nat)
    requires a <= b <= |s|
    ensures s[..b][..a] == s[..a] && s[..b][a..] == s[a..][..b - a]
  {}

  lemma {:induction false} MixedPrefix(g: seq<Sample>, c: seq<Sample>, f: nat, n: nat)
    requires n <= f <= XFADE && f <= |g| && f <= |c|
    ensures MixedTo(g[..f], c, f, n) == MixedTo(g, c, f, n)
  {
    hide Mix;
    if n > 0 { MixedPrefix(g, c, f, n - 1); }
  }

  lemma SampleListEmpty()
    ensures SampleList([]) == []
  {}

  lemma {:induction false} SampleListSplit(b: seq<Byte>, k: nat)
    requires |b| % 2 == 0 && 2 * k <= |b|
    ensures SampleList(b) == SampleList(b[..2 * k]) + SampleList(b[2 * k..])
  {
    hide SampleList, SampleOf;
    SampleListEmpty();
    if 2 * k == |b| {
      assert b[..2 * k] == b && b[2 * k..] == [];
    } else {
      EvenRest(|b|, k);
      var n := |b| - 2;
      SampleListSplit(b[..n], k);
      LastPair(b, k);
      SampleListExtend(b[..n], b[n], b[n + 1]);
      SampleListExtend(b[2 * k..n], b[n], b[n + 1]);
      Regrouped(SampleList(b[..2 * k]), SampleList(b[2 * k..n]), [SampleOf(b[n], b[n + 1])]);
    }
  }

  lemma Regrouped(x: seq<Sample>, y: seq<Sample>, z: seq<Sample>)
    ensures x + (y + z) == x + y + z
  {}

  lemma LastPair(b: seq<Byte>, k: nat)
    requires 2 * k + 2 <= |b|
    ensures var (n, last) := (|b| - 2, [b[|b| - 2], b[|b| - 1]]);
            && b[..n][..2 * k] == b[..2 * k] && b[..n][2 * k..] == b[2 * k..n]
            && b == b[..n] + last && b[2 * k..] == b[2 * k..n] + last
  {}

  lemma EvenRest(n: nat, k: nat)
    requires n % 2 == 0 && 2 * k <= n
    ensures (n - 2 * k) % 2 == 0 && (n - 2 * k) / 2 == n / 2 - k && 2 * k / 2 == k && 2 * k % 2 == 0
  {}

  lemma ScorePositive(h: seq<Sample>, lag: nat)
    requires |h| == HIST && lag <= MAX_LAG && Matches(h, lag)
    ensures Score(h, lag) > 0.0
  {
    hide Dot;
    DotSelf(h, HIST - WIN - lag, WIN);
    var x := Cross(h, lag) as real;
    Quotient(x, x, Energy(h, lag) as real);
  }

  lemma Quotient(a: real, b: real, y: real)
    requires a > 0.0 && b > 0.0 && y > 0.0
    ensures a * b / y > 0.0
  {
    PositiveProduct(a, b);
    PositiveQuotient(a * b, y);
  }

  lemma PositiveProduct(a: real, b: real)
    requires a > 0.0 && b > 0.0
    ensures a * b > 0.0
  {}

  lemma PositiveQuotient(a: real, y: real)
    requires a > 0.0 && y > 0.0
    ensures a / y > 0.0
  {}
}
