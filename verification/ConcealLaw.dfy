// The laws of concealment in terms of samples: what a fill plays, how fast it fades, how the next
// good frame takes over, and which period is found.
module ConcealLaw {
  import opened Bytes
  import opened ConcealSpec
  import opened ConcealProps

  // ---- What a fill plays

  function Faded(i: nat, decay: int): int { if i * decay < 1024 then 1024 - i * decay else 0 }

  // What is left of the step between the history's end and its last period.
  function Rest(h: seq<Sample>, p: nat, k: nat): int
    requires |h| == 1024 && 0 < p <= 768
  {
    if k < 32 then CDiv(((h[1023] as int) - (h[1023 - p] as int)) * (32 - k), 32) else 0
  }

  function Clipped(v: int): int { if v > 32767 then 32767 else if v < -32768 then -32768 else v }

  // After a good frame sample i of a fill is the history one period back, over and over, with the
  // rest of the step worked off over the first 32 samples of each period, and the whole faded.
  lemma FillLaw(s: State, n: nat, i: nat)
    requires StateOk(s) && !s.concealing && s.tone.gain == FADE_STEPS && i < n
    ensures var h := s.hist;
            var p, decay := Period(h), Restart(h, s.tone).decay;
            var k := i % p;
            LostOut(s, n)[i] == Clipped(CDiv(((h[1024 - p + k] as int) + Rest(h, p, k)) * Faded(i, decay), 1024))
  {
    var t := Restart(s.hist, s.tone);
    FillAt(t, n, i);
    LoopState(s.hist, s.tone, i);
    GainAfter(t, i);
    PosLaw(s.hist, s.tone, i);
    hide Period, BestCorr;
  }

  lemma {:induction false} PosLaw(h: seq<Sample>, t: Tone, n: nat)
    requires |h| == HIST && ToneOk(t)
    ensures After(Restart(h, t), n).pos == n % Period(h)
    ensures After(Restart(h, t), n).period == Period(h)
  {
    hide Period, BestCorr, Frozen;
    if n > 0 {
      PosLaw(h, t, n - 1);
      NextMod(n - 1, Period(h));
    }
  }

  lemma NextMod(n: nat, p: nat)
    requires p > 0
    ensures (n + 1) % p == if n % p + 1 == p then 0 else n % p + 1
  {
    var q := n / p;
    assert n == q * p + n % p;
    if n % p + 1 == p {
      assert n + 1 == (q + 1) * p;
      DivModIs(n + 1, p, q + 1, 0);
    } else {
      DivModIs(n + 1, p, q, n % p + 1);
    }
  }

  // A good frame brings the gain back, whatever was before, so the law holds of the next fill.
  lemma GoodRestores(s: State, pcm: seq<Sample>)
    requires StateOk(s)
    ensures var r := Good(s, pcm); StateOk(r) && !r.concealing && r.tone.gain == FADE_STEPS
  {
    hide After, GoodOut;
  }

  // A loss told in two calls sounds as in one.
  lemma LossGoesOn(s: State, m: nat, n: nat)
    requires StateOk(s)
    ensures LostOut(s, m + n) == LostOut(s, m) + LostOut(Lost(s, m), n)
  {
    FillSplit(Continued(s), m, n);
    hide Restart, Fill;
  }

  // ---- How the next good frame takes over

  // Over its first samples, 64 at most, the frame is faded in over the fill as it would have gone
  // on: the fill alone at the first sample, and a larger part of the frame at each one after it.
  lemma CrossFadeLaw(s: State, m: nat, pcm: seq<Sample>, i: nat)
    requires StateOk(s) && i < |pcm|
    ensures var f := if |pcm| < 64 then |pcm| else 64;
            GoodOut(Lost(s, m), pcm)[i]
            == if i < f then CDiv((pcm[i] as int) * i + (LostOut(s, m + f)[m + i] as int) * (f - i), f) else pcm[i]
  {
    hide Fill, Mix, Lost, LostOut, MixedTo, CDiv, Push;
    var f := FadeLen(|pcm|);
    LossGoesOn(s, m, f);
    StillConcealing(s, m, f);
    if i < f { MixedAt(pcm, Fill(Lost(s, m).tone, f), f, f, i); }
  }

  lemma StillConcealing(s: State, m: nat, n: nat)
    requires StateOk(s)
    ensures Lost(s, m).concealing && LostOut(Lost(s, m), n) == Fill(Lost(s, m).tone, n)
  {}

  lemma {:induction false} MixedAt(g: seq<Sample>, c: seq<Sample>, f: nat, n: nat, i: nat)
    requires i < n <= f <= XFADE && f <= |g| && f <= |c|
    ensures MixedTo(g, c, f, n)[i] == CDiv((g[i] as int) * i + (c[i] as int) * (f - i), f)
  {
    if i < n - 1 { MixedAt(g, c, f, n - 1, i); }
  }

  // After an outage it is faded in over silence.
  lemma OutageLaw(s: State, pcm: seq<Sample>, i: nat)
    requires StateOk(s) && i < |pcm|
    ensures var f := if |pcm| < 64 then |pcm| else 64;
            GoodOut(Outage(s), pcm)[i] == if i < f then CDiv((pcm[i] as int) * i, f) else pcm[i]
  {
    var f := FadeLen(|pcm|);
    if i < f {
      OutageFadesInFromSilence(s, pcm, i);
      MixedAt(pcm, Fill(Outage(s).tone, f), f, f, i);
    }
    hide Fill, Mix;
  }

  // ---- Which period is found, and how fast it fades

  // Slowly, to silence after 1024 samples, if and only if the newest 256 samples look enough like
  // those one period back: their correlation is at least 0.6 of what it could be. When nothing
  // looks like them at all the period is the longest one.
  lemma DecayLaw(h: seq<Sample>, t: Tone)
    requires |h| == HIST && ToneOk(t)
    ensures var p, decay := Period(h), Restart(h, t).decay;
            var (c, e, e0) := (Dot(h, 768, 768 - p, 256), Dot(h, 768 - p, 768 - p, 256), Dot(h, 768, 768, 256));
            && (BestLag(h).NoMatch? ==> p == 768) && decay in {1, 8}
            && (decay == 1 <==> BestLag(h).Lag? && e0 != 0 && 100 * c * c >= 36 * e * e0)
  {
    hide Dot, BestBelow, Normalised, Matches, Frozen;
    if BestLag(h).Lag? { NormalisedAtLeast(h, BestLag(h).lag); }
  }

  lemma NormalisedAtLeast(h: seq<Sample>, lag: nat)
    requires |h| == HIST && 0 < lag <= MAX_LAG && Matches(h, lag)
    ensures var (c, e, e0) := (Dot(h, 768, 768 - lag, 256), Dot(h, 768 - lag, 768 - lag, 256), Dot(h, 768, 768, 256));
            Normalised(h, lag) >= 0.36 <==> e0 != 0 && 100 * c * c >= 36 * e * e0
  {
    hide Dot;
    var (c, e, e0) := (Cross(h, lag), Energy(h, lag), Energy(h, 0));
    DotSelf(h, 768 - lag, 256);
    DotSelf(h, 768, 256);
    assert c == Dot(h, 768, 768 - lag, 256) && e == Dot(h, 768 - lag, 768 - lag, 256) && e0 == Dot(h, 768, 768, 256);
    assert Score(h, lag) == (c as real) * (c as real) / (e as real);
    if e0 != 0 {
      assert Normalised(h, lag) == (c as real) * (c as real) / (e as real) / (e0 as real);
      Ratio(c, e, e0);
    }
  }

  lemma Ratio(c: int, e: int, e0: int)
    requires e > 0 && e0 > 0
    ensures (c as real) * (c as real) / (e as real) / (e0 as real) >= 0.36 <==> 100 * c * c >= 36 * e * e0
  {
    var (x, y, z) := (c as real, e as real, e0 as real);
    Quotients(x, y, z);
    Products(c, e, e0);
    Scale(x * x / y / z, 0.36, z * y);
    Hundredfold(x * x, z * y);
  }

  lemma Quotients(x: real, y: real, z: real)
    requires y > 0.0 && z > 0.0
    ensures z * y > 0.0 && x * x / y / z * (z * y) == x * x
  {
    var q := x * x / y;
    assert q * y == x * x;
    var r := q / z;
    assert r * z == q;
    assert r * (z * y) == r * z * y;
  }

  lemma Products(c: int, e: int, e0: int)
    ensures (100 * c * c) as real == 100.0 * ((c as real) * (c as real))
    ensures (36 * e * e0) as real == 36.0 * ((e0 as real) * (e as real))
  {}

  lemma Hundredfold(a: real, b: real)
    ensures a >= 0.36 * b <==> 100.0 * a >= 36.0 * b
  {}

  lemma Scale(a: real, b: real, k: real)
    requires k > 0.0
    ensures a >= b <==> a * k >= b * k
  {}

  // Sum of (x * h[a + i] - y * h[b + i])^2 over the first n samples.
  function Squares(h: seq<Sample>, a: nat, b: nat, x: int, y: int, n: nat): (r: int)
    requires a + n <= |h| && b + n <= |h|
    ensures r >= 0
  {
    if n == 0 then 0 else Squares(h, a, b, x, y, n - 1) + Square(x * h[a + n - 1] - y * h[b + n - 1])
  }

  function Square(v: int): (r: int)
    ensures r >= 0 && (r == 0 <==> v == 0)
  {
    v * v
  }

  lemma {:induction false} SquaresAre(h: seq<Sample>, a: nat, b: nat, x: int, y: int, n: nat)
    requires a + n <= |h| && b + n <= |h|
    ensures Squares(h, a, b, x, y, n)
         == x * x * Dot(h, a, a, n) - 2 * (x * y) * Dot(h, a, b, n) + y * y * Dot(h, b, b, n)
  {
    if n > 0 {
      SquaresAre(h, a, b, x, y, n - 1);
      Binomial(x, y, h[a + n - 1], h[b + n - 1], Dot(h, a, a, n - 1), Dot(h, a, b, n - 1), Dot(h, b, b, n - 1));
    }
  }

  lemma Binomial(x: int, y: int, u: int, v: int, p: int, q: int, r: int)
    ensures x * x * p - 2 * (x * y) * q + y * y * r + Square(x * u - y * v)
         == x * x * (p + u * u) - 2 * (x * y) * (q + u * v) + y * y * (r + v * v)
  {
    assert (x * u - y * v) * (x * u - y * v) == x * u * (x * u) - 2 * (x * u * (y * v)) + y * v * (y * v);
    assert x * u * (x * u) == x * x * (u * u);
    assert x * u * (y * v) == x * y * (u * v);
    assert y * v * (y * v) == y * y * (v * v);
    assert x * x * (p + u * u) == x * x * p + x * x * (u * u);
    assert 2 * (x * y) * (q + u * v) == 2 * (x * y) * q + 2 * (x * y) * (u * v);
    assert y * y * (r + v * v) == y * y * r + y * y * (v * v);
  }

  lemma {:induction false} SquaresZero(h: seq<Sample>, a: nat, b: nat, x: int, y: int, n: nat, i: nat)
    requires a + n <= |h| && b + n <= |h| && i < n && Squares(h, a, b, x, y, n) == 0
    ensures x * h[a + i] == y * h[b + i]
  {
    if i < n - 1 { SquaresZero(h, a, b, x, y, n - 1, i); }
  }

  // The correlation is never larger than what the two windows allow, and as large only when one
  // is a multiple of the other.
  lemma Schwarz(h: seq<Sample>, a: nat, b: nat, n: nat)
    requires a + n <= |h| && b + n <= |h| && Dot(h, b, b, n) > 0
    ensures var (p, q, r) := (Dot(h, a, a, n), Dot(h, a, b, n), Dot(h, b, b, n));
            q * q <= p * r && (q * q == p * r ==> forall j :: a <= j < a + n ==> r * h[j] == q * h[b + (j - a)])
  {
    var (p, q, r) := (Dot(h, a, a, n), Dot(h, a, b, n), Dot(h, b, b, n));
    SquaresAre(h, a, b, r, q, n);
    SquareGap(p, q, r);
    if q * q == p * r {
      forall j | a <= j < a + n ensures r * h[j] == q * h[b + (j - a)] { SquaresZero(h, a, b, r, q, n, j - a); }
    }
  }

  lemma SquareGap(p: int, q: int, r: int)
    requires r > 0 && r * r * p - 2 * (r * q) * q + q * q * r >= 0
    ensures q * q <= p * r
    ensures q * q == p * r ==> r * r * p - 2 * (r * q) * q + q * q * r == 0
  {
    var g := p * r - q * q;
    assert r * r * p == r * (p * r) && r * q * q == r * (q * q) && q * q * r == r * (q * q);
    assert r * (p * r) - 2 * (r * (q * q)) + r * (q * q) == r * g;
    SignOf(r, g);
  }

  lemma SignOf(r: int, g: int)
    requires r > 0
    ensures r * g >= 0 ==> g >= 0
  {}

  // The newest 256 samples are not silence, and repeat those p samples earlier.
  ghost predicate Repeats(h: seq<Sample>, p: nat)
  {
    && |h| == HIST && MIN_LAG <= p <= MAX_LAG
    && (exists i :: 768 <= i < 1024 && h[i] != 0)
    && forall i :: 768 <= i < 1024 ==> h[i] == h[i - p]
  }

  // A waveform that repeats is found: the period chosen is no longer than the one it repeats with,
  // the newest samples are a positive multiple of those one period back, and the fill fades slowly.
  lemma RepeatingIsFound(h: seq<Sample>, t: Tone, p: nat)
    requires Repeats(h, p) && ToneOk(t)
    ensures var l := Period(h);
            var (c, e) := (Dot(h, 768, 768 - l, 256), Dot(h, 768 - l, 768 - l, 256));
            && l <= p && c > 0 && e > 0
            && (forall j :: 768 <= j < 1024 ==> e * h[j] == c * h[768 - l + (j - 768)])
            && Restart(h, t).decay == 1
  {
    hide Dot, Score, Matches, BestBelow, Frozen;
    SameWindow(h, p);
    BestIsFirstMaximum(h, MAX_LAG + 1);
    var l := Period(h);
    var (c, e, e0) := (Dot(h, 768, 768 - l, 256), Dot(h, 768 - l, 768 - l, 256), Dot(h, 768, 768, 256));
    MatchesAre(h, l);
    Schwarz(h, 768, 768 - l, 256);
    BestOfAll(c, e, e0, Score(h, l));
    DecayLaw(h, t);
    assert 100 * c * c == 100 * (c * c) && 36 * e * e0 == 36 * (e0 * e);
    assert e0 * e > 0;
  }

  // Where the newest window repeats, its score is its own energy.
  lemma SameWindow(h: seq<Sample>, p: nat)
    requires Repeats(h, p)
    ensures Dot(h, 768, 768, 256) > 0 && Matches(h, p) && Score(h, p) == Dot(h, 768, 768, 256) as real
  {
    DotAlike(h, p, 256);
    var i :| 768 <= i < 1024 && h[i] != 0;
    DotPositive(h, 768, 256, i);
    hide Dot;
  }

  lemma {:induction false} DotAlike(h: seq<Sample>, p: nat, n: nat)
    requires Repeats(h, p) && n <= 256
    ensures Dot(h, 768, 768 - p, n) == Dot(h, 768, 768, n) == Dot(h, 768 - p, 768 - p, n)
  {
    if n > 0 {
      DotAlike(h, p, n - 1);
      assert h[768 + n - 1] == h[768 + n - 1 - p];
    }
  }

  lemma {:induction false} DotPositive(h: seq<Sample>, a: nat, n: nat, i: nat)
    requires a + n <= |h| && a <= i < a + n && h[i] != 0
    ensures Dot(h, a, a, n) > 0
  {
    DotSelf(h, a, n - 1);
    var v: int := h[a + n - 1];
    if i < a + n - 1 {
      DotPositive(h, a, n - 1, i);
      assert v * v >= 0;
    } else {
      assert v * v > 0;
    }
  }

  lemma MatchesAre(h: seq<Sample>, lag: nat)
    requires |h| == HIST && 0 < lag <= MAX_LAG && Matches(h, lag)
    ensures var (c, e) := (Dot(h, 768, 768 - lag, 256), Dot(h, 768 - lag, 768 - lag, 256));
            c > 0 && e > 0 && Score(h, lag) == (c as real) * (c as real) / (e as real)
  {
    hide Dot;
    DotSelf(h, 768 - lag, 256);
  }

  lemma BestOfAll(c: int, e: int, e0: int, score: real)
    requires e > 0 && score == (c as real) * (c as real) / (e as real)
    requires score >= e0 as real && c * c <= e0 * e
    ensures c * c == e0 * e && score == e0 as real
  {
    var (x, y, z) := (c as real, e as real, e0 as real);
    assert score * y == x * x;
    Scale(score, z, y);
    assert (c * c) as real == x * x && (e0 * e) as real == z * y;
  }
}
