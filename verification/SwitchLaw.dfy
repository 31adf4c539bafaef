// When a file switch counts, for any reads whatever: only a stretch of reads of one file, broken by
// no other, that brings 16,384 bytes.
module SwitchLaw {
  import opened Bytes
  import opened Clock
  import opened FileSwitch
  import opened RadioSession

  // Bytes of the unbroken stretch of reads of one file, other than f, that ends with read k - 1.
  function StretchBytes(f: nat, xs: seq<FileRead>, k: nat): nat
    requires k <= |xs|
  {
    if k == 0 || xs[k - 1].file == f then 0
    else xs[k - 1].n + if k > 1 && xs[k - 2].file == xs[k - 1].file then StretchBytes(f, xs, k - 1) else 0
  }

  // No silence of more than three seconds before any of the reads.
  ghost predicate GapFree(d: Detector, ts: seq<Millis>)
  {
    && d.anyRead && (|ts| > 0 ==> Elapsed(d.lastMs, ts[0]) <= 3000)
    && forall i :: 0 < i < |ts| ==> Elapsed(ts[i - 1], ts[i]) <= 3000
  }

  ghost predicate OnDisk(xs: seq<FileRead>, ts: seq<Millis>, sizes: seq<nat>)
  {
    |xs| == |ts| && forall i :: 0 <= i < |xs| ==> xs[i].file < |sizes|
  }

  // None of the first k reads ends such a stretch.
  ghost predicate NothingSustained(f: nat, xs: seq<FileRead>, k: nat)
    requires k <= |xs|
  {
    forall j :: 0 <= j <= k ==> StretchBytes(f, xs, j) < 16384
  }

  lemma {:induction false} LastMs(d: Detector, xs: seq<FileRead>, ts: seq<Millis>, sizes: seq<nat>, k: nat)
    requires d.current < |sizes| && OnDisk(xs, ts, sizes) && GapFree(d, ts) && k < |xs|
    ensures !IsIdle(After(d, xs, ts, sizes, k), ts[k])
  {
    hide Note;
    if k > 0 {
      assert Elapsed(ts[k - 1], ts[k]) <= 3000;
      NoteSees(After(d, xs, ts, sizes, k - 1), xs[k - 1], ts[k - 1], sizes);
      Unroll(d, xs, ts, sizes, k);
    }
  }

  // What the detector remembers of the stretch being read while it is settled on f.
  ghost predicate Watching(d: Detector, f: nat, xs: seq<FileRead>, k: nat)
    requires k <= |xs|
  {
    && d.anchored && d.current == f && d.candidateBytes == StretchBytes(f, xs, k)
    && (d.candidateBytes > 0 ==> k > 0 && d.candidate == xs[k - 1].file)
  }

  lemma WatchStep(d: Detector, f: nat, xs: seq<FileRead>, now: Millis, sizes: seq<nat>, k: nat)
    requires d.current < |sizes| && k < |xs| && Watching(d, f, xs, k) && !IsIdle(d, now)
    ensures var (d', r) := Note(d, xs[k], now, sizes);
            if StretchBytes(f, xs, k + 1) < 16384 then Watching(d', f, xs, k + 1) && r == Nothing
            else Settled(d', xs[k].file) && xs[k].file != f && r == Verdict(d, xs[k].file, now, sizes)
  {}

  // While no stretch of another file has come to 16,384 bytes the detector stays on its file and
  // relays nothing, whatever is read; and with the read that brings it there, and no other, it
  // moves to that file.
  lemma {:induction false} MovesExactly(d: Detector, f: nat, xs: seq<FileRead>, ts: seq<Millis>, sizes: seq<nat>,
                                        k: nat)
    requires d.current < |sizes| && Settled(d, f) && OnDisk(xs, ts, sizes) && GapFree(d, ts)
    requires 0 < k <= |xs| && NothingSustained(f, xs, k - 1)
    ensures var d' := After(d, xs, ts, sizes, k);
            && (d'.current == f <==> StretchBytes(f, xs, k) < 16384)
            && (StretchBytes(f, xs, k) < 16384 ==> Watching(d', f, xs, k) && Heard(d, xs, ts, sizes, k) == [])
            && (StretchBytes(f, xs, k) >= 16384 ==>
                  && Settled(d', xs[k - 1].file)
                  && Heard(d, xs, ts, sizes, k)
                     == Once(Verdict(After(d, xs, ts, sizes, k - 1), xs[k - 1].file, ts[k - 1], sizes)))
  {
    hide Note, Verdict, IsIdle, Settled;
    if k == 1 {
      NoneYet(d, f, xs, ts, sizes);
    } else {
      MovesExactly(d, f, xs, ts, sizes, k - 1);
    }
    var before := After(d, xs, ts, sizes, k - 1);
    LastMs(d, xs, ts, sizes, k - 1);
    WatchStep(before, f, xs, ts[k - 1], sizes, k - 1);
    Unroll(d, xs, ts, sizes, k);
    SettledOn(After(d, xs, ts, sizes, k), xs[k - 1].file);
  }

  lemma NoneYet(d: Detector, f: nat, xs: seq<FileRead>, ts: seq<Millis>, sizes: seq<nat>)
    requires d.current < |sizes| && Settled(d, f) && OnDisk(xs, ts, sizes)
    ensures Watching(After(d, xs, ts, sizes, 0), f, xs, 0) && Heard(d, xs, ts, sizes, 0) == []
  {}

  lemma SettledOn(d: Detector, g: nat)
    ensures Settled(d, g) ==> d.current == g
  {}

  // Next and Previous around the circle of files; nothing for a file further away, in the first five
  // seconds after a mount, or, for the next file, once the radio has come within 8,192 bytes of the
  // end of its own.
  lemma VerdictExactly(d: Detector, g: nat, now: Millis, sizes: seq<nat>)
    requires d.current < |sizes| && g < |sizes|
    ensures var n := |sizes|;
            var next := if d.current + 1 < n then d.current + 1 else 0;
            var previous := if d.current > 0 then d.current - 1 else n - 1;
            Verdict(d, g, now, sizes)
            == if d.mountQuiet && Elapsed(d.mountMs, now) < 5000 then Nothing
               else if g == next then if d.currentEnd + 8192 >= sizes[d.current] then Nothing else Next
               else if g == previous then Previous
               else Nothing
  {
    var n := |sizes|;
    if d.current + 1 < n {
      DivModIs(d.current + 1, n, 0, d.current + 1);
    } else {
      DivModIs(n, n, 1, 0);
    }
    if d.current > 0 {
      DivModIs(d.current + n - 1, n, 1, d.current - 1);
    } else {
      DivModIs(n - 1, n, 0, n - 1);
    }
  }

  // A probe into another file that the radio comes back from leaves no trace: four blocks of a
  // file, one of its own, and four more of the other are no switch.
  lemma BackInBetween(d: Detector, f: nat, g: nat, xs: seq<FileRead>, ts: seq<Millis>, sizes: seq<nat>)
    requires d.current < |sizes| && Settled(d, f) && f != g && f < |sizes| && g < |sizes| && GapFree(d, ts)
    requires |xs| == |ts| == 9 && forall i :: 0 <= i < 9 ==> xs[i].n == 2048 && xs[i].file == if i == 4 then f else g
    ensures Heard(d, xs, ts, sizes, 9) == [] && After(d, xs, ts, sizes, 9).current == f
  {
    hide Heard, After, Settled;
    assert StretchBytes(f, xs, 1) == 2048 && StretchBytes(f, xs, 2) == 4096;
    assert StretchBytes(f, xs, 3) == 6144 && StretchBytes(f, xs, 4) == 8192;
    assert StretchBytes(f, xs, 5) == 0 && StretchBytes(f, xs, 6) == 2048;
    assert StretchBytes(f, xs, 7) == 4096 && StretchBytes(f, xs, 8) == 6144 && StretchBytes(f, xs, 9) == 8192;
    MovesExactly(d, f, xs, ts, sizes, 9);
  }

  // ---- After a silence

  // Bytes of the unbroken stretch of reads of one file, whichever, that ends with read k - 1.
  function LastStretch(xs: seq<FileRead>, k: nat): nat
    requires k <= |xs|
  {
    if k == 0 then 0
    else xs[k - 1].n + if k > 1 && xs[k - 2].file == xs[k - 1].file then LastStretch(xs, k - 1) else 0
  }

  // Nothing is known about the radio but the stretch it is reading.
  ghost predicate Wondering(d: Detector, xs: seq<FileRead>, k: nat)
    requires 0 < k <= |xs|
  {
    !d.anchored && d.candidate == xs[k - 1].file && d.candidateBytes == LastStretch(xs, k)
  }

  lemma WonderStep(d: Detector, xs: seq<FileRead>, now: Millis, sizes: seq<nat>, k: nat)
    requires d.current < |sizes| && k < |xs|
    requires if k == 0 then IsIdle(d, now) else Wondering(d, xs, k) && !IsIdle(d, now)
    ensures var (d', r) := Note(d, xs[k], now, sizes);
            && r == Nothing
            && (if LastStretch(xs, k + 1) < 16384 then Wondering(d', xs, k + 1) else Settled(d', xs[k].file))
  {}

  lemma IdleIs(d: Detector, now: Millis)
    ensures IsIdle(d, now) <==> !d.anyRead || Elapsed(d.lastMs, now) > 3000
  {}

  // After more than three seconds of silence, or before any read, the detector settles, without a
  // word, on the first file of which 16,384 bytes have been read in one stretch, and not before.
  lemma {:induction false} SettlesExactly(d: Detector, xs: seq<FileRead>, ts: seq<Millis>, sizes: seq<nat>, k: nat)
    requires d.current < |sizes| && OnDisk(xs, ts, sizes) && 0 < k <= |xs|
    requires !d.anyRead || Elapsed(d.lastMs, ts[0]) > 3000
    requires forall i :: 0 < i < |ts| ==> Elapsed(ts[i - 1], ts[i]) <= 3000
    requires forall j :: 0 <= j < k ==> LastStretch(xs, j) < 16384
    ensures var d' := After(d, xs, ts, sizes, k);
            && Heard(d, xs, ts, sizes, k) == []
            && (if LastStretch(xs, k) < 16384 then Wondering(d', xs, k) else Settled(d', xs[k - 1].file))
  {
    hide Note, IsIdle, Settled;
    var before := After(d, xs, ts, sizes, k - 1);
    if k == 1 {
      NoReadsYet(d, xs, ts, sizes);
      IdleIs(d, ts[0]);
    } else {
      SettlesExactly(d, xs, ts, sizes, k - 1);
      SeenLast(d, xs, ts, sizes, k - 1);
    }
    WonderStep(before, xs, ts[k - 1], sizes, k - 1);
    Unroll(d, xs, ts, sizes, k);
  }

  lemma NoReadsYet(d: Detector, xs: seq<FileRead>, ts: seq<Millis>, sizes: seq<nat>)
    requires d.current < |sizes| && OnDisk(xs, ts, sizes)
    ensures After(d, xs, ts, sizes, 0) == d && Heard(d, xs, ts, sizes, 0) == []
  {}

  lemma SeenLast(d: Detector, xs: seq<FileRead>, ts: seq<Millis>, sizes: seq<nat>, k: nat)
    requires d.current < |sizes| && OnDisk(xs, ts, sizes) && 0 < k < |xs|
    requires forall i :: 0 < i < |ts| ==> Elapsed(ts[i - 1], ts[i]) <= 3000
    ensures !IsIdle(After(d, xs, ts, sizes, k), ts[k])
  {
    hide Note;
    assert Elapsed(ts[k - 1], ts[k]) <= 3000;
    NoteSees(After(d, xs, ts, sizes, k - 1), xs[k - 1], ts[k - 1], sizes);
    Unroll(d, xs, ts, sizes, k);
  }
}
