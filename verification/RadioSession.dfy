// The radio's reads, button by button, and what the detector relays for them.
module RadioSession {
  import opened Clock
  import opened FileSwitch

  const READ_BYTES: nat := 2048
  const PROBE_STRIDE: nat := 512 * 1024
  const HEAD_BYTES: nat := 40 * 1024

  // ---- The read pattern

  // A probe at the end of every stride.
  function Probes(off: nat, size: nat): seq<nat>
    decreases if off < size then size - off else 0
  {
    if off >= size then [] else [off] + Probes(off + PROBE_STRIDE, size)
  }

  function HeadEnd(size: nat): nat { if size < HEAD_BYTES then size else HEAD_BYTES }

  // Sequential reads of the first n * READ_BYTES bytes.
  function Heads(n: nat): (offs: seq<nat>)
    ensures |offs| == n
    ensures forall i :: 0 <= i < n ==> offs[i] == i * READ_BYTES
  {
    if n == 0 then [] else Heads(n - 1) + [(n - 1) * READ_BYTES]
  }

  // Opening a file: its start, the probes, its tail, and the head again.
  function OpenOffsets(size: nat): seq<nat>
  {
    [0] + Probes(PROBE_STRIDE - READ_BYTES, size) + [if size >= READ_BYTES then size - READ_BYTES else 0]
    + Heads(HeadEnd(size) / READ_BYTES)
  }

  function ReadsAt(file: nat, offs: seq<nat>): (xs: seq<FileRead>)
    ensures |xs| == |offs|
    ensures forall i :: 0 <= i < |xs| ==> xs[i] == FileRead(file, offs[i], READ_BYTES)
  {
    if |offs| == 0 then [] else ReadsAt(file, offs[..|offs| - 1]) + [FileRead(file, offs[|offs| - 1], READ_BYTES)]
  }

  // ---- Listening to a sequence of reads

  // The detector after the first k reads, and what it has relayed by then.
  function After(d: Detector, xs: seq<FileRead>, ts: seq<Millis>, sizes: seq<nat>, k: nat): (d': Detector)
    requires d.current < |sizes| && k <= |xs| == |ts|
    requires forall i :: 0 <= i < |xs| ==> xs[i].file < |sizes|
    ensures d'.current < |sizes|
  {
    if k == 0 then d else Note(After(d, xs, ts, sizes, k - 1), xs[k - 1], ts[k - 1], sizes).0
  }

  function Heard(d: Detector, xs: seq<FileRead>, ts: seq<Millis>, sizes: seq<nat>, k: nat): seq<Relay>
    requires d.current < |sizes| && k <= |xs| == |ts|
    requires forall i :: 0 <= i < |xs| ==> xs[i].file < |sizes|
  {
    if k == 0 then []
    else
      var r := Note(After(d, xs, ts, sizes, k - 1), xs[k - 1], ts[k - 1], sizes).1;
      Heard(d, xs, ts, sizes, k - 1) + if r == Nothing then [] else [r]
  }

  // All reads are of file g, each of one block, without long gaps between them.
  ghost predicate OneFile(xs: seq<FileRead>, ts: seq<Millis>, g: nat)
  {
    && |xs| == |ts|
    && (forall i :: 0 <= i < |xs| ==> xs[i].file == g && xs[i].n == READ_BYTES)
    && (forall i :: 0 < i < |ts| ==> Elapsed(ts[i - 1], ts[i]) <= READER_IDLE_RESET_MS)
  }

  // Reads until a switch counts.
  const DEBOUNCE_READS: nat := SWITCH_DEBOUNCE_BYTES / READ_BYTES

  lemma NoteSees(d: Detector, x: FileRead, now: Millis, sizes: seq<nat>)
    requires d.current < |sizes|
    ensures var d' := Note(d, x, now, sizes).0;
            && d'.anyRead && d'.lastMs == now && d'.lastFile == x.file && d'.lastEnd == x.off + x.n
            && d'.mountMs == d.mountMs && (d'.mountQuiet ==> d.mountQuiet)
  {}

  lemma {:induction false} LastSeen(d: Detector, xs: seq<FileRead>, ts: seq<Millis>, sizes: seq<nat>, g: nat, k: nat)
    requires d.current < |sizes| && g < |sizes| && OneFile(xs, ts, g) && 0 < k <= |xs|
    ensures var d' := After(d, xs, ts, sizes, k);
            && d'.anyRead && d'.lastMs == ts[k - 1] && d'.lastFile == g
            && d'.lastEnd == xs[k - 1].off + READ_BYTES
            && d'.mountMs == d.mountMs && (d'.mountQuiet ==> d.mountQuiet)
            && (k < |xs| ==> !IsIdle(d', ts[k]))
  {
    hide Note;
    if k > 1 { LastSeen(d, xs, ts, sizes, g, k - 1); }
    NoteSees(After(d, xs, ts, sizes, k - 1), xs[k - 1], ts[k - 1], sizes);
  }

  // ---- One read, seen from the file it is on

  // Settled on file f: the detector knows the radio is on it.
  predicate Settled(d: Detector, f: nat)
  {
    d.anchored && d.current == f && d.candidateBytes == 0
  }

  // Settled on f, with k blocks of another file g seen since.
  predicate Leaving(d: Detector, f: nat, g: nat, k: nat)
  {
    d.anchored && d.current == f && (k > 0 ==> d.candidate == g) && d.candidateBytes == k * READ_BYTES
  }

  // Nothing is known about the radio, but at least k blocks of g have been seen.
  predicate Arriving(d: Detector, g: nat, k: nat)
  {
    !d.anchored && (k > 0 ==> d.candidate == g && d.candidateBytes >= k * READ_BYTES)
  }

  lemma StaysOn(d: Detector, x: FileRead, now: Millis, sizes: seq<nat>)
    requires d.current < |sizes| && Settled(d, x.file) && !IsIdle(d, now)
    ensures var (d', r) := Note(d, x, now, sizes);
            && Settled(d', x.file) && r == Nothing && d'.mountQuiet == d.mountQuiet
            && d'.currentEnd == if IsPlayback(d, x) then x.off + x.n else d.currentEnd
  {}

  lemma LeavesBit(d: Detector, x: FileRead, now: Millis, sizes: seq<nat>, f: nat, k: nat)
    requires d.current < |sizes| && x.file != f && x.n == READ_BYTES
    requires Leaving(d, f, x.file, k) && !IsIdle(d, now) && k + 1 < DEBOUNCE_READS
    ensures var (d', r) := Note(d, x, now, sizes);
            && Leaving(d', f, x.file, k + 1) && r == Nothing
            && d'.currentEnd == d.currentEnd && d'.mountQuiet == d.mountQuiet
  {}

  // What the detector makes of a change from its current file to g at time `now`.
  function Verdict(d: Detector, g: nat, now: Millis, sizes: seq<nat>): Relay
    requires d.current < |sizes|
  {
    var direction := Direction(d.current, g, |sizes|);
    if (direction == Next && AtEnd(d, sizes)) || Quiet(d, now) then Nothing else direction
  }

  lemma Leaves(d: Detector, x: FileRead, now: Millis, sizes: seq<nat>, f: nat)
    requires d.current < |sizes| && x.file != f && x.n == READ_BYTES
    requires Leaving(d, f, x.file, DEBOUNCE_READS - 1) && !IsIdle(d, now)
    ensures var (d', r) := Note(d, x, now, sizes);
            Settled(d', x.file) && r == Verdict(d, x.file, now, sizes) && d'.mountQuiet == Quiet(d, now)
  {}

  lemma ArrivesBit(d: Detector, x: FileRead, now: Millis, sizes: seq<nat>, k: nat)
    requires d.current < |sizes| && x.n == READ_BYTES
    requires IsIdle(d, now) || Arriving(d, x.file, k) || !d.anchored
    ensures var (d', r) := Note(d, x, now, sizes);
            var seen := if !IsIdle(d, now) && Arriving(d, x.file, k) then k + 1 else 1;
            && r == Nothing && d'.mountQuiet == d.mountQuiet
            && (Settled(d', x.file) || (seen < DEBOUNCE_READS && Arriving(d', x.file, seen)))
  {}

  // ---- A stretch of reads on one file

  lemma {:induction false} ChainOn(d: Detector, xs: seq<FileRead>, ts: seq<Millis>, sizes: seq<nat>, g: nat, k: nat)
    requires d.current < |sizes| && g < |sizes| && OneFile(xs, ts, g) && k <= |xs|
    requires Settled(d, g) && (k > 0 ==> !IsIdle(d, ts[0]))
    ensures Settled(After(d, xs, ts, sizes, k), g) && Heard(d, xs, ts, sizes, k) == []
    ensures After(d, xs, ts, sizes, k).mountQuiet == d.mountQuiet
  {
    hide Note, Settled, IsIdle;
    if k > 0 {
      ChainOn(d, xs, ts, sizes, g, k - 1);
      if k > 1 { LastSeen(d, xs, ts, sizes, g, k - 1); }
      StaysOn(After(d, xs, ts, sizes, k - 1), xs[k - 1], ts[k - 1], sizes);
    }
  }

  lemma {:induction false} ChainLeaving(d: Detector, xs: seq<FileRead>, ts: seq<Millis>, sizes: seq<nat>,
      f: nat, g: nat, k: nat)
    requires d.current < |sizes| && g < |sizes| && OneFile(xs, ts, g) && k <= |xs| && k < DEBOUNCE_READS
    requires Settled(d, f) && f != g && (k > 0 ==> !IsIdle(d, ts[0]))
    ensures var d' := After(d, xs, ts, sizes, k);
            && Leaving(d', f, g, k) && d'.currentEnd == d.currentEnd && d'.mountQuiet == d.mountQuiet
            && Heard(d, xs, ts, sizes, k) == []
  {
    hide Note, IsIdle;
    if k > 0 {
      ChainLeaving(d, xs, ts, sizes, f, g, k - 1);
      if k > 1 { LastSeen(d, xs, ts, sizes, g, k - 1); }
      LeavesBit(After(d, xs, ts, sizes, k - 1), xs[k - 1], ts[k - 1], sizes, f, k - 1);
    }
  }

  function Once(r: Relay): seq<Relay> { if r == Nothing then [] else [r] }

  lemma Unroll(d: Detector, xs: seq<FileRead>, ts: seq<Millis>, sizes: seq<nat>, k: nat)
    requires d.current < |sizes| && 0 < k <= |xs| == |ts|
    requires forall i :: 0 <= i < |xs| ==> xs[i].file < |sizes|
    ensures After(d, xs, ts, sizes, k) == Note(After(d, xs, ts, sizes, k - 1), xs[k - 1], ts[k - 1], sizes).0
    ensures Heard(d, xs, ts, sizes, k)
            == Heard(d, xs, ts, sizes, k - 1)
               + Once(Note(After(d, xs, ts, sizes, k - 1), xs[k - 1], ts[k - 1], sizes).1)
  {
    hide Note;
  }

  lemma LastRead(xs: seq<FileRead>, ts: seq<Millis>, g: nat, k: nat)
    requires OneFile(xs, ts, g) && 0 < k <= |xs|
    ensures |ts| == |xs| && xs[k - 1].file == g && xs[k - 1].n == READ_BYTES
    ensures forall i :: 0 <= i < |xs| ==> xs[i].file == g
  {}

  lemma AddNothing(rs: seq<Relay>)
    ensures rs + Once(Nothing) == rs
  {}

  // The verdict only depends on where the radio was, how far it had played, and the mount.
  lemma SameVerdict(d: Detector, d': Detector, f: nat, g: nat, now: Millis, sizes: seq<nat>)
    requires d.current < |sizes| && d'.current < |sizes| && Settled(d, f) && Leaving(d', f, g, DEBOUNCE_READS - 1)
    requires d'.currentEnd == d.currentEnd && d'.mountMs == d.mountMs && d'.mountQuiet == d.mountQuiet
    ensures Verdict(d', g, now, sizes) == Verdict(d, g, now, sizes) && Quiet(d', now) == Quiet(d, now)
  {}

  lemma {:induction false} ChainLeft(d: Detector, xs: seq<FileRead>, ts: seq<Millis>, sizes: seq<nat>,
      f: nat, g: nat, k: nat)
    requires d.current < |sizes| && g < |sizes| && OneFile(xs, ts, g) && DEBOUNCE_READS <= k <= |xs|
    requires Settled(d, f) && f != g && !IsIdle(d, ts[0])
    ensures Settled(After(d, xs, ts, sizes, k), g)
    ensures After(d, xs, ts, sizes, k).mountQuiet == Quiet(d, ts[DEBOUNCE_READS - 1])
    ensures Heard(d, xs, ts, sizes, k) == Once(Verdict(d, g, ts[DEBOUNCE_READS - 1], sizes))
  {
    hide After, Heard, Note, IsIdle, Direction, Verdict, Settled, OneFile, Once, Quiet, Leaving;
    LastRead(xs, ts, g, k);
    var d' := After(d, xs, ts, sizes, k - 1);
    Unroll(d, xs, ts, sizes, k);
    LastSeen(d, xs, ts, sizes, g, k - 1);
    if k == DEBOUNCE_READS {
      ChainLeaving(d, xs, ts, sizes, f, g, k - 1);
      Leaves(d', xs[k - 1], ts[k - 1], sizes, f);
      SameVerdict(d, d', f, g, ts[k - 1], sizes);
    } else {
      ChainLeft(d, xs, ts, sizes, f, g, k - 1);
      StaysOn(d', xs[k - 1], ts[k - 1], sizes);
      AddNothing(Heard(d, xs, ts, sizes, k - 1));
    }
  }

  lemma {:induction false} ChainArriving(d: Detector, xs: seq<FileRead>, ts: seq<Millis>, sizes: seq<nat>,
      g: nat, k: nat)
    requires d.current < |sizes| && g < |sizes| && OneFile(xs, ts, g) && 0 < k <= |xs|
    requires IsIdle(d, ts[0]) || !d.anchored
    ensures var d' := After(d, xs, ts, sizes, k);
            (Settled(d', g) || (k < DEBOUNCE_READS && Arriving(d', g, k))) && d'.mountQuiet == d.mountQuiet
    ensures Heard(d, xs, ts, sizes, k) == []
  {
    hide Note, IsIdle;
    var d' := After(d, xs, ts, sizes, k - 1);
    if k == 1 {
      ArrivesBit(d', xs[0], ts[0], sizes, 0);
    } else {
      ChainArriving(d, xs, ts, sizes, g, k - 1);
      LastSeen(d, xs, ts, sizes, g, k - 1);
      if Settled(d', g) {
        StaysOn(d', xs[k - 1], ts[k - 1], sizes);
      } else {
        ArrivesBit(d', xs[k - 1], ts[k - 1], sizes, k - 1);
      }
    }
  }

  lemma PlaysOn(d: Detector, x: FileRead, now: Millis, sizes: seq<nat>)
    requires d.current < |sizes| && Settled(d, x.file) && !IsIdle(d, now)
    requires d.lastFile == x.file && d.lastEnd == x.off
    ensures Note(d, x, now, sizes).0.currentEnd == x.off + x.n
  {}

  // A read that goes on where the one before it ended moves playback to its own end.
  lemma LastPlayback(d: Detector, xs: seq<FileRead>, ts: seq<Millis>, sizes: seq<nat>, g: nat, n: nat)
    requires d.current < |sizes| && g < |sizes| && OneFile(xs, ts, g) && 0 < n < |xs|
    requires Settled(After(d, xs, ts, sizes, n), g)
    requires xs[n].off == xs[n - 1].off + READ_BYTES
    ensures After(d, xs, ts, sizes, n + 1).currentEnd == xs[n].off + READ_BYTES
  {
    hide After, Note, Settled, IsIdle, Once, Heard;
    LastSeen(d, xs, ts, sizes, g, n);
    var d' := After(d, xs, ts, sizes, n);
    assert xs[n].file == g && xs[n].n == READ_BYTES;
    PlaysOn(d', xs[n], ts[n], sizes);
    Unroll(d, xs, ts, sizes, n + 1);
  }

  // ---- Opening a file

  predicate SizeOk(size: nat) { size % READ_BYTES == 0 && size >= SWITCH_DEBOUNCE_BYTES }

  lemma OpenShape(size: nat)
    requires SizeOk(size)
    ensures var offs := OpenOffsets(size);
            && |offs| > DEBOUNCE_READS
            && offs[|offs| - 1] + READ_BYTES == HeadEnd(size)
            && offs[|offs| - 1] == offs[|offs| - 2] + READ_BYTES
  {
    var heads := Heads(HeadEnd(size) / READ_BYTES);
    var offs := OpenOffsets(size);
    assert |heads| >= 8;
    assert offs[|offs| - 1] == heads[|heads| - 1] && offs[|offs| - 2] == heads[|heads| - 2];
  }

  lemma OpenReads(xs: seq<FileRead>, size: nat, g: nat)
    requires SizeOk(size) && xs == ReadsAt(g, OpenOffsets(size))
    ensures |xs| > DEBOUNCE_READS
    ensures xs[|xs| - 1].off + READ_BYTES == HeadEnd(size)
    ensures xs[|xs| - 1].off == xs[|xs| - 2].off + READ_BYTES
  {
    hide OpenOffsets, HeadEnd;
    OpenShape(size);
  }

  // What a detector makes of a stretch of reads of file g starting at `first`: nothing when it
  // did not know where the radio was, or knew it was there already.
  function Opened(d: Detector, g: nat, first: Millis, switched: Millis, sizes: seq<nat>): seq<Relay>
    requires d.current < |sizes|
  {
    if IsIdle(d, first) || !d.anchored || d.current == g then [] else Once(Verdict(d, g, switched, sizes))
  }

  // The quiet time after a mount ends with the first switch that comes later.
  predicate QuietAfter(d: Detector, g: nat, first: Millis, switched: Millis)
  {
    if IsIdle(d, first) || !d.anchored || d.current == g then d.mountQuiet else Quiet(d, switched)
  }

  lemma Stretch(d: Detector, xs: seq<FileRead>, ts: seq<Millis>, sizes: seq<nat>, g: nat, k: nat)
    requires d.current < |sizes| && g < |sizes| && OneFile(xs, ts, g) && DEBOUNCE_READS <= k <= |xs|
    requires d.anchored ==> d.candidateBytes == 0
    ensures Settled(After(d, xs, ts, sizes, k), g)
    ensures After(d, xs, ts, sizes, k).mountQuiet == QuietAfter(d, g, ts[0], ts[DEBOUNCE_READS - 1])
    ensures Heard(d, xs, ts, sizes, k) == Opened(d, g, ts[0], ts[DEBOUNCE_READS - 1], sizes)
  {
    hide IsIdle, Direction, Note, After, Heard, Verdict, Quiet, OneFile, Once;
    LastRead(xs, ts, g, k);
    if IsIdle(d, ts[0]) || !d.anchored {
      ChainArriving(d, xs, ts, sizes, g, k);
    } else if d.current == g {
      ChainOn(d, xs, ts, sizes, g, k);
    } else {
      ChainLeft(d, xs, ts, sizes, d.current, g, k);
    }
  }

  // What an open leaves behind: the detector settled on the file, playback at the end of the
  // head, and at most one press relayed.
  lemma OpenHeard(d: Detector, xs: seq<FileRead>, ts: seq<Millis>, sizes: seq<nat>, g: nat)
    requires d.current < |sizes| && g < |sizes| && SizeOk(sizes[g])
    requires xs == ReadsAt(g, OpenOffsets(sizes[g])) && OneFile(xs, ts, g)
    requires d.anchored ==> d.candidateBytes == 0
    ensures |xs| > DEBOUNCE_READS
    ensures Settled(After(d, xs, ts, sizes, |xs|), g)
    ensures After(d, xs, ts, sizes, |xs|).mountQuiet == QuietAfter(d, g, ts[0], ts[DEBOUNCE_READS - 1])
    ensures After(d, xs, ts, sizes, |xs|).currentEnd == HeadEnd(sizes[g])
    ensures Heard(d, xs, ts, sizes, |xs|) == Opened(d, g, ts[0], ts[DEBOUNCE_READS - 1], sizes)
  {
    hide OpenOffsets, SizeOk, Settled, Opened, QuietAfter, ReadsAt, After, Heard, OneFile, HeadEnd, Note;
    OpenReads(xs, sizes[g], g);
    HeadHeard(d, xs, ts, sizes, g);
  }

  // The same for any stretch that ends with two blocks in a row.
  lemma HeadHeard(d: Detector, xs: seq<FileRead>, ts: seq<Millis>, sizes: seq<nat>, g: nat)
    requires d.current < |sizes| && g < |sizes| && OneFile(xs, ts, g) && |xs| > DEBOUNCE_READS
    requires d.anchored ==> d.candidateBytes == 0
    requires xs[|xs| - 1].off == xs[|xs| - 2].off + READ_BYTES
    ensures Settled(After(d, xs, ts, sizes, |xs|), g)
    ensures After(d, xs, ts, sizes, |xs|).mountQuiet == QuietAfter(d, g, ts[0], ts[DEBOUNCE_READS - 1])
    ensures After(d, xs, ts, sizes, |xs|).currentEnd == xs[|xs| - 1].off + READ_BYTES
    ensures Heard(d, xs, ts, sizes, |xs|) == Opened(d, g, ts[0], ts[DEBOUNCE_READS - 1], sizes)
  {
    hide Settled, Opened, QuietAfter, After, Heard, Note, Quiet, IsIdle, Verdict;
    Stretch(d, xs, ts, sizes, g, |xs|);
    StretchEnd(d, xs, ts, sizes, g, |xs|);
  }

  lemma StretchEnd(d: Detector, xs: seq<FileRead>, ts: seq<Millis>, sizes: seq<nat>, g: nat, k: nat)
    requires d.current < |sizes| && g < |sizes| && OneFile(xs, ts, g) && DEBOUNCE_READS < k <= |xs|
    requires d.anchored ==> d.candidateBytes == 0
    requires xs[k - 1].off == xs[k - 2].off + READ_BYTES
    ensures After(d, xs, ts, sizes, k).currentEnd == xs[k - 1].off + READ_BYTES
  {
    hide Settled, Opened, QuietAfter, After, Heard;
    Stretch(d, xs, ts, sizes, g, k - 1);
    LastPlayback(d, xs, ts, sizes, g, k - 1);
  }
}
