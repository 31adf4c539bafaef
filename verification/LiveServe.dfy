// Serving the live ring to the radio: where the cursor is placed when a file is opened, when
// it jumps, when silence is served instead, and how it moves on.
module LiveServe {
  import opened Bytes
  import opened Clock
  import opened LiveRing
  import FileSwitch

  const SAFETY_MARGIN: nat := 4096
  const CATCHUP_THRESHOLD: nat := 2 * 4096
  const TARGET_LAG: nat := 3 * 4096
  const READAHEAD: nat := 60 * 1024
  const REREAD_WINDOW_MS: nat := 10000
  const REREAD_MAX_OFF: nat := 128 * 1024
  const OPEN_GRACE: nat := 2 * READAHEAD
  const BRIDGE_BYTES: nat := 8000
  const LOOP_START: nat := 417

  // Furthest back a newly opened file is placed.
  const MAX_OPEN_LAG: nat := TARGET_LAG + READAHEAD + CATCHUP_THRESHOLD
  // No lap is shorter than this, so every placement and every read fits in one.
  const MIN_LAP: nat := MAX_OPEN_LAG + SAFETY_MARGIN
  // The longest read.
  const MAX_READ: nat := MAX_OPEN_LAG
  const JUMP_LIMIT: nat := TARGET_LAG + CATCHUP_THRESHOLD

  datatype Live = Live(
    cursor: nat, init: bool, underrun: bool, bridge: nat, silenceOff: nat,
    openFile: nat, openBase: nat, openMs: nat, openMaxOff: nat, maxLag: nat, grace: nat,
    opens: nat, jumps: nat, underruns: nat, probes: nat)

  const Idle: Live := Live(0, false, false, 0, LOOP_START, FileSwitch.NO_FILE, 0, 0, 0, 0, 0, 0, 0, 0, 0)

  // One read of a file's data region. `playback`: at offset 0 or continuing the read before.
  // `afterEnd`: the file left behind had been read to its end.
  datatype Req = Req(file: nat, off: nat, n: nat, playback: bool, afterEnd: bool, now: nat)

  // What the buffer gets: nothing (zeros), silence, or a stretch of the ring from `start`,
  // `behind` bytes before the live edge, its first `overlay` bytes replaced by silence. A stale
  // tail is such a stretch from beyond the end of the logical ring; it may even run on past the
  // ring's memory.
  datatype Outcome =
    | TooEarly
    | Probe
    | Underrun(behind: nat)
    | FromRing(start: nat, behind: nat, overlay: nat)
    | StaleTail(start: nat, behind: nat, overlay: nat)
    | PastMemory(start: nat, behind: nat, overlay: nat)

  // Copies from beyond the logical ring.
  predicate Strayed(o: Outcome) { o.StaleTail? || o.PastMemory? }

  predicate RingFits(r: Ring)
  {
    MIN_LAP <= r.lapEnd <= Size(r) && r.wp <= Size(r) && r.total <= Size(r) && Size(r) + MAX_READ < WORD
  }

  lemma AppendFits(r: Ring, data: seq<Byte>)
    requires RingFits(r) && (|data| + MIN_LAP <= Size(r) || Size(r) <= |data|)
    ensures RingFits(Appended(r, data))
  {
    hide WriteAt;
  }

  function SafeLen(r: Ring, n: nat): nat { if n < r.total then n else r.total }

  predicate Usable(r: Ring, n: nat)
  {
    SafeLen(r, n) > 0 && r.total > SAFETY_MARGIN + SafeLen(r, n)
  }

  // How far the cursor is behind the live edge, in the 32 bits it is computed in.
  function Lag(cursor: nat, r: Ring): (b: nat)
    requires RingFits(r)
    ensures OnRing(cursor, r) ==> b == Behind(cursor, r.wp, r.lapEnd)
  {
    Behind(cursor, r.wp, r.lapEnd) % WORD
  }

  function Back(pos: nat, k: nat, r: Ring): (cursor: nat)
    requires RingFits(r) && k <= MIN_LAP && OnRing(pos, r)
    ensures OnRing(cursor, r)
  {
    RingBack(pos, k, r.lapEnd)
  }

  // ---- Opening a file

  predicate IsOpen(q: Req) { q.playback && q.off == 0 }

  predicate IsReread(l: Live, q: Req)
  {
    q.file == l.openFile && (q.now - l.openMs) % WORD < REREAD_WINDOW_MS && l.openMaxOff <= REREAD_MAX_OFF
  }

  // The start of a newly opened file before it is checked against what has been written:
  // where playback left off after a natural end, else one read-ahead earlier, and never
  // further back than the open limit.
  function WantedBase(l: Live, r: Ring, q: Req): (base: nat)
    requires RingFits(r)
    ensures OnRing(base, r) && Lag(base, r) <= MAX_OPEN_LAG
  {
    var c := if l.init then Normal(l.cursor, r) else Back(r.wp, TARGET_LAG, r);
    var base := if q.afterEnd then c else Back(c, READAHEAD, r);
    if !l.init || Lag(base, r) > MAX_OPEN_LAG then Back(r.wp, TARGET_LAG + READAHEAD, r) else base
  }

  function OpenBase(l: Live, r: Ring, q: Req): (base: nat)
    requires RingFits(r)
    ensures OnRing(base, r)
  {
    var base := WantedBase(l, r, q);
    var maxBack := if r.total > SAFETY_MARGIN then r.total - SAFETY_MARGIN else 0;
    if Lag(base, r) > maxBack then Back(r.wp, maxBack, r) else base
  }

  // The start of the open file is read again after the end of the logical ring has moved to
  // before it.
  predicate OffRing(l: Live, r: Ring, q: Req)
  {
    IsOpen(q) && IsReread(l, q) && !OnRing(l.openBase, r)
  }

  // The state a read starts from: the cursor on the logical ring, and placed anew by a read at
  // offset 0. The remembered start of the open file is taken as it is.
  function Placed(l: Live, r: Ring, q: Req): (l': Live)
    requires RingFits(r)
    ensures if OffRing(l, r, q) then l'.cursor == l.openBase else OnRing(l'.cursor, r)
  {
    var c := l.(cursor := Normal(l.cursor, r));
    if !IsOpen(q) then c
    else
      var o := if IsReread(l, q) then c.(cursor := l.openBase)
               else var base := OpenBase(l, r, q);
                    c.(cursor := base, openBase := base, openFile := q.file, openMs := q.now,
                       openMaxOff := 0, opens := l.opens + 1);
      o.(init := true, underrun := false, bridge := 0,
         maxLag := (Lag(o.cursor, r) + CATCHUP_THRESHOLD) % WORD, grace := OPEN_GRACE)
  }

  // ---- Catching up

  // The lag a read tolerates: more than usual while an open is being played in.
  function Tolerance(l: Live, r: Ring): nat
    requires RingFits(r)
  {
    if l.maxLag != 0 && Lag(l.cursor, r) > JUMP_LIMIT && l.grace != 0 then l.maxLag else JUMP_LIMIT
  }

  predicate NeedsJump(l: Live, r: Ring)
    requires RingFits(r)
  {
    !l.init || Lag(l.cursor, r) > Tolerance(l, r)
  }

  function JumpLag(n: nat): nat { if TARGET_LAG > n then TARGET_LAG else n }

  // The state and the lag a read goes on with.
  function Caught(l: Live, r: Ring, n: nat): (p: (Live, nat))
    requires RingFits(r) && n <= MAX_READ
    ensures if NeedsJump(l, r) then OnRing(p.0.cursor, r) else p.0.cursor == l.cursor
  {
    var settled := if l.init && (Lag(l.cursor, r) <= JUMP_LIMIT || l.grace == 0) then l.(maxLag := 0) else l;
    if NeedsJump(l, r) then
      (settled.(cursor := Back(r.wp, JumpLag(n), r), init := true, underrun := false,
                bridge := BRIDGE_BYTES, silenceOff := LOOP_START,
                jumps := l.jumps + if l.init then 1 else 0),
       JumpLag(n))
    else (settled, Lag(l.cursor, r))
  }

  // ---- Serving

  predicate Underruns(l: Live, behind: nat, n: nat)
  {
    behind < n || (l.underrun && behind < TARGET_LAG)
  }

  // The silence loop: one byte further, from the end back to the first independent frame.
  function SilenceNext(off: nat, silence: seq<Byte>): (r: nat)
    requires LOOP_START < |silence| && off < |silence|
    ensures r < |silence|
  {
    if off + 1 >= |silence| then LOOP_START else off + 1
  }

  function SilenceOff(off: nat, n: nat, silence: seq<Byte>): (r: nat)
    requires LOOP_START < |silence| && off < |silence|
    ensures r < |silence|
  {
    if n == 0 then off else SilenceNext(SilenceOff(off, n - 1, silence), silence)
  }

  function Silence(off: nat, n: nat, silence: seq<Byte>): (s: seq<Byte>)
    requires LOOP_START < |silence| && off < |silence|
    ensures |s| == n
  {
    if n == 0 then [] else Silence(off, n - 1, silence) + [silence[SilenceOff(off, n - 1, silence)]]
  }

  function SilentLive(l: Live): Live
  {
    if l.underrun then l else l.(underrun := true, silenceOff := LOOP_START)
  }

  // What a read does, given the cursor and lag it goes on with; n bytes.
  function ServeOutcome(l: Live, behind: nat, r: Ring, n: nat): Outcome
  {
    if Underruns(l, behind, n) then Underrun(behind)
    else if OnRing(l.cursor, r) then FromRing(l.cursor, behind, Min(n, l.bridge))
    else if l.cursor + n <= Size(r) then StaleTail(l.cursor, behind, Min(n, l.bridge))
    else PastMemory(l.cursor, behind, Min(n, l.bridge))
  }

  function Bookkept(l: Live, q: Req, n: nat): Live
  {
    l.(grace := if l.grace > n then l.grace - n else 0,
       openMaxOff := if q.file == l.openFile && q.off + n > l.openMaxOff then q.off + n else l.openMaxOff)
  }

  function Served(l: Live, behind: nat, r: Ring, q: Req, n: nat, silence: seq<Byte>): Live
    requires LOOP_START < |silence| && l.silenceOff < |silence|
  {
    if Underruns(l, behind, n) then
      var s := SilentLive(l);
      Bookkept(s.(silenceOff := SilenceOff(s.silenceOff, n, silence), underruns := l.underruns + 1), q, n)
    else
      var m := Min(n, l.bridge);
      Bookkept(l.(underrun := false, cursor := CursorAfter(r, l.cursor, n),
                  silenceOff := SilenceOff(l.silenceOff, m, silence), bridge := l.bridge - m), q, n)
  }

  // ---- A whole read of at most one lap

  // What holds between any two reads.
  predicate Ready(l: Live, r: Ring, q: Req, silence: seq<Byte>)
  {
    && RingFits(r) && q.n <= MAX_READ && LOOP_START < |silence| && l.silenceOff < |silence|
    && l.openBase <= Size(r)
  }

  function ReadOutcome(l: Live, r: Ring, q: Req): Outcome
    requires RingFits(r) && q.n <= MAX_READ
  {
    if !Usable(r, q.n) then TooEarly
    else if !q.playback then Probe
    else
      var n := SafeLen(r, q.n);
      var p := Caught(Placed(l, r, q), r, n);
      ServeOutcome(p.0, p.1, r, n)
  }

  // The copy stays inside the ring's memory.
  predicate InMemory(l: Live, r: Ring, q: Req)
    requires RingFits(r) && q.n <= MAX_READ
  {
    !ReadOutcome(l, r, q).PastMemory?
  }

  function AfterRead(l: Live, r: Ring, q: Req, silence: seq<Byte>): (l': Live)
    requires Ready(l, r, q, silence)
  {
    if !Usable(r, q.n) then l
    else if !q.playback then l.(probes := l.probes + 1)
    else
      var n := SafeLen(r, q.n);
      var p := Caught(Placed(l, r, q), r, n);
      Served(p.0, p.1, r, q, n, silence)
  }

  // The bytes put into the buffer, before which it was zeroed. When the copy runs past the ring's
  // memory these are the ones that come from inside it; what follows them is not known.
  function ReadBytes(l: Live, r: Ring, q: Req, silence: seq<Byte>): (data: seq<Byte>)
    requires Ready(l, r, q, silence)
    ensures |data| <= if Usable(r, q.n) then SafeLen(r, q.n) else 0
    ensures InMemory(l, r, q) ==> |data| == if Usable(r, q.n) then SafeLen(r, q.n) else 0
  {
    CaughtIsReady(l, r, q, silence);
    if !Usable(r, q.n) then []
    else if !q.playback then Silence(l.silenceOff, SafeLen(r, q.n), silence)
    else
      var n := SafeLen(r, q.n);
      var p := Caught(Placed(l, r, q), r, n);
      ServedBytes(p.0, p.1, r, n, silence)
  }

  function ServedBytes(l: Live, behind: nat, r: Ring, n: nat, silence: seq<Byte>): (data: seq<Byte>)
    requires RingFits(r) && l.cursor <= Size(r)
    requires LOOP_START < |silence| && l.silenceOff < |silence|
    ensures |data| <= n
    ensures Underruns(l, behind, n) || Copyable(r, l.cursor, n) ==> |data| == n
  {
    if Underruns(l, behind, n) then Silence(SilentLive(l).silenceOff, n, silence)
    else
      var m, copy := Min(n, l.bridge), CopyOf(r, l.cursor, n);
      Silence(l.silenceOff, m, silence) + if m <= |copy| then copy[m..] else []
  }

  // The cursor a read goes on with is in the ring's memory and the lag is its own, so a copy from
  // the logical ring stays on it.
  lemma CaughtIsReady(l: Live, r: Ring, q: Req, silence: seq<Byte>)
    requires Ready(l, r, q, silence)
    ensures Usable(r, q.n) && q.playback ==>
              var n := SafeLen(r, q.n);
              var p := Caught(Placed(l, r, q), r, n);
              && p.0.cursor <= Size(r) && Lag(p.0.cursor, r) == p.1 && p.0.silenceOff < |silence|
              && p.0.openBase <= Size(r)
              && (OnRing(p.0.cursor, r) && !Underruns(p.0, p.1, n) ==> Copyable(r, p.0.cursor, n))
  {
    if Usable(r, q.n) && q.playback {
      var p := Placed(l, r, q);
      assert p.silenceOff == l.silenceOff && p.openBase <= Size(r) && p.cursor <= Size(r);
      hide Placed;
      CaughtLag(p, r, SafeLen(r, q.n));
    }
  }

  lemma CaughtLag(l: Live, r: Ring, n: nat)
    requires RingFits(r) && n <= MAX_READ
    ensures var p := Caught(l, r, n);
            && Lag(p.0.cursor, r) == p.1 && p.0.openBase == l.openBase
            && (p.0.silenceOff == l.silenceOff || p.0.silenceOff == LOOP_START)
  {}

  // Only the start of a file that has left the logical ring can be read past the memory.
  lemma StaysInMemory(l: Live, r: Ring, q: Req)
    requires RingFits(r) && q.n <= MAX_READ && !OffRing(l, r, q)
    ensures InMemory(l, r, q) && !Strayed(ReadOutcome(l, r, q))
  {
    hide Lag, OpenBase;
  }

  // ---- The start of the open file once more

  // What reading a file's start again does, wherever it lies by then. On the logical ring the
  // stream is copied from it, or there is an underrun. Beyond the end of the ring the lag is
  // computed in 32 bits: just past the writer's distance the tolerance wraps around and the
  // cursor jumps back to the stream; otherwise bytes beyond the logical ring are copied, or
  // silence is served while too little seems to be left. Such a copy runs past the ring's memory
  // exactly when the start lies less than the read's length before its end.
  lemma RereadOutcome(l: Live, r: Ring, q: Req)
    requires RingFits(r) && q.n <= MAX_READ
    requires Usable(r, q.n) && IsOpen(q) && IsReread(l, q) && l.openBase <= Size(r)
    ensures var (o, b, n) := (ReadOutcome(l, r, q), l.openBase, SafeLen(r, q.n));
            var end := r.lapEnd + r.wp;
            && (o.FromRing? <==> if OnRing(b, r) then n <= Behind(b, r.wp, r.lapEnd)
                                 else end < b <= end + CATCHUP_THRESHOLD)
            && (Strayed(o) <==> !OnRing(b, r) && (b + n <= end || end + CATCHUP_THRESHOLD < b))
            && (Strayed(o) ==> o.start == b && o.overlay == 0 && (o.PastMemory? <==> Size(r) < b + n))
            && (o.FromRing? || Strayed(o) || o.Underrun?)
  {
    var p := Placed(l, r, q);
    assert p.cursor == l.openBase && p.init && !p.underrun && p.bridge == 0 && p.grace == OPEN_GRACE;
    assert p.maxLag == (Lag(l.openBase, r) + CATCHUP_THRESHOLD) % WORD;
    hide Placed, OpenBase;
    if !OnRing(l.openBase, r) {
      OffRingJump(l.openBase, r);
    }
  }

  lemma OffRingJump(b: nat, r: Ring)
    requires RingFits(r) && !OnRing(b, r) && b <= Size(r)
    ensures var end := r.lapEnd + r.wp;
            && Lag(b, r) == (if b <= end then end - b else WORD - (b - end))
            && (Lag(b, r) + CATCHUP_THRESHOLD) % WORD
               == (if b <= end then end - b + CATCHUP_THRESHOLD
                   else if b - end <= CATCHUP_THRESHOLD then CATCHUP_THRESHOLD - (b - end)
                   else WORD - (b - end) + CATCHUP_THRESHOLD)
  {}

  // ---- The silence loop in blocks

  lemma {:induction false} SilenceSplit(off: nat, m: nat, n: nat, silence: seq<Byte>)
    requires LOOP_START < |silence| && off < |silence|
    ensures SilenceOff(off, m + n, silence) == SilenceOff(SilenceOff(off, m, silence), n, silence)
    ensures Silence(off, m + n, silence)
         == Silence(off, m, silence) + Silence(SilenceOff(off, m, silence), n, silence)
  {
    hide SilenceNext;
    if n > 0 { SilenceSplit(off, m, n - 1, silence); }
  }

  lemma {:induction false} SilenceBlock(off: nat, n: nat, silence: seq<Byte>)
    requires LOOP_START < |silence| && off < |silence| && off + n <= |silence|
    ensures Silence(off, n, silence) == silence[off..off + n]
    ensures SilenceOff(off, n, silence) == if off + n >= |silence| then LOOP_START else off + n
  {
    if n > 0 { SilenceBlock(off, n - 1, silence); }
  }
}
