// The live ring under every interleaving of appends and locked reads.
module LiveSession {
  import opened Bytes
  import opened LiveRing
  import opened LiveServe
  import FileSwitch

  // ---- Every placement is on written bytes

  lemma BackLag(k: nat, r: Ring, h: History)
    requires Tracks(r, h) && RingFits(r) && k <= MAX_OPEN_LAG
    ensures Lag(Back(r.wp, k, r), r) == k
    ensures Written(Back(r.wp, k, r), r, h) <==> k <= |h.stream|
  {}

  lemma WrappedIsLong(r: Ring, h: History)
    requires Tracks(r, h) && RingFits(r) && h.wrapped
    ensures r.total >= MIN_LAP
  {}

  // An opened file always starts on written bytes, primed ring or not.
  lemma OpenIsWritten(l: Live, r: Ring, h: History, q: Req)
    requires Tracks(r, h) && RingFits(r) && Usable(r, q.n)
    ensures Written(OpenBase(l, r, q), r, h)
    ensures Lag(OpenBase(l, r, q), r) <= MAX_OPEN_LAG
  {
    var base := WantedBase(l, r, q);
    if h.wrapped {
      WrappedIsLong(r, h);
    } else if Lag(base, r) > r.total - SAFETY_MARGIN {
      BackLag(r.total - SAFETY_MARGIN, r, h);
    }
  }

  // A catch-up jump lands on written bytes exactly when the target lag has been appended.
  lemma JumpIsWritten(r: Ring, h: History, n: nat)
    requires Tracks(r, h) && RingFits(r) && Usable(r, n) && n <= MAX_READ
    ensures var k := JumpLag(SafeLen(r, n));
            Written(Back(r.wp, k, r), r, h) <==> TARGET_LAG <= r.total
  {
    BackLag(JumpLag(SafeLen(r, n)), r, h);
  }

  // A file opened 174 kB into the last stretch of a lap, one shorter lap, and the start once more:
  // what lies beyond the end of the logical ring is served, not the stream.
  lemma StaleReread(cells: seq<Byte>, d1: seq<Byte>, d2: seq<Byte>, d3: seq<Byte>, d4: seq<Byte>, silence: seq<Byte>)
    requires |cells| == 1_000_000 && |silence| == 17135
    requires |d1| == 900_000 && |d2| == 500_000 && |d3| == 300_000 && |d4| == 250_000
    ensures var r1 := Appended(NewRing(cells), d1);
            var first := Req(0, 0, 2048, true, false, 0);
            && Ready(Idle, r1, first, silence)
            && var l := AfterRead(Idle, r1, first, silence);
               var r := Appended(Appended(Appended(r1, d2), d3), d4);
               var again := Req(0, 0, 2048, true, false, 9000);
               && Ready(l, r, again, silence)
               && r.wp == 250_000 && r.lapEnd == 800_000 && l.openBase == 826_272
               && ReadOutcome(l, r, again) == StaleTail(826_272, 223_728, 0)
  {
    hide WriteAt, CursorAfter, SilenceOff;
  }

  // The same with the file opened 1,728 bytes before the end of the ring's memory: the start once
  // more runs 320 bytes past it.
  lemma RereadPastMemory(cells: seq<Byte>, d1: seq<Byte>, d2: seq<Byte>, d3: seq<Byte>, d4: seq<Byte>, d5: seq<Byte>,
                         silence: seq<Byte>)
    requires |cells| == 1_000_000 && |silence| == 17135
    requires |d1| == 900_000 && |d2| == 100_000 && |d3| == 72_000 && |d4| == 800_000 && |d5| == 200_000
    ensures var r1 := Appended(Appended(Appended(NewRing(cells), d1), d2), d3);
            var first := Req(0, 0, 2048, true, false, 0);
            && Ready(Idle, r1, first, silence)
            && var l := AfterRead(Idle, r1, first, silence);
               var r := Appended(Appended(r1, d4), d5);
               var again := Req(0, 0, 2048, true, false, 9000);
               && Ready(l, r, again, silence)
               && ReadOutcome(l, r, again) == PastMemory(998_272, 73_728, 0)
               && 998_272 + 2048 == Size(r) + 320
  {
    hide WriteAt, CursorAfter, SilenceOff;
  }

  // ---- The reader and the writer together

  // The disk, the stream appended so far, and the stream positions of the read cursor and of
  // the start of the open file. A cursor that has strayed off the ring has none: `at` is -1.
  datatype Machine = Machine(r: Ring, h: History, l: Live, at: int, baseAt: int)

  ghost predicate PointsAt(cursor: nat, at: int, r: Ring, h: History)
  {
    0 <= cursor <= at && Points(cursor, at, at - cursor, r, h)
  }

  ghost predicate AliveAt(cursor: nat, at: int, r: Ring, h: History)
  {
    0 <= cursor <= at && Alive(at, at - cursor, r, h)
  }

  ghost predicate CursorInv(m: Machine)
  {
    if m.at >= 0 then PointsAt(m.l.cursor, m.at, m.r, m.h) else m.h.wrapped
  }

  ghost predicate FileInv(m: Machine)
  {
    if m.l.openFile == FileSwitch.NO_FILE then m.l.openBase == 0
    else m.l.openBase <= Size(m.r) && PointsAt(m.l.openBase, m.baseAt, m.r, m.h)
  }

  ghost predicate Inv(m: Machine, silence: seq<Byte>)
  {
    && Tracks(m.r, m.h) && RingFits(m.r)
    && LOOP_START < |silence| && m.l.silenceOff < |silence|
    && (m.l.init ==> CursorInv(m))
    && FileInv(m)
  }

  datatype Action = Append(data: seq<Byte>, unreadProtect: bool) | Read(q: Req)

  // Chunks that leave room for a full-length lap (or replace the whole ring); reads of an
  // existing file from a primed ring.
  ghost predicate Allowed(m: Machine, a: Action)
  {
    match a
    case Append(data, _) => |data| + MIN_LAP <= Size(m.r) || Size(m.r) <= |data|
    case Read(q) =>
      q.n <= MAX_READ && q.file != FileSwitch.NO_FILE && TARGET_LAG <= m.r.total
  }

  // Where the read's bytes start in the stream.
  ghost function StartOf(m: Machine, o: Outcome): int
  {
    match o
    case TooEarly => m.at
    case Probe => m.at
    case Underrun(behind) => |m.h.stream| - behind
    case FromRing(_, behind, _) => |m.h.stream| - behind
    case StaleTail(_, _, _) => -1
    case PastMemory(_, _, _) => -1
  }

  // The read leaves the cursor off the ring.
  ghost predicate Strays(m: Machine, q: Req)
    requires RingFits(m.r) && q.n <= MAX_READ
  {
    Usable(m.r, q.n) && q.playback && !OnRing(Caught(Placed(m.l, m.r, q), m.r, SafeLen(m.r, q.n)).0.cursor, m.r)
  }

  // The bytes copied from the logical ring, before the silence bridge is laid over them.
  ghost function Copied(m: Machine, q: Req, silence: seq<Byte>): (data: seq<Byte>)
    requires Inv(m, silence) && Allowed(m, Read(q))
  {
    match ReadOutcome(m.l, m.r, q)
    case FromRing(start, behind, _) =>
      var n := SafeLen(m.r, q.n);
      CopyFits(m, q, silence);
      ReadFrom(m.r, start, n)
    case _ => []
  }

  lemma CopyFits(m: Machine, q: Req, silence: seq<Byte>)
    requires Inv(m, silence) && Allowed(m, Read(q))
    requires ReadOutcome(m.l, m.r, q).FromRing?
    ensures var FromRing(start, behind, _) := ReadOutcome(m.l, m.r, q);
            var n := SafeLen(m.r, q.n);
            && OnRing(start, m.r) && Written(start, m.r, m.h)
            && Lag(start, m.r) == behind && n <= behind
  {
    CaughtIsWritten(m, q, silence);
  }

  // The cursor a playback read goes on with is on written bytes, and its lag is the true one.
  lemma CaughtIsWritten(m: Machine, q: Req, silence: seq<Byte>)
    requires Inv(m, silence) && Allowed(m, Read(q)) && Usable(m.r, q.n) && q.playback
    ensures var p := Caught(Placed(m.l, m.r, q), m.r, SafeLen(m.r, q.n));
            && (if OnRing(p.0.cursor, m.r) then Written(p.0.cursor, m.r, m.h)
                else OffRing(m.l, m.r, q) && p.0.cursor == m.l.openBase)
            && Lag(p.0.cursor, m.r) == p.1
            && p.0.init
  {
    var n := SafeLen(m.r, q.n);
    BackLag(JumpLag(n), m.r, m.h);
    PlacedIsWritten(m, q, silence);
    hide Placed;
  }

  lemma PlacedIsWritten(m: Machine, q: Req, silence: seq<Byte>)
    requires Inv(m, silence) && Allowed(m, Read(q)) && Usable(m.r, q.n) && q.playback
    ensures var l := Placed(m.l, m.r, q);
            l.init && OnRing(l.cursor, m.r) ==> Written(l.cursor, m.r, m.h)
  {
    if IsOpen(q) && !IsReread(m.l, q) { OpenIsWritten(m.l, m.r, m.h, q); }
    hide OpenBase;
  }

  ghost function Step(m: Machine, a: Action, silence: seq<Byte>): Machine
    requires Inv(m, silence) && Allowed(m, a)
  {
    match a
    case Append(data, protect) =>
      if Refused(m.r, data, protect) then m
      else Machine(Appended(m.r, data), Recorded(m.r, m.h, data), m.l, m.at, m.baseAt)
    case Read(q) =>
      var o := ReadOutcome(m.l, m.r, q);
      var l := AfterRead(m.l, m.r, q, silence);
      var newFile := Usable(m.r, q.n) && IsOpen(q) && !IsReread(m.l, q);
      Machine(m.r, m.h, l, if Strays(m, q) then -1 else StartOf(m, o) + |Copied(m, q, silence)|,
              if newFile then |m.h.stream| - Lag(OpenBase(m.l, m.r, q), m.r) else m.baseAt)
  }

  // ---- Safety

  // Every read that is served from the ring copies exactly the n bytes of the stream that
  // start `behind` bytes before its end.
  lemma ReadIsSafe(m: Machine, q: Req, silence: seq<Byte>)
    requires Inv(m, silence) && Allowed(m, Read(q))
    ensures ReadOutcome(m.l, m.r, q).FromRing? ==>
      var s, n := m.h.stream, SafeLen(m.r, q.n);
      var at := StartOf(m, ReadOutcome(m.l, m.r, q));
      && 0 <= at && at + n <= |s|
      && Copied(m, q, silence) == s[at..at + n]
  {
    hide Inv, Allowed, ReadOutcome, ReadFrom, Copied, Tracks, Behind, Lag;
    Fits(m, q, silence);
    if ReadOutcome(m.l, m.r, q).FromRing? {
      CopiedFromRing(m, q, silence);
      ReadIsStream(m.r, m.h, ReadOutcome(m.l, m.r, q).start, SafeLen(m.r, q.n));
    }
  }

  lemma CopiedFromRing(m: Machine, q: Req, silence: seq<Byte>)
    requires Inv(m, silence) && Allowed(m, Read(q)) && ReadOutcome(m.l, m.r, q).FromRing?
    ensures var (FromRing(start, behind, _), n) := (ReadOutcome(m.l, m.r, q), SafeLen(m.r, q.n));
            && Tracks(m.r, m.h) && RingFits(m.r) && OnRing(start, m.r) && Written(start, m.r, m.h)
            && n <= behind == Behind(start, m.r.wp, m.r.lapEnd)
            && Copied(m, q, silence) == ReadFrom(m.r, start, n)
  {
    hide ReadOutcome, ReadFrom, Tracks, Usable, CursorInv, FileInv;
    CopyFits(m, q, silence);
  }

  lemma AdvancePoints(cursor: nat, n: nat, r: Ring, h: History)
    requires Tracks(r, h) && OnRing(cursor, r) && Written(cursor, r, h)
    requires n <= Behind(cursor, r.wp, r.lapEnd)
    ensures var at := |h.stream| - Behind(cursor, r.wp, r.lapEnd);
            PointsAt(CursorAfter(r, cursor, n), at + n, r, h)
  {
    PlacePoints(cursor, r, h);
  }

  lemma StepInv(m: Machine, a: Action, silence: seq<Byte>)
    requires Inv(m, silence) && Allowed(m, a)
    ensures Inv(Step(m, a, silence), silence)
  {
    match a
    case Append(data, protect) => AppendInv(m, data, protect, silence);
    case Read(q) => ReadInv(m, q, silence);
  }

  lemma AppendInv(m: Machine, data: seq<Byte>, protect: bool, silence: seq<Byte>)
    requires Inv(m, silence) && Allowed(m, Append(data, protect))
    ensures Inv(Step(m, Append(data, protect), silence), silence)
  {
    if !Refused(m.r, data, protect) {
      AppendFits(m.r, data);
      AppendTracks(m.r, m.h, data);
      AppendSizes(m.r, m.h, data);
      if m.l.init && m.at >= 0 { AppendPointsAt(m.l.cursor, m.at, m.r, m.h, data); }
      if m.l.openFile != FileSwitch.NO_FILE { AppendPointsAt(m.l.openBase, m.baseAt, m.r, m.h, data); }
      hide PointsAt, Recorded, Appended, Tracks, RingFits;
    }
  }

  lemma AppendSizes(r: Ring, h: History, data: seq<Byte>)
    requires 0 < Size(r) && r.wp <= Size(r)
    ensures Size(Appended(r, data)) == Size(r) && (h.wrapped ==> Recorded(r, h, data).wrapped)
  {}

  lemma AppendPointsAt(cursor: nat, at: int, r: Ring, h: History, data: seq<Byte>)
    requires Tracks(r, h) && 0 < Size(r) && PointsAt(cursor, at, r, h)
    ensures PointsAt(cursor, at, Appended(r, data), Recorded(r, h, data))
  {
    AppendPoints(cursor, at, at - cursor, r, h, data);
    hide Tracks, Appended, Recorded;
  }

  lemma ReadInv(m: Machine, q: Req, silence: seq<Byte>)
    requires Inv(m, silence) && Allowed(m, Read(q))
    ensures Inv(Step(m, Read(q), silence), silence)
  {
    if Usable(m.r, q.n) && q.playback {
      CaughtIsWritten(m, q, silence);
      BaseInv(m, q, silence);
      var n := SafeLen(m.r, q.n);
      var p := Caught(Placed(m.l, m.r, q), m.r, n);
      ServedKeeps(p.0, p.1, m.r, q, n, silence);
      if Strays(m, q) {
        StrayInv(m, q, silence);
      } else {
        PlayedInv(m, q, silence);
      }
      hide Placed, Caught, Served, PointsAt, Tracks, Strays, Copied, StartOf, OpenBase, Lag;
    }
  }

  // A playback read on the logical ring leaves the cursor on the stream position it has reached.
  lemma PlayedInv(m: Machine, q: Req, silence: seq<Byte>)
    requires Inv(m, silence) && Allowed(m, Read(q)) && Usable(m.r, q.n) && q.playback && !Strays(m, q)
    ensures var n := SafeLen(m.r, q.n);
            var p := Caught(Placed(m.l, m.r, q), m.r, n);
            var at := StartOf(m, ReadOutcome(m.l, m.r, q)) + |Copied(m, q, silence)|;
            && at >= 0
            && PointsAt(if Underruns(p.0, p.1, n) then p.0.cursor else CursorAfter(m.r, p.0.cursor, n), at, m.r, m.h)
  {
    var n := SafeLen(m.r, q.n);
    CaughtIsWritten(m, q, silence);
    var p := Caught(Placed(m.l, m.r, q), m.r, n);
    if !Underruns(p.0, p.1, n) { CopyFits(m, q, silence); }
    hide Placed, Caught, Points, Tracks, FileInv;
    AdvancePoints(p.0.cursor, |Copied(m, q, silence)|, m.r, m.h);
  }

  // A cursor strays only when the start of a file is read again off the ring, which has wrapped.
  lemma StrayInv(m: Machine, q: Req, silence: seq<Byte>)
    requires Inv(m, silence) && Allowed(m, Read(q)) && Strays(m, q)
    ensures OffRing(m.l, m.r, q) && m.h.wrapped
  {
    CaughtIsWritten(m, q, silence);
    hide Placed, Caught, Tracks;
  }

  lemma ServedKeeps(l: Live, behind: nat, r: Ring, q: Req, n: nat, silence: seq<Byte>)
    requires LOOP_START < |silence| && l.silenceOff < |silence|
    ensures var l' := Served(l, behind, r, q, n, silence);
            && l'.openFile == l.openFile && l'.openBase == l.openBase && l'.init == l.init
            && l'.silenceOff < |silence|
            && l'.cursor == if Underruns(l, behind, n) then l.cursor else CursorAfter(r, l.cursor, n)
  {}

  lemma BaseInv(m: Machine, q: Req, silence: seq<Byte>)
    requires Inv(m, silence) && Allowed(m, Read(q)) && Usable(m.r, q.n) && q.playback
    ensures var l := Caught(Placed(m.l, m.r, q), m.r, SafeLen(m.r, q.n)).0;
            var baseAt := Step(m, Read(q), silence).baseAt;
            FileInv(Machine(m.r, m.h, l, 0, baseAt)) && l.silenceOff < |silence|
  {
    var p := Placed(m.l, m.r, q);
    assert p.silenceOff == m.l.silenceOff;
    if IsOpen(q) && !IsReread(m.l, q) {
      OpenIsWritten(m.l, m.r, m.h, q);
      PlacePoints(OpenBase(m.l, m.r, q), m.r, m.h);
      assert p.openFile == q.file && p.openBase == OpenBase(m.l, m.r, q);
    } else {
      assert p.openFile == m.l.openFile && p.openBase == m.l.openBase;
    }
    hide Placed, OpenBase, Points, Tracks, Behind, Copied;
    CaughtKeepsFile(p, m.r, SafeLen(m.r, q.n));
  }

  lemma CaughtKeepsFile(l: Live, r: Ring, n: nat)
    requires RingFits(r) && n <= MAX_READ
    ensures var l' := Caught(l, r, n).0;
            && l'.openFile == l.openFile && l'.openBase == l.openBase
            && (l'.silenceOff == l.silenceOff || l'.silenceOff == LOOP_START)
  {}

  // ---- Continuity

  // Lag of a stored position, once normalised.
  lemma LagExact(cursor: nat, at: int, r: Ring, h: History)
    requires Tracks(r, h) && RingFits(r) && PointsAt(cursor, at, r, h)
    ensures OnRing(Normal(cursor, r), r)
    ensures Lag(Normal(cursor, r), r) == |h.stream| - at <==> AliveAt(cursor, at, r, h)
    ensures OnRing(cursor, r) ==> Lag(cursor, r) == Lag(Normal(cursor, r), r)
  {
    BehindExact(cursor, at, at - cursor, r, h);
  }

  // A playback read that neither opens a file nor jumps.
  ghost predicate GoesOn(m: Machine, q: Req)
    requires RingFits(m.r)
  {
    q.playback && Usable(m.r, q.n) && !IsOpen(q) && m.l.init && !NeedsJump(Placed(m.l, m.r, q), m.r)
  }

  // Such a read takes up the stream exactly where the read before it left off, underruns in
  // between included, if and only if that place has not been lapped.
  lemma ContinuesExactly(m: Machine, q: Req, silence: seq<Byte>)
    requires Inv(m, silence) && Allowed(m, Read(q)) && GoesOn(m, q)
    ensures StartOf(m, ReadOutcome(m.l, m.r, q)) == m.at <==> AliveAt(m.l.cursor, m.at, m.r, m.h)
  {
    if m.at >= 0 {
      LagExact(m.l.cursor, m.at, m.r, m.h);
    } else {
      CaughtIsWritten(m, q, silence);
      PlacePoints(Normal(m.l.cursor, m.r), m.r, m.h);
    }
    hide Tracks, PointsAt, AliveAt;
  }

  // The read that opens a file never jumps: it starts at the base it was given.
  lemma OpenServesBase(m: Machine, q: Req, silence: seq<Byte>)
    requires Inv(m, silence) && Allowed(m, Read(q)) && Usable(m.r, q.n) && IsOpen(q) && !OffRing(m.l, m.r, q)
    ensures var base := Placed(m.l, m.r, q).cursor;
            StartOf(m, ReadOutcome(m.l, m.r, q)) == |m.h.stream| - Lag(base, m.r)
    ensures !NeedsJump(Placed(m.l, m.r, q), m.r)
  {
    hide OpenBase, Tracks, PointsAt;
  }

  // A re-read of the start within the window gives the open file's first bytes again, if and
  // only if they have not been lapped.
  lemma RereadExactly(m: Machine, q: Req, silence: seq<Byte>)
    requires Inv(m, silence) && Allowed(m, Read(q)) && Usable(m.r, q.n) && IsOpen(q) && IsReread(m.l, q)
    ensures StartOf(m, ReadOutcome(m.l, m.r, q)) == m.baseAt
       <==> AliveAt(m.l.openBase, m.baseAt, m.r, m.h)
  {
    if OffRing(m.l, m.r, q) {
      OffRingLapped(m, q, silence);
    } else {
      OpenServesBase(m, q, silence);
      LagExact(m.l.openBase, m.baseAt, m.r, m.h);
      hide Tracks, PointsAt, AliveAt, ReadOutcome, IsReread;
    }
  }

  // A start beyond the end of the logical ring has been lapped, and wherever the stream is
  // taken up instead, it is not there.
  lemma OffRingLapped(m: Machine, q: Req, silence: seq<Byte>)
    requires Inv(m, silence) && Allowed(m, Read(q)) && Usable(m.r, q.n) && OffRing(m.l, m.r, q)
    ensures !AliveAt(m.l.openBase, m.baseAt, m.r, m.h)
    ensures m.h.wrapped && StartOf(m, ReadOutcome(m.l, m.r, q)) != m.baseAt
  {
    RereadOutcome(m.l, m.r, q);
    OffRingStart(m.l, m.r, q);
    assert m.baseAt <= m.h.prevStart;
    hide ReadOutcome, OffRing;
  }

  // A read whose file's start is less than a lap back copies from nowhere but the logical ring.
  lemma RecentStaysOnRing(m: Machine, q: Req, silence: seq<Byte>)
    requires Inv(m, silence) && Allowed(m, Read(q))
    requires IsOpen(q) && IsReread(m.l, q) ==> |m.h.stream| - m.baseAt < m.r.lapEnd
    ensures InMemory(m.l, m.r, q) && !Strayed(ReadOutcome(m.l, m.r, q))
  {
    if IsOpen(q) && IsReread(m.l, q) {
      NotLapped(m.l.openBase, m.baseAt, m.r, m.h);
      if OffRing(m.l, m.r, q) && Usable(m.r, q.n) { OffRingLapped(m, q, silence); }
    }
    if !OffRing(m.l, m.r, q) { StaysInMemory(m.l, m.r, q); }
    hide Tracks, PointsAt, AliveAt, IsReread;
  }

  // How far back the read starts that finds the start of the file off the ring.
  lemma OffRingStart(l: Live, r: Ring, q: Req)
    requires RingFits(r) && q.n <= MAX_READ && Usable(r, q.n) && OffRing(l, r, q) && l.openBase <= Size(r)
    ensures match ReadOutcome(l, r, q)
            case FromRing(_, behind, _) => behind == JumpLag(SafeLen(r, q.n))
            case Underrun(behind) => behind == r.lapEnd + r.wp - l.openBase
            case _ => true
  {
    RereadOutcome(l, r, q);
    OffRingJump(l.openBase, r);
    hide OpenBase;
  }

  // After a file has been played to its end, the next one starts where playback left off, if
  // and only if that place is alive and within the open limits.
  lemma NaturalEndExactly(m: Machine, q: Req, silence: seq<Byte>)
    requires Inv(m, silence) && Allowed(m, Read(q)) && Usable(m.r, q.n)
    requires IsOpen(q) && !IsReread(m.l, q) && q.afterEnd && m.l.init
    requires AliveAt(m.l.cursor, m.at, m.r, m.h)
    ensures StartOf(m, ReadOutcome(m.l, m.r, q)) == m.at
       <==> (var lag := |m.h.stream| - m.at; lag <= MAX_OPEN_LAG && lag <= m.r.total - SAFETY_MARGIN)
  {
    OpenServesBase(m, q, silence);
    LagExact(m.l.cursor, m.at, m.r, m.h);
    BackLag(TARGET_LAG + READAHEAD, m.r, m.h);
    BackLag(Min(m.r.total - SAFETY_MARGIN, MAX_OPEN_LAG), m.r, m.h);
    hide Tracks, PointsAt, AliveAt, ReadOutcome, IsReread, Written;
  }

  // ---- Whole runs

  ghost predicate AllowedRun(m: Machine, actions: seq<Action>, silence: seq<Byte>)
    requires Inv(m, silence)
    decreases |actions|
  {
    |actions| > 0 ==>
      Allowed(m, actions[0]) &&
      (StepInv(m, actions[0], silence); AllowedRun(Step(m, actions[0], silence), actions[1..], silence))
  }

  ghost function RunFrom(m: Machine, actions: seq<Action>, silence: seq<Byte>): (m': Machine)
    requires Inv(m, silence) && AllowedRun(m, actions, silence)
    ensures Inv(m', silence)
    decreases |actions|
  {
    if |actions| == 0 then m
    else StepInv(m, actions[0], silence); RunFrom(Step(m, actions[0], silence), actions[1..], silence)
  }

  // Before the first read the invariant is all about the ring.
  lemma StartInv(r: Ring, h: History, silence: seq<Byte>)
    requires Tracks(r, h) && RingFits(r) && LOOP_START < |silence|
    ensures Inv(Machine(r, h, Idle, 0, 0), silence)
  {}

  // After any run of appends and reads, what the next read copies from the logical ring is one
  // stretch of the stream: it never passes the writer, plays the stale tail of a lap or splices
  // two laps. Every read that copies anything copies from the logical ring, except a re-read of
  // a file's start that lies beyond the end of it by then.
  lemma RunReadIsSafe(m0: Machine, actions: seq<Action>, q: Req, silence: seq<Byte>)
    requires Inv(m0, silence) && AllowedRun(m0, actions, silence)
    requires Allowed(RunFrom(m0, actions, silence), Read(q))
    ensures var m := RunFrom(m0, actions, silence);
            var o := ReadOutcome(m.l, m.r, q);
            && (o.FromRing? ==>
                  var at, n := StartOf(m, o), SafeLen(m.r, q.n);
                  0 <= at && at + n <= |m.h.stream| && Copied(m, q, silence) == m.h.stream[at..at + n])
            && (Strayed(o) ==> OffRing(m.l, m.r, q))
  {
    hide AllowedRun, Allowed, ReadOutcome, Inv, OffRing, Copied;
    var m := RunFrom(m0, actions, silence);
    Fits(m, q, silence);
    ReadIsSafe(m, q, silence);
    if Strayed(ReadOutcome(m.l, m.r, q)) { OnlyRereadsAreStale(m, q, silence); }
  }

  lemma OnlyRereadsAreStale(m: Machine, q: Req, silence: seq<Byte>)
    requires Inv(m, silence) && Allowed(m, Read(q)) && Strayed(ReadOutcome(m.l, m.r, q))
    ensures OffRing(m.l, m.r, q)
  {
    CaughtIsWritten(m, q, silence);
    hide Placed, Caught;
  }

  // Everything the reads of a run copied from the ring.
  ghost function CopiedInRun(m: Machine, actions: seq<Action>, silence: seq<Byte>): seq<Byte>
    requires Inv(m, silence) && AllowedRun(m, actions, silence)
    decreases |actions|
  {
    if |actions| == 0 then []
    else
      StepInv(m, actions[0], silence);
      (if actions[0].Read? then Copied(m, actions[0].q, silence) else [])
      + CopiedInRun(Step(m, actions[0], silence), actions[1..], silence)
  }

  // The next file is opened after a natural end, within the open limits.
  ghost predicate Seamless(m: Machine, q: Req)
  {
    && IsOpen(q) && !IsReread(m.l, q) && q.afterEnd && m.l.init
    && |m.h.stream| - m.at <= MAX_OPEN_LAG && |m.h.stream| - m.at <= m.r.total - SAFETY_MARGIN
  }

  // Nothing but appends, probes, reads that are too early, and playback that goes on in a
  // place not yet lapped, across natural file ends too.
  ghost predicate SteadyStep(m: Machine, a: Action, silence: seq<Byte>)
    requires Inv(m, silence) && Allowed(m, a)
  {
    match a
    case Append(_, _) => true
    case Read(q) =>
      Usable(m.r, q.n) && q.playback ==>
        (GoesOn(m, q) || Seamless(m, q)) && AliveAt(m.l.cursor, m.at, m.r, m.h)
  }

  ghost predicate Steady(m: Machine, actions: seq<Action>, silence: seq<Byte>)
    requires Inv(m, silence) && AllowedRun(m, actions, silence)
    decreases |actions|
  {
    |actions| > 0 ==>
      SteadyStep(m, actions[0], silence) &&
      (StepInv(m, actions[0], silence); Steady(Step(m, actions[0], silence), actions[1..], silence))
  }

  lemma SteadyRead(m: Machine, q: Req, silence: seq<Byte>)
    requires Inv(m, silence) && Allowed(m, Read(q)) && SteadyStep(m, Read(q), silence)
    ensures var data, m' := Copied(m, q, silence), Step(m, Read(q), silence);
            && m'.h == m.h && m'.at == m.at + |data|
            && (|data| > 0 ==> 0 <= m.at && m.at + |data| <= |m.h.stream|
                               && data == m.h.stream[m.at..m.at + |data|])
  {
    if Usable(m.r, q.n) && q.playback {
      if GoesOn(m, q) {
        ContinuesExactly(m, q, silence);
      } else {
        NaturalEndExactly(m, q, silence);
      }
    }
    ReadIsSafe(m, q, silence);
    hide Inv, Allowed, GoesOn, Seamless, AliveAt;
  }

  // Stream continuity: however appends and reads interleave, the bytes copied from the ring
  // in a steady run are one unbroken stretch of the stream.
  lemma {:induction false} StreamContinuity(m: Machine, actions: seq<Action>, silence: seq<Byte>)
    requires Inv(m, silence) && AllowedRun(m, actions, silence) && Steady(m, actions, silence)
    ensures var data, m' := CopiedInRun(m, actions, silence), RunFrom(m, actions, silence);
            && m.h.stream <= m'.h.stream
            && m'.at == m.at + |data|
            && (|data| > 0 ==> 0 <= m.at && m'.at <= |m'.h.stream| && data == m'.h.stream[m.at..m'.at])
    decreases |actions|
  {
    hide Inv, Allowed, SteadyStep, Copied, Step;
    if |actions| > 0 {
      var a := actions[0];
      StepInv(m, a, silence);
      var m1 := Step(m, a, silence);
      StreamContinuity(m1, actions[1..], silence);
      if a.Read? {
        SteadyRead(m, a.q, silence);
      } else {
        AppendExtends(m, a, silence);
      }
    }
  }

  lemma AppendExtends(m: Machine, a: Action, silence: seq<Byte>)
    requires Inv(m, silence) && Allowed(m, a) && a.Append?
    ensures Step(m, a, silence).at == m.at && m.h.stream <= Step(m, a, silence).h.stream
  {}

  // Less than one lap behind is always alive.
  lemma NotLapped(cursor: nat, at: int, r: Ring, h: History)
    requires Tracks(r, h) && PointsAt(cursor, at, r, h) && |h.stream| - at < r.lapEnd
    ensures AliveAt(cursor, at, r, h)
  {}

  // ---- Bounded lag

  // No playback read starts further back than the jump limit (or its own length, for a read
  // longer than that), except while an open is being played in, and then not further than
  // the limit that open set.
  lemma LagBounded(m: Machine, q: Req, silence: seq<Byte>)
    requires Inv(m, silence) && Allowed(m, Read(q)) && Usable(m.r, q.n) && q.playback
    ensures var o := ReadOutcome(m.l, m.r, q);
            var l := Placed(m.l, m.r, q);
            && (o.FromRing? || Strayed(o) || o.Underrun?)
            && (|| o.behind <= Max(JUMP_LIMIT, SafeLen(m.r, q.n))
                || (l.grace > 0 && o.behind <= l.maxLag))
  {
    hide Placed, Inv;
    CaughtIsWritten(m, q, silence);
  }

  // A run in which no file is opened.
  ghost predicate NoOpens(actions: seq<Action>)
  {
    forall i :: 0 <= i < |actions| && actions[i].Read? ==> !IsOpen(actions[i].q)
  }

  // Bytes played in a run.
  ghost function Played(m: Machine, actions: seq<Action>, silence: seq<Byte>): nat
    requires Inv(m, silence) && AllowedRun(m, actions, silence)
    decreases |actions|
  {
    if |actions| == 0 then 0
    else
      var a := actions[0];
      StepInv(m, a, silence);
      (if a.Read? && a.q.playback && Usable(m.r, a.q.n) then SafeLen(m.r, a.q.n) else 0)
      + Played(Step(m, a, silence), actions[1..], silence)
  }

  lemma GraceStep(m: Machine, a: Action, silence: seq<Byte>)
    requires Inv(m, silence) && Allowed(m, a) && (a.Read? ==> !IsOpen(a.q))
    ensures var l := Step(m, a, silence).l;
            var n := if a.Read? && a.q.playback && Usable(m.r, a.q.n) then SafeLen(m.r, a.q.n) else 0;
            && l.grace == Max(0, m.l.grace - n)
            && (l.maxLag == m.l.maxLag || l.maxLag == 0)
  {
    hide Inv;
  }

  lemma {:induction false} GraceRunsOut(m: Machine, actions: seq<Action>, silence: seq<Byte>)
    requires Inv(m, silence) && AllowedRun(m, actions, silence) && NoOpens(actions)
    ensures var l := RunFrom(m, actions, silence).l;
            && l.grace == Max(0, m.l.grace - Played(m, actions, silence))
            && (l.maxLag == m.l.maxLag || l.maxLag == 0)
    decreases |actions|
  {
    hide Inv, Allowed, Step, IsOpen, Usable;
    if |actions| > 0 {
      StepInv(m, actions[0], silence);
      assert actions[0].Read? ==> !IsOpen(actions[0].q);
      GraceStep(m, actions[0], silence);
      assert NoOpens(actions[1..]) by { NoOpensTail(actions); }
      GraceRunsOut(Step(m, actions[0], silence), actions[1..], silence);
    }
  }

  lemma NoOpensTail(actions: seq<Action>)
    requires NoOpens(actions) && |actions| > 0
    ensures NoOpens(actions[1..])
  {
    forall i | 0 <= i < |actions| - 1 ensures actions[1..][i] == actions[i + 1] {}
  }

  // From an open on, until the next one: the lag stays within the lag at the open plus the
  // threshold, and from at most OPEN_GRACE played bytes on within the ordinary limit.
  lemma LagAfterOpen(m: Machine, open: Req, actions: seq<Action>, q: Req, silence: seq<Byte>)
    requires Inv(m, silence) && Allowed(m, Read(open)) && Usable(m.r, open.n) && IsOpen(open)
    requires Inv(Step(m, Read(open), silence), silence)
    requires AllowedRun(Step(m, Read(open), silence), actions, silence) && NoOpens(actions)
    requires var m' := RunFrom(Step(m, Read(open), silence), actions, silence);
             Allowed(m', Read(q)) && Usable(m'.r, q.n) && q.playback && !IsOpen(q)
    ensures var m1 := Step(m, Read(open), silence);
            var m' := RunFrom(m1, actions, silence);
            var o := ReadOutcome(m'.l, m'.r, q);
            var lagAtOpen := Lag(Placed(m.l, m.r, open).cursor, m.r);
            var played := SafeLen(m.r, open.n) + Played(m1, actions, silence);
            && (o.FromRing? || o.Underrun?)
            && (|| o.behind <= Max(JUMP_LIMIT, SafeLen(m'.r, q.n))
                || (played < OPEN_GRACE && o.behind <= lagAtOpen + CATCHUP_THRESHOLD))
  {
    hide Inv, Allowed, ReadOutcome, Step, Placed, IsOpen, Usable, AllowedRun, RunFrom, NoOpens, Played,
      OnRing, RingFits;
    var m1 := Step(m, Read(open), silence);
    OpenSets(m, open, silence);
    GraceRunsOut(m1, actions, silence);
    var m' := RunFrom(m1, actions, silence);
    LagBounded(m', q, silence);
    Fits(m', q, silence);
    PlacedKeeps(m'.l, m'.r, q);
    if Strayed(ReadOutcome(m'.l, m'.r, q)) {
      OnlyRereadsAreStale(m', q, silence);
      StaleIsOpen(m'.l, m'.r, q);
    }
  }

  lemma Fits(m: Machine, q: Req, silence: seq<Byte>)
    requires Inv(m, silence) && Allowed(m, Read(q))
    ensures RingFits(m.r) && q.n <= MAX_READ
  {}

  lemma PlacedKeeps(l: Live, r: Ring, q: Req)
    requires RingFits(r) && !IsOpen(q)
    ensures Placed(l, r, q).grace == l.grace && Placed(l, r, q).maxLag == l.maxLag
  {}

  lemma StaleIsOpen(l: Live, r: Ring, q: Req)
    requires OffRing(l, r, q)
    ensures IsOpen(q)
  {}

  lemma OpenSets(m: Machine, open: Req, silence: seq<Byte>)
    requires Inv(m, silence) && Allowed(m, Read(open)) && Usable(m.r, open.n) && IsOpen(open)
    ensures var l := Step(m, Read(open), silence).l;
            && l.grace == Max(0, OPEN_GRACE - SafeLen(m.r, open.n))
            && l.maxLag <= Lag(Placed(m.l, m.r, open).cursor, m.r) + CATCHUP_THRESHOLD
  {
    PlacedOpens(m.l, m.r, open);
    CaughtKeepsGrace(Placed(m.l, m.r, open), m.r, SafeLen(m.r, open.n));
    hide Inv, Placed, Caught, Lag, ReadOutcome, Copied, Strays, StartOf, OpenBase;
  }

  lemma CaughtKeepsGrace(l: Live, r: Ring, n: nat)
    requires RingFits(r) && n <= MAX_READ
    ensures var l' := Caught(l, r, n).0;
            l'.grace == l.grace && (l'.maxLag == l.maxLag || l'.maxLag == 0)
  {
    hide Lag;
  }

  lemma PlacedOpens(l: Live, r: Ring, q: Req)
    requires RingFits(r) && IsOpen(q)
    ensures Placed(l, r, q).grace == OPEN_GRACE
    ensures Placed(l, r, q).maxLag <= Lag(Placed(l, r, q).cursor, r) + CATCHUP_THRESHOLD
  {
    hide Lag, OpenBase;
  }

  // An underrun ends only with the full target lag restored, or by a jump or an open.
  lemma UnderrunEnds(m: Machine, q: Req, silence: seq<Byte>)
    requires Inv(m, silence) && Allowed(m, Read(q)) && Usable(m.r, q.n) && q.playback
    requires m.l.underrun && ReadOutcome(m.l, m.r, q).FromRing?
    ensures || IsOpen(q)
            || NeedsJump(Placed(m.l, m.r, q), m.r)
            || ReadOutcome(m.l, m.r, q).behind >= Max(TARGET_LAG, SafeLen(m.r, q.n))
  {
    hide Inv;
  }

  // ---- What the radio gets

  // Some stretch of the silence loop.
  ghost predicate IsSilence(data: seq<Byte>, silence: seq<Byte>)
    requires LOOP_START < |silence|
  {
    exists off: nat :: off < |silence| && data == Silence(off, |data|, silence)
  }

  lemma SilenceIs(off: nat, n: nat, silence: seq<Byte>)
    requires LOOP_START < |silence| && off < |silence|
    ensures IsSilence(Silence(off, n, silence), silence)
  {}

  // The buffer of a served read: nothing but silence in a probe or an underrun; otherwise
  // the stream itself behind the silence bridge, or for the start of a file that has left the
  // logical ring the cells that lie there.
  lemma RadioGets(m: Machine, q: Req, silence: seq<Byte>)
    requires Inv(m, silence) && Allowed(m, Read(q))
    ensures Ready(m.l, m.r, q, silence)
    ensures var o, data := ReadOutcome(m.l, m.r, q), ReadBytes(m.l, m.r, q, silence);
            match o
            case TooEarly => data == []
            case Probe => |data| == SafeLen(m.r, q.n) && IsSilence(data, silence)
            case Underrun(_) => |data| == SafeLen(m.r, q.n) && IsSilence(data, silence)
            case FromRing(_, _, overlay) =>
              var at := StartOf(m, o);
              && |data| == SafeLen(m.r, q.n) && overlay <= |data| && 0 <= at && at + |data| <= |m.h.stream|
              && data[overlay..] == m.h.stream[at + overlay..at + |data|]
              && IsSilence(data[..overlay], silence)
            case StaleTail(start, _, _) =>
              var n := SafeLen(m.r, q.n);
              && OffRing(m.l, m.r, q) && start == m.l.openBase && start + n <= Size(m.r)
              && data == m.r.cells[start..start + n]
            case PastMemory(start, _, _) =>
              && OffRing(m.l, m.r, q) && start == m.l.openBase <= Size(m.r) < start + SafeLen(m.r, q.n)
              && data == m.r.cells[start..]
  {
    hide Inv, Allowed, Ready, Copied, Silence, IsSilence, StartOf, OffRing, ReadBytes, ReadOutcome,
      Usable;
    ReadyAlways(m, q, silence);
    ReadIsSafe(m, q, silence);
    Fits(m, q, silence);
    OutcomeKinds(m.l, m.r, q);
    if Usable(m.r, q.n) && q.playback {
      if Strayed(ReadOutcome(m.l, m.r, q)) {
        OnlyRereadsAreStale(m, q, silence);
        StaleGets(m, q, silence);
      } else {
        ServedGets(m, q, silence);
        if ReadOutcome(m.l, m.r, q).FromRing? { Tail(m, q, silence); }
      }
    } else {
      QuietGets(m, q, silence);
    }
  }

  lemma OutcomeKinds(l: Live, r: Ring, q: Req)
    requires RingFits(r) && q.n <= MAX_READ
    ensures var o := ReadOutcome(l, r, q);
            && (Usable(r, q.n) && q.playback <==> o.Underrun? || o.FromRing? || Strayed(o))
            && (o.TooEarly? <==> !Usable(r, q.n)) && (o.Probe? <==> Usable(r, q.n) && !q.playback)
  {
    hide Placed, Caught;
  }

  lemma QuietGets(m: Machine, q: Req, silence: seq<Byte>)
    requires Ready(m.l, m.r, q, silence) && !(Usable(m.r, q.n) && q.playback)
    ensures var data := ReadBytes(m.l, m.r, q, silence);
            if Usable(m.r, q.n) then |data| == SafeLen(m.r, q.n) && IsSilence(data, silence) else data == []
  {
    SilenceIs(m.l.silenceOff, SafeLen(m.r, q.n), silence);
    hide IsSilence, Silence;
  }

  // What is copied behind the bridge, as a stretch of the stream.
  lemma Tail(m: Machine, q: Req, silence: seq<Byte>)
    requires Inv(m, silence) && Allowed(m, Read(q)) && ReadOutcome(m.l, m.r, q).FromRing?
    ensures var s, n := m.h.stream, SafeLen(m.r, q.n);
            var at := StartOf(m, ReadOutcome(m.l, m.r, q));
            && 0 <= at && at + n <= |s| && |Copied(m, q, silence)| == n
            && forall k :: 0 <= k <= n ==> Copied(m, q, silence)[k..] == s[at + k..at + n]
  {
    ReadIsSafe(m, q, silence);
    hide Inv, Allowed, ReadOutcome, Copied, StartOf;
  }

  lemma ReadyAlways(m: Machine, q: Req, silence: seq<Byte>)
    requires Inv(m, silence) && Allowed(m, Read(q))
    ensures Ready(m.l, m.r, q, silence)
  {}

  lemma StaleGets(m: Machine, q: Req, silence: seq<Byte>)
    requires Inv(m, silence) && Allowed(m, Read(q)) && Usable(m.r, q.n) && OffRing(m.l, m.r, q)
    requires Strayed(ReadOutcome(m.l, m.r, q))
    ensures var o, b, n := ReadOutcome(m.l, m.r, q), m.l.openBase, SafeLen(m.r, q.n);
            && o.start == b <= Size(m.r) && (o.PastMemory? <==> Size(m.r) < b + n)
            && ReadBytes(m.l, m.r, q, silence) == m.r.cells[b..if o.PastMemory? then Size(m.r) else b + n]
  {
    RereadOutcome(m.l, m.r, q);
    var n := SafeLen(m.r, q.n);
    var p := Caught(Placed(m.l, m.r, q), m.r, n);
    assert p.0.bridge == 0;
    assert Silence(p.0.silenceOff, 0, silence) == [];
    hide Placed, Caught, Inv, Silence;
  }

  // A playback read's buffer, in terms of what was copied from the ring.
  lemma ServedGets(m: Machine, q: Req, silence: seq<Byte>)
    requires Inv(m, silence) && Allowed(m, Read(q)) && Ready(m.l, m.r, q, silence)
    requires Usable(m.r, q.n) && q.playback && !Strayed(ReadOutcome(m.l, m.r, q))
    ensures var o, data := ReadOutcome(m.l, m.r, q), ReadBytes(m.l, m.r, q, silence);
            match o
            case Underrun(_) => IsSilence(data, silence)
            case FromRing(_, _, overlay) =>
              && overlay <= |data| == |Copied(m, q, silence)|
              && data[overlay..] == Copied(m, q, silence)[overlay..]
              && IsSilence(data[..overlay], silence)
            case _ => false
  {
    var n := SafeLen(m.r, q.n);
    CaughtIsReady(m.l, m.r, q, silence);
    var p := Caught(Placed(m.l, m.r, q), m.r, n);
    SilenceIs(SilentLive(p.0).silenceOff, n, silence);
    SilenceIs(p.0.silenceOff, Min(n, p.0.bridge), silence);
    hide Placed, Caught, Inv, ReadFrom, Silence, IsSilence;
  }
}
