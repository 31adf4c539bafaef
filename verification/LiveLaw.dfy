// The serving rules stated once more from outside, in numbers: what a read does for every lag,
// where an open starts, and how an underrun ends.
module LiveLaw {
  import opened Bytes
  import opened Clock
  import opened LiveRing
  import opened LiveServe
  import opened LiveSession

  // Where a cursor is read from, and how far that is behind the writer.
  function From(cursor: nat, r: Ring): nat
  {
    if cursor >= r.lapEnd && cursor > r.wp then 0 else cursor
  }

  function LagOf(cursor: nat, r: Ring): int
  {
    if cursor <= r.wp then r.wp - cursor else r.lapEnd - cursor + r.wp
  }

  // Bytes to play: a read of n bytes that does not come too early.
  predicate Enough(r: Ring, n: nat) { 0 < n < r.total && 4096 + n < r.total }

  // The lag that is put up with: 20,480 bytes, or what the last open allowed for as long as its
  // grace lasts.
  function Limit(l: Live, lag: int): nat
  {
    if l.maxLag != 0 && l.grace != 0 && lag > 20480 then l.maxLag else 20480
  }

  // A continuing read for every state and lag. Beyond the limit it jumps to 12,288 bytes (or its
  // own length) behind the writer; otherwise it copies from where it is if and only if all of it
  // has been written and, after an underrun, 12,288 bytes are there again; otherwise it is silent
  // and stays where it is.
  lemma ReadExactly(l: Live, r: Ring, q: Req, silence: seq<Byte>)
    requires Ready(l, r, q, silence) && l.init && q.playback && q.off != 0 && Enough(r, q.n)
    ensures var (c, n, l') := (From(l.cursor, r), q.n, AfterRead(l, r, q, silence));
            var lag := LagOf(c, r);
            var o := ReadOutcome(l, r, q);
            && l'.grace == (if l.grace > n then l.grace - n else 0)
            && l'.maxLag == (if lag <= 20480 || l.grace == 0 then 0 else l.maxLag)
            && l'.init && l'.openFile == l.openFile && l'.openBase == l.openBase && l'.openMs == l.openMs
            && l'.opens == l.opens
            && l'.openMaxOff == (if q.file == l.openFile && q.off + n > l.openMaxOff then q.off + n else l.openMaxOff)
            && (if lag > Limit(l, lag) then
                  var k := if n > 12288 then n else 12288;
                  var at := if r.wp >= k then r.wp - k else r.lapEnd - (k - r.wp);
                  var m := if n < 8000 then n else 8000;
                  && o == FromRing(at, k, m) && l'.jumps == l.jumps + 1
                  && !l'.underrun && l'.bridge == 8000 - m
                else if n <= lag && (l.underrun ==> 12288 <= lag) then
                  var m := if n < l.bridge then n else l.bridge;
                  && o == FromRing(c, lag, m) && l'.jumps == l.jumps && l'.underruns == l.underruns
                  && !l'.underrun && l'.bridge == l.bridge - m
                else
                  && o == Underrun(lag) && l'.jumps == l.jumps && l'.underruns == l.underruns + 1
                  && l'.underrun && l'.cursor == c && l'.bridge == l.bridge
                  && ReadBytes(l, r, q, silence) == Silence(if l.underrun then l.silenceOff else 417, n, silence)
                  && l'.silenceOff == SilenceOff(if l.underrun then l.silenceOff else 417, n, silence))
  {
    hide Placed, Caught, Served, ServedBytes, ServeOutcome, Underruns, NeedsJump, Silence, SilenceOff, CopyOf, OnRing;
    var (c, n) := (From(l.cursor, r), q.n);
    PlacedExactly(l, r, q);
    var p := l.(cursor := c);
    CaughtExactly(p, r, n);
    var (l1, behind) := Caught(p, r, n);
    ServedExactly(l1, behind, r, q, silence);
  }

  // The three stages a continuing read goes through.
  lemma PlacedExactly(l: Live, r: Ring, q: Req)
    requires RingFits(r) && q.off != 0
    ensures Placed(l, r, q) == l.(cursor := From(l.cursor, r))
    ensures OnRing(From(l.cursor, r), r)
  {}

  lemma CaughtExactly(l: Live, r: Ring, n: nat)
    requires RingFits(r) && n <= MAX_READ && l.init && OnRing(l.cursor, r)
    ensures var lag := LagOf(l.cursor, r);
            var k := if n > 12288 then n else 12288;
            var at := if r.wp >= k then r.wp - k else r.lapEnd - (k - r.wp);
            var settled := l.(maxLag := if lag <= 20480 || l.grace == 0 then 0 else l.maxLag);
            0 <= lag && 0 <= at && OnRing(at, r)
            && Caught(l, r, n) == if lag > Limit(l, lag) then
                 (settled.(cursor := at, underrun := false, bridge := 8000, silenceOff := LOOP_START,
                           jumps := l.jumps + 1), k)
               else (settled, lag)
  {}

  lemma ServedExactly(l: Live, behind: nat, r: Ring, q: Req, silence: seq<Byte>)
    requires RingFits(r) && OnRing(l.cursor, r) && l.cursor <= Size(r)
    requires LOOP_START < |silence| && l.silenceOff < |silence|
    ensures var n := q.n;
            var m := if n < l.bridge then n else l.bridge;
            var l' := Served(l, behind, r, q, n, silence);
            && l'.grace == (if l.grace > n then l.grace - n else 0) && l'.maxLag == l.maxLag && l'.jumps == l.jumps
            && l'.init == l.init && l'.openFile == l.openFile && l'.openBase == l.openBase
            && l'.openMs == l.openMs && l'.opens == l.opens
            && l'.openMaxOff == (if q.file == l.openFile && q.off + n > l.openMaxOff then q.off + n else l.openMaxOff)
            && (if n <= behind && (l.underrun ==> 12288 <= behind) then
                  && ServeOutcome(l, behind, r, n) == FromRing(l.cursor, behind, m) && l'.underruns == l.underruns
                  && !l'.underrun && l'.bridge == l.bridge - m
                else
                  && ServeOutcome(l, behind, r, n) == Underrun(behind) && l'.underruns == l.underruns + 1
                  && l'.underrun && l'.cursor == l.cursor && l'.bridge == l.bridge
                  && ServedBytes(l, behind, r, n, silence)
                     == Silence(if l.underrun then l.silenceOff else 417, n, silence)
                  && l'.silenceOff == SilenceOff(if l.underrun then l.silenceOff else 417, n, silence))
  {
    hide Silence, SilenceOff, CopyOf, CursorAfter;
  }

  // The very first read, when nothing has been opened, jumps as well, but is not counted.
  lemma FirstReadExactly(l: Live, r: Ring, q: Req, silence: seq<Byte>)
    requires Ready(l, r, q, silence) && !l.init && q.playback && q.off != 0 && Enough(r, q.n)
    ensures var (n, l') := (q.n, AfterRead(l, r, q, silence));
            var k := if n > 12288 then n else 12288;
            var at := if r.wp >= k then r.wp - k else r.lapEnd - (k - r.wp);
            var m := if n < 8000 then n else 8000;
            && ReadOutcome(l, r, q) == FromRing(at, k, m)
            && l'.init && !l'.underrun && l'.jumps == l.jumps && l'.bridge == 8000 - m
  {
    hide Silence, SilenceOff, CopyOf, CursorAfter;
  }

  // Anything else gets nothing, or silence that leaves no trace.
  lemma OtherwiseExactly(l: Live, r: Ring, q: Req, silence: seq<Byte>)
    requires Ready(l, r, q, silence)
    ensures !Enough(r, q.n) ==> ReadBytes(l, r, q, silence) == [] && AfterRead(l, r, q, silence) == l
    ensures Enough(r, q.n) && !q.playback ==>
              && ReadBytes(l, r, q, silence) == Silence(l.silenceOff, q.n, silence)
              && AfterRead(l, r, q, silence) == l.(probes := l.probes + 1)
  {
    hide Placed, Caught, Silence, SilenceOff;
  }

  // What is appended extends the stream; only a chunk as long as the ring is refused, and only
  // where what is unread is to be kept.
  lemma AppendExactly(r: Ring, h: History, data: seq<Byte>, unreadProtect: bool)
    requires Tracks(r, h) && 0 < |r.cells|
    ensures Refused(r, data, unreadProtect) <==> unreadProtect && |data| >= |r.cells|
    ensures var (r', h') := (Appended(r, data), Recorded(r, h, data));
            && Tracks(r', h') && |r'.cells| == |r.cells| && h'.stream == h.stream + data
            && r'.total == (if |h.stream| + |data| < |r.cells| then |h.stream| + |data| else |r.cells|)
  {
    hide WriteAt;
    AppendTracks(r, h, data);
  }

  // ---- Opening a file

  // The place k bytes behind the writer.
  function Place(k: nat, r: Ring): int
  {
    if k <= r.wp then r.wp - k else r.lapEnd - (k - r.wp)
  }

  // k bytes further back than x, around the lap.
  function Further(x: int, k: nat, r: Ring): int
  {
    if x + k <= r.wp || x + k < r.lapEnd then x + k else x + k - r.lapEnd
  }

  // How far behind the writer an open starts: where playback stands after a natural end, 61,440
  // bytes earlier otherwise, 73,728 bytes when that is more than 81,920 or nothing has been played,
  // and never within 4,096 bytes of what has not been written.
  function OpenLag(l: Live, r: Ring, afterEnd: bool): int
  {
    var here := if l.init then LagOf(From(l.cursor, r), r) else 12288;
    var wanted := if afterEnd then here else Further(here, 61440, r);
    var lag := if !l.init || wanted > 81920 then 73728 else wanted;
    if lag > r.total - 4096 then r.total - 4096 else lag
  }

  predicate FirstOpen(l: Live, q: Req)
  {
    q.file != l.openFile || (q.now - l.openMs) % WORD >= 10000 || l.openMaxOff > 131072
  }

  // An open for every state: it starts that far behind the writer, without a bridge, remembers the
  // file, and allows 8,192 bytes more lag than it started with for the next 122,880 bytes.
  lemma OpenExactly(l: Live, r: Ring, q: Req, silence: seq<Byte>)
    requires Ready(l, r, q, silence) && q.playback && q.off == 0 && FirstOpen(l, q) && Enough(r, q.n)
    ensures var (n, l') := (q.n, AfterRead(l, r, q, silence));
            var lag := OpenLag(l, r, q.afterEnd);
            && 0 <= lag && l'.openBase == Place(lag, r) && l'.openFile == q.file && l'.openMs == q.now
            && l'.openMaxOff == n && l'.opens == l.opens + 1 && l'.jumps == l.jumps
            && l'.init && l'.bridge == 0 && l'.grace == (if n < 122880 then 122880 - n else 0)
            && l'.maxLag == (if lag <= 20480 then 0 else lag + 8192)
            && (if n <= lag then ReadOutcome(l, r, q) == FromRing(Place(lag, r), lag, 0) && !l'.underrun
                else ReadOutcome(l, r, q) == Underrun(lag) && l'.underrun && l'.cursor == Place(lag, r))
  {
    hide Placed, Caught, Served, ServeOutcome, NeedsJump, SilenceOff, OnRing, OpenLag, LagOf, Place;
    OpenPlaced(l, r, q);
    OpenState(l, r, q);
    var p := Placed(l, r, q);
    CaughtExactly(p, r, q.n);
    var (l1, behind) := Caught(p, r, q.n);
    ServedExactly(l1, behind, r, q, silence);
  }

  // Reading the start of the same file again, within ten seconds and before 131,072 bytes of it have
  // been read, starts where it started before and counts as no open.
  lemma ReopenExactly(l: Live, r: Ring, q: Req, silence: seq<Byte>)
    requires Ready(l, r, q, silence) && q.playback && q.off == 0 && !FirstOpen(l, q) && Enough(r, q.n)
    requires l.openBase <= r.wp || l.openBase <= r.lapEnd
    ensures var (n, l') := (q.n, AfterRead(l, r, q, silence));
            var lag := LagOf(l.openBase, r);
            && l'.openBase == l.openBase && l'.openFile == l.openFile && l'.openMs == l.openMs && l'.opens == l.opens
            && l'.openMaxOff == (if n > l.openMaxOff then n else l.openMaxOff) && l'.jumps == l.jumps
            && l'.init && l'.bridge == 0 && l'.grace == (if n < 122880 then 122880 - n else 0)
            && l'.maxLag == (if lag <= 20480 then 0 else lag + 8192)
            && (if n <= lag then ReadOutcome(l, r, q) == FromRing(l.openBase, lag, 0) && !l'.underrun
                else ReadOutcome(l, r, q) == Underrun(lag) && l'.underrun && l'.cursor == l.openBase)
  {
    hide Caught, Served, ServeOutcome, NeedsJump, SilenceOff, OpenBase;
    var p := Placed(l, r, q);
    assert p.cursor == l.openBase && p.maxLag == LagOf(l.openBase, r) + 8192 && p.grace == 122880;
    CaughtExactly(p, r, q.n);
    var (l1, behind) := Caught(p, r, q.n);
    hide Placed, LagOf, OnRing;
    ServedExactly(l1, behind, r, q, silence);
  }

  // The state the open itself leaves.
  lemma OpenState(l: Live, r: Ring, q: Req)
    requires RingFits(r) && q.playback && q.off == 0 && FirstOpen(l, q) && Enough(r, q.n)
    ensures var lag := OpenLag(l, r, q.afterEnd);
            && 0 <= lag <= 81920 && 0 <= Place(lag, r)
            && Placed(l, r, q)
               == l.(cursor := Place(lag, r), openBase := Place(lag, r), openFile := q.file, openMs := q.now,
                     openMaxOff := 0, opens := l.opens + 1, init := true, underrun := false, bridge := 0,
                     maxLag := lag + 8192, grace := 122880)
  {
    OpenPlaced(l, r, q);
    hide OpenBase, WantedBase;
  }

  lemma OpenPlaced(l: Live, r: Ring, q: Req)
    requires RingFits(r) && q.playback && q.off == 0 && FirstOpen(l, q) && Enough(r, q.n)
    ensures var lag := OpenLag(l, r, q.afterEnd);
            && 0 <= lag && OpenBase(l, r, q) == Place(lag, r)
            && LagOf(Place(lag, r), r) == lag && OnRing(Place(lag, r), r) && Lag(Place(lag, r), r) == lag
  {
    hide Placed, Behind, LagOf, RingBack;
    var here := if l.init then LagOf(From(l.cursor, r), r) else 12288;
    FromOnRing(l.cursor, r);
    PlaceBack(12288, r);
    PlaceBack(73728, r);
    var c := if l.init then From(l.cursor, r) else Place(12288, r);
    FurtherBack(c, 61440, r);
    PlaceIs(c, r);
    PlaceIs(WantedBase(l, r, q), r);
    assert Lag(WantedBase(l, r, q), r) <= 81920;
    PlaceBack(if r.total - 4096 <= 81920 then r.total - 4096 else 0, r);
  }

  lemma FromOnRing(cursor: nat, r: Ring)
    requires RingFits(r)
    ensures OnRing(From(cursor, r), r) && From(cursor, r) == Normal(cursor, r)
    ensures From(cursor, r) <= r.wp || From(cursor, r) < r.lapEnd
  {}

  lemma PlaceBack(k: nat, r: Ring)
    requires RingFits(r) && k <= 81920
    ensures 0 <= Place(k, r) == Back(r.wp, k, r) && LagOf(Place(k, r), r) == k == Lag(Place(k, r), r)
    ensures OnRing(Place(k, r), r)
    ensures Place(k, r) <= r.wp || Place(k, r) < r.lapEnd
  {}

  lemma FurtherBack(c: nat, k: nat, r: Ring)
    requires RingFits(r) && k <= 81920 && (c <= r.wp || c < r.lapEnd)
    ensures 0 <= Back(c, k, r) && LagOf(Back(c, k, r), r) == Further(LagOf(c, r), k, r)
    ensures Lag(Back(c, k, r), r) == LagOf(Back(c, k, r), r)
    ensures Back(c, k, r) <= r.wp || Back(c, k, r) < r.lapEnd
  {}

  lemma PlaceIs(c: nat, r: Ring)
    requires RingFits(r) && (c <= r.wp || c < r.lapEnd)
    ensures 0 <= LagOf(c, r) == Lag(c, r) && c == Place(LagOf(c, r), r)
  {}

  // ---- Underruns end

  // In stream terms, for a cursor that has not been lapped: a continuing read within the limit
  // copies the stream from where playback stands if and only if all of it has been written and,
  // after an underrun, 12,288 bytes are there again.
  lemma ContinuingRead(m: Machine, q: Req, silence: seq<Byte>)
    requires Inv(m, silence) && Allowed(m, Read(q)) && m.l.init && q.playback && q.off != 0 && Enough(m.r, q.n)
    requires AliveAt(m.l.cursor, m.at, m.r, m.h) && |m.h.stream| - m.at <= Limit(m.l, |m.h.stream| - m.at)
    ensures var lag := |m.h.stream| - m.at;
            var served := q.n <= lag && (m.l.underrun ==> 12288 <= lag);
            && (ReadOutcome(m.l, m.r, q).FromRing? <==> served)
            && (served ==> Copied(m, q, silence) == m.h.stream[m.at..m.at + q.n])
            && Step(m, Read(q), silence).at == m.at + if served then q.n else 0
  {
    hide Inv, Allowed, AliveAt, ReadOutcome, Copied, Strays, OffRing, Limit;
    Fits(m, q, silence);
    TrueLag(m, silence);
    ContinuingOutcome(m.l, m.r, q, silence, m);
    ReadIsSafe(m, q, silence);
    NeverStrays(m, q, silence);
    CopiedLength(m, q, silence);
  }

  lemma TrueLag(m: Machine, silence: seq<Byte>)
    requires Inv(m, silence) && m.l.init && AliveAt(m.l.cursor, m.at, m.r, m.h)
    ensures LagOf(From(m.l.cursor, m.r), m.r) == |m.h.stream| - m.at
  {
    LagExact(m.l.cursor, m.at, m.r, m.h);
    hide Tracks, PointsAt, AliveAt;
  }

  lemma ContinuingOutcome(l: Live, r: Ring, q: Req, silence: seq<Byte>, m: Machine)
    requires Inv(m, silence) && Allowed(m, Read(q)) && l == m.l && r == m.r
    requires l.init && q.playback && q.off != 0 && Enough(r, q.n)
    requires LagOf(From(l.cursor, r), r) <= Limit(l, LagOf(From(l.cursor, r), r))
    ensures RingFits(r) && q.n <= MAX_READ
    ensures var lag := LagOf(From(l.cursor, r), r);
            var o := ReadOutcome(l, r, q);
            && (o.FromRing? <==> q.n <= lag && (l.underrun ==> 12288 <= lag))
            && (o.FromRing? || o.Underrun?) && o.behind == lag
  {
    ReadyAlways(m, q, silence);
    hide Inv, Allowed, ReadOutcome, AfterRead, ReadBytes, Limit;
    ReadExactly(l, r, q, silence);
  }

  lemma CopiedLength(m: Machine, q: Req, silence: seq<Byte>)
    requires Inv(m, silence) && Allowed(m, Read(q)) && Enough(m.r, q.n)
    ensures |Copied(m, q, silence)| == if ReadOutcome(m.l, m.r, q).FromRing? then q.n else 0
  {
    Fits(m, q, silence);
    hide ReadOutcome, ReadFrom, Inv;
    if ReadOutcome(m.l, m.r, q).FromRing? { CopiedFromRing(m, q, silence); }
  }

  lemma NeverStrays(m: Machine, q: Req, silence: seq<Byte>)
    requires Inv(m, silence) && Allowed(m, Read(q)) && q.off != 0
    ensures !Strays(m, q)
  {
    hide Lag;
  }

  // Appends that restore the lag end an underrun: after any of them the next read of playback
  // gives the stream on from where it was held, and the underrun is over.
  lemma {:induction false} AppendsEndUnderrun(m: Machine, actions: seq<Action>, q: Req, silence: seq<Byte>)
    requires Inv(m, silence) && AllowedRun(m, actions, silence)
    requires forall i :: 0 <= i < |actions| ==> actions[i].Append?
    requires m.l.init && m.l.underrun && q.playback && q.off != 0
    requires var m1 := RunFrom(m, actions, silence);
             && Allowed(m1, Read(q)) && Enough(m1.r, q.n) && AliveAt(m.l.cursor, m.at, m1.r, m1.h)
             && Max(12288, q.n) <= |m1.h.stream| - m.at <= 20480
    ensures var m1 := RunFrom(m, actions, silence);
            && m1.at == m.at && ReadOutcome(m1.l, m1.r, q).FromRing?
            && Copied(m1, q, silence) == m1.h.stream[m.at..m.at + q.n]
            && !AfterReadOf(m1, q, silence).underrun
  {
    OnlyAppends(m, actions, silence);
    var m1 := RunFrom(m, actions, silence);
    hide Inv, Allowed, AllowedRun, RunFrom, AliveAt, ReadOutcome, AfterRead, ReadBytes, Copied, Step, OffRing,
         Silence, SilenceOff, LagOf, From, OnRing;
    Fits(m1, q, silence);
    ContinuingRead(m1, q, silence);
    TrueLag(m1, silence);
    ReadyAlways(m1, q, silence);
    ReadExactly(m1.l, m1.r, q, silence);
  }

  ghost function AfterReadOf(m: Machine, q: Req, silence: seq<Byte>): Live
    requires Inv(m, silence) && Allowed(m, Read(q))
  {
    ReadyAlways(m, q, silence);
    AfterRead(m.l, m.r, q, silence)
  }

  lemma {:induction false} OnlyAppends(m: Machine, actions: seq<Action>, silence: seq<Byte>)
    requires Inv(m, silence) && AllowedRun(m, actions, silence)
    requires forall i :: 0 <= i < |actions| ==> actions[i].Append?
    ensures var m1 := RunFrom(m, actions, silence); m1.l == m.l && m1.at == m.at
    decreases |actions|
  {
    hide Inv, Allowed, Step;
    if |actions| > 0 {
      StepInv(m, actions[0], silence);
      AppendKeepsReader(m, actions[0], silence);
      OnlyAppends(Step(m, actions[0], silence), actions[1..], silence);
    }
  }

  lemma AppendKeepsReader(m: Machine, a: Action, silence: seq<Byte>)
    requires Inv(m, silence) && Allowed(m, a) && a.Append?
    ensures Step(m, a, silence).l == m.l && Step(m, a, silence).at == m.at
  {}
}
