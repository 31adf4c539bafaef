// The offset-served ring: appends are split at the end of the ring, and a read at a file offset
// gets the bytes at that ring position, unless the writer is too close.
module OffsetRing {
  import opened Bytes
  import Memory

  // `total` counts the bytes written, up to the capacity; `lastRead` is where the reader goes next.
  datatype Ring = Ring(cells: seq<Byte>, wp: nat, total: nat, lastRead: nat)

  // All bytes ever accepted, and the stream position of ring position 0 in the current lap.
  datatype History = History(stream: seq<Byte>, lapStart: nat)

  // The stream position of the byte at ring position p.
  function IndexOf(r: Ring, h: History, p: nat): int
  {
    if p < r.wp then h.lapStart + p else h.lapStart + p - |r.cells|
  }

  // The ring holds the end of the stream; positions never written hold zero.
  ghost predicate Tracks(r: Ring, h: History)
  {
    var cap := |r.cells|;
    && r.wp < cap && r.lastRead < cap
    && r.total == Min(|h.stream|, cap)
    && |h.stream| == h.lapStart + r.wp
    && (if r.total < cap then h.lapStart == 0 else h.lapStart >= cap)
    && (forall p :: 0 <= p < cap && (p < r.wp || r.total == cap) ==> r.cells[p] == h.stream[IndexOf(r, h, p)])
    && (forall p :: r.total <= p < cap ==> r.cells[p] == 0)
  }

  // ---- Appending

  // Whether an append of n bytes writes ring position p.
  predicate Writes(wp: nat, n: nat, cap: nat, p: nat)
  {
    (wp <= p < wp + n) || p + cap < wp + n
  }

  predicate Refused(r: Ring, n: nat, protect: bool)
  {
    var cap, end := |r.cells|, r.wp + n;
    if n >= cap then protect
    else
      protect && r.total >= cap
      && if end <= cap then r.wp <= r.lastRead < end else r.lastRead >= r.wp || r.lastRead < end - cap
  }

  // The bytes go from wp on, and on from the start of the ring where they do not fit.
  function Written(cells: seq<Byte>, wp: nat, data: seq<Byte>): (c: seq<Byte>)
    requires wp < |cells| && |data| < |cells|
    ensures |c| == |cells|
  {
    var cap, end := |cells|, wp + |data|;
    if end <= cap then cells[..wp] + data + cells[end..]
    else data[cap - wp..] + cells[end - cap..wp] + data[..cap - wp]
  }

  function Appended(r: Ring, data: seq<Byte>, protect: bool): Ring
    requires r.wp < |r.cells|
  {
    var cap, n := |r.cells|, |data|;
    if Refused(r, n, protect) then r
    else if n >= cap then r.(cells := data[n - cap..], wp := 0, total := cap)
    else
      var end := r.wp + n;
      r.(cells := Written(r.cells, r.wp, data), wp := if end >= cap then end - cap else end,
         total := Min(r.total + n, cap))
  }

  function Recorded(r: Ring, h: History, data: seq<Byte>, protect: bool): History
    requires r.wp < |r.cells|
  {
    var n := |data|;
    if Refused(r, n, protect) then h
    else if n >= |r.cells| then History(h.stream + data, |h.stream| + n)
    else History(h.stream + data, if r.wp + n >= |r.cells| then h.lapStart + |r.cells| else h.lapStart)
  }

  lemma WrittenAt(cells: seq<Byte>, wp: nat, data: seq<Byte>, now: seq<Byte>)
    requires wp < |cells| == |now| && |data| < |cells|
    requires forall p :: 0 <= p < |cells| ==>
               now[p] == if wp <= p < wp + |data| then data[p - wp]
                         else if p + |cells| < wp + |data| then data[p + |cells| - wp]
                         else cells[p]
    ensures now == Written(cells, wp, data)
  {
    assert now == Written(cells, wp, data);
  }

  lemma CellsAppended(r: Ring, data: seq<Byte>, protect: bool, p: nat)
    requires r.wp < |r.cells| && !Refused(r, |data|, protect) && |data| < |r.cells| && p < |r.cells|
    ensures var (cap, c) := (|r.cells|, Appended(r, data, protect).cells);
            && |c| == cap
            && c[p] == if r.wp <= p < r.wp + |data| then data[p - r.wp]
                       else if p + cap < r.wp + |data| then data[p + cap - r.wp]
                       else r.cells[p]
  {}

  // Every append keeps the ring the end of the stream, across the split and the overwrite.
  lemma AppendTracks(r: Ring, h: History, data: seq<Byte>, protect: bool)
    requires Tracks(r, h)
    ensures Tracks(Appended(r, data, protect), Recorded(r, h, data, protect))
  {
    var cap, n := |r.cells|, |data|;
    var r', h' := Appended(r, data, protect), Recorded(r, h, data, protect);
    if !Refused(r, n, protect) && n < cap {
      hide Appended, Refused;
      AppendedSizes(r, data, protect);
      forall p | 0 <= p < cap
        ensures p < r'.wp || r'.total == cap ==> r'.cells[p] == h'.stream[IndexOf(r', h', p)]
        ensures r'.total <= p ==> r'.cells[p] == 0
      {
        CellsAppended(r, data, protect, p);
      }
    }
  }

  lemma AppendedSizes(r: Ring, data: seq<Byte>, protect: bool)
    requires r.wp < |r.cells| && !Refused(r, |data|, protect) && |data| < |r.cells|
    ensures var r' := Appended(r, data, protect);
            && |r'.cells| == |r.cells| && r'.lastRead == r.lastRead
            && r'.wp == (if r.wp + |data| >= |r.cells| then r.wp + |data| - |r.cells| else r.wp + |data|)
            && r'.total == Min(r.total + |data|, |r.cells|)
  {}

  // A protected append to a full ring is refused exactly when it would write the byte the reader
  // reads next, so that byte always survives.
  lemma ProtectedAppend(r: Ring, data: seq<Byte>)
    requires r.wp < |r.cells| && r.lastRead < |r.cells| && r.total >= |r.cells|
    ensures Refused(r, |data|, true)
            <==> |data| >= |r.cells| || Writes(r.wp, |data|, |r.cells|, r.lastRead)
    ensures var r' := Appended(r, data, true);
            |r'.cells| == |r.cells| && r'.cells[r.lastRead] == r.cells[r.lastRead]
  {
    if !Refused(r, |data|, true) { CellsAppended(r, data, true, r.lastRead); }
  }

  // The k-th byte after position `from` lies at position p of the ring.
  predicate Around(from: nat, k: nat, cap: nat, p: nat)
    requires cap > 0
  {
    (from + k) % cap == p
  }

  lemma AroundIs(from: nat, k: nat, cap: nat, p: nat)
    requires from < cap && k < cap && p < cap
    ensures Around(from, k, cap, p) <==> from + k == p || from + k == p + cap
  {
    if from + k < cap { DivModIs(from + k, cap, 0, from + k); } else { DivModIs(from + k, cap, 1, from + k - cap); }
  }

  // An append is refused exactly when the reader is to be protected and it would fill the ring, or
  // write the byte the reader reads next of a ring that is full.
  lemma RefusedExactly(r: Ring, n: nat, protect: bool)
    requires r.wp < |r.cells| && r.lastRead < |r.cells|
    ensures var cap := |r.cells|;
            Refused(r, n, protect)
            <==> protect && (n >= cap || (r.total >= cap && exists k :: 0 <= k < n && Around(r.wp, k, cap, r.lastRead)))
  {
    var cap := |r.cells|;
    if n < cap {
      Reaches(r.wp, n, cap, r.lastRead);
    }
  }

  // A stretch of n bytes from `from` on takes in position p.
  lemma Reaches(from: nat, n: nat, cap: nat, p: nat)
    requires from < cap && p < cap && n < cap
    ensures (exists k :: 0 <= k < n && Around(from, k, cap, p)) <==> from <= p < from + n || p + cap < from + n
  {
    forall k | 0 <= k < n ensures Around(from, k, cap, p) <==> from + k == p || from + k == p + cap {
      AroundIs(from, k, cap, p);
    }
    hide Around;
    if from <= p < from + n { assert Around(from, p - from, cap, p); }
    if p + cap < from + n { assert Around(from, p + cap - from, cap, p); }
  }

  // What is not refused extends the stream, and its last bytes are where the writer was.
  lemma AppendExactly(r: Ring, h: History, data: seq<Byte>, protect: bool)
    requires Tracks(r, h) && !Refused(r, |data|, protect)
    ensures var (r', h') := (Appended(r, data, protect), Recorded(r, h, data, protect));
            && |r'.cells| == |r.cells| && h'.stream == h.stream + data
            && (|data| < |r.cells| ==>
                  && Around(r.wp, |data|, |r.cells|, r'.wp)
                  && forall k, p :: 0 <= k < |data| && 0 <= p < |r.cells| && Around(r.wp, k, |r.cells|, p) ==>
                       r'.cells[p] == data[k])
  {
    if |data| < |r.cells| {
      var r', cap := Appended(r, data, protect), |r.cells|;
      AppendedSizes(r, data, protect);
      AroundIs(r.wp, |data|, cap, r'.wp);
      forall k, p | 0 <= k < |data| && 0 <= p < cap && Around(r.wp, k, cap, p) ensures r'.cells[p] == data[k] {
        AroundIs(r.wp, k, cap, p);
        CellsAppended(r, data, protect, p);
      }
    }
  }

  // ---- Reading

  // The write position lies in the bytes asked for, or within the margin after them.
  predicate Straddles(wp: nat, off: nat, n: nat, margin: nat, cap: nat)
  {
    var unsafeEnd := off + n + margin;
    if unsafeEnd <= cap then off <= wp < unsafeEnd else wp >= off || wp < unsafeEnd - cap
  }

  // A read straddles exactly when the writer writes next into the bytes asked for or the margin
  // after them, around the end of the ring.
  lemma StraddlesExactly(wp: nat, off: nat, n: nat, margin: nat, cap: nat)
    requires wp < cap && off + n <= cap && off < cap
    ensures Straddles(wp, off, n, margin, cap) <==> exists k :: 0 <= k < n + margin && Around(off, k, cap, wp)
  {
    var m := n + margin;
    if m < cap {
      Reaches(off, m, cap, wp);
    } else {
      var k := if off <= wp then wp - off else wp + cap - off;
      AroundIs(off, k, cap, wp);
    }
  }

  // The bytes at a file offset; what was never written reads as zero.
  function Served(r: Ring, off: nat, n: nat): (s: seq<Byte>)
    ensures |s| == n
    ensures forall k :: 0 <= k < n ==> s[k] == ServedByte(r, off + k)
    decreases n
  {
    if n == 0 then [] else Served(r, off, n - 1) + [ServedByte(r, off + n - 1)]
  }

  function ServedByte(r: Ring, p: nat): Byte
  {
    if p < r.total && p < |r.cells| then r.cells[p] else 0
  }

  // A read that passes the test is one contiguous piece of the stream, or lies wholly where
  // nothing has been written yet.
  lemma NeverSplices(r: Ring, h: History, off: nat, n: nat, margin: nat)
    requires Tracks(r, h) && off + n <= |r.cells| && n > 0
    requires !Straddles(r.wp, off, n, margin, |r.cells|)
    ensures if r.total < |r.cells| && off > r.wp
            then forall k :: 0 <= k < n ==> Served(r, off, n)[k] == 0
            else var i := IndexOf(r, h, off);
                 0 <= i <= i + n <= |h.stream| && Served(r, off, n) == h.stream[i..i + n]
  {
    var s := Served(r, off, n);
    if !(r.total < |r.cells| && off > r.wp) {
      var i := IndexOf(r, h, off);
      assert off + n <= r.wp || off > r.wp;
      assert forall p :: off <= p < off + n ==> IndexOf(r, h, p) == i + p - off;
      assert s == h.stream[i..i + n];
    }
  }

  // Without the test a read around the write position of a full ring jumps back a whole lap.
  lemma SplicesAcrossWriter(r: Ring, h: History, off: nat, n: nat)
    requires Tracks(r, h) && r.total == |r.cells| && off < r.wp < off + n <= |r.cells|
    ensures Straddles(r.wp, off, n, 0, |r.cells|)
    ensures Served(r, off, n)
            == h.stream[h.lapStart + off..] + h.stream[|h.stream| - |r.cells|..|h.stream| - |r.cells| + off + n - r.wp]
  {
    hide ServedByte, Served;
    var newer := h.stream[h.lapStart + off..];
    var older := h.stream[|h.stream| - |r.cells|..|h.stream| - |r.cells| + off + n - r.wp];
    forall k | 0 <= k < n ensures Served(r, off, n)[k] == (newer + older)[k] {
      FullServes(r, h, off + k);
    }
  }

  lemma FullServes(r: Ring, h: History, p: nat)
    requires Tracks(r, h) && r.total == |r.cells| && p < |r.cells|
    ensures 0 <= IndexOf(r, h, p) < |h.stream| && ServedByte(r, p) == h.stream[IndexOf(r, h, p)]
  {}

  // ---- Whole runs

  // An append, or a read of n bytes that was served or not.
  datatype Event = Append(data: seq<Byte>, protect: bool) | Read(off: nat, n: nat, served: bool)

  function AfterRead(r: Ring, off: nat, n: nat): Ring
    requires |r.cells| > 0
  {
    r.(lastRead := (off + n) % |r.cells|)
  }

  function Step(r: Ring, e: Event): (r': Ring)
    requires r.wp < |r.cells|
    ensures |r'.cells| == |r.cells| && r'.wp < |r'.cells|
  {
    match e
    case Append(data, protect) => Appended(r, data, protect)
    case Read(off, n, served) => if served then AfterRead(r, off, n) else r
  }

  function StepHistory(r: Ring, h: History, e: Event): History
    requires r.wp < |r.cells|
  {
    match e
    case Append(data, protect) => Recorded(r, h, data, protect)
    case Read(_, _, _) => h
  }

  function After(r: Ring, events: seq<Event>): (r': Ring)
    requires r.wp < |r.cells|
    ensures |r'.cells| == |r.cells| && r'.wp < |r'.cells|
    decreases |events|
  {
    if |events| == 0 then r else After(Step(r, events[0]), events[1..])
  }

  function HistoryAfter(r: Ring, h: History, events: seq<Event>): History
    requires r.wp < |r.cells|
    decreases |events|
  {
    if |events| == 0 then h else HistoryAfter(Step(r, events[0]), StepHistory(r, h, events[0]), events[1..])
  }

  lemma {:induction false} RunTracks(r: Ring, h: History, events: seq<Event>)
    requires Tracks(r, h)
    ensures Tracks(After(r, events), HistoryAfter(r, h, events))
    decreases |events|
  {
    hide Appended, Recorded;
    if |events| > 0 {
      match events[0] {
        case Append(data, protect) => AppendTracks(r, h, data, protect);
        case Read(_, _, _) =>
      }
      RunTracks(Step(r, events[0]), StepHistory(r, h, events[0]), events[1..]);
    }
  }

  // After any run whatever, a read that passes the test is one piece of the stream, or lies
  // wholly where nothing was ever written and is all zeros.
  lemma RunNeverSplices(cap: nat, events: seq<Event>, off: nat, n: nat, margin: nat)
    requires 0 < cap && 0 < n && off + n <= cap
    ensures var r := After(Empty(cap), events);
            var h := HistoryAfter(Empty(cap), History([], 0), events);
            !Straddles(r.wp, off, n, margin, cap) ==>
              if r.total < cap && off > r.wp
              then forall k :: 0 <= k < n ==> Served(r, off, n)[k] == 0
              else var i := IndexOf(r, h, off);
                   0 <= i <= i + n <= |h.stream| && Served(r, off, n) == h.stream[i..i + n]
  {
    hide After, HistoryAfter, Straddles, Served, IndexOf;
    RunTracks(Empty(cap), History([], 0), events);
    var r, h := After(Empty(cap), events), HistoryAfter(Empty(cap), History([], 0), events);
    if !Straddles(r.wp, off, n, margin, cap) {
      NeverSplices(r, h, off, n, margin);
    }
  }

  function Empty(cap: nat): Ring
    requires cap > 0
  {
    Ring(ZeroBytes(cap), 0, 0, 0)
  }

  // While the reader waits, protected appends to a full ring leave the byte it reads next alone.
  lemma {:induction false} UnreadSurvives(r: Ring, events: seq<Event>)
    requires r.wp < |r.cells| && r.lastRead < |r.cells| && r.total == |r.cells|
    requires forall i :: 0 <= i < |events| ==>
               (events[i].Append? && events[i].protect) || (events[i].Read? && !events[i].served)
    ensures var r' := After(r, events);
            r'.lastRead == r.lastRead && r'.cells[r.lastRead] == r.cells[r.lastRead]
    decreases |events|
  {
    hide Appended;
    if |events| > 0 {
      if events[0].Append? { ProtectedAppend(r, events[0].data); StaysFull(r, events[0].data); }
      UnreadSurvives(Step(r, events[0]), events[1..]);
    }
  }

  // After a served read the byte behind it is the one kept for the reader, around the end of the
  // ring.
  lemma NextByteSurvives(r: Ring, off: nat, n: nat, events: seq<Event>)
    requires r.wp < |r.cells| && r.total == |r.cells| && off + n <= |r.cells|
    requires forall i :: 0 <= i < |events| ==>
               (events[i].Append? && events[i].protect) || (events[i].Read? && !events[i].served)
    ensures var next := if off + n == |r.cells| then 0 else off + n;
            After(r, [Read(off, n, true)] + events).cells[next] == r.cells[next]
  {
    var cap := |r.cells|;
    var all := [Read(off, n, true)] + events;
    assert all[1..] == events;
    if off + n < cap { DivModIs(off + n, cap, 0, off + n); } else { DivModIs(cap, cap, 1, 0); }
    UnreadSurvives(Step(r, all[0]), events);
  }

  lemma StaysFull(r: Ring, data: seq<Byte>)
    requires r.wp < |r.cells| && r.total == |r.cells|
    ensures var r' := Appended(r, data, true);
            r'.lastRead == r.lastRead && r'.total == |r'.cells|
  {}

  // ---- The ring in place

  class RingDisk {
    const cells: array<Byte>
    var wp: nat
    var total: nat
    var lastRead: nat
    ghost var history: History

    ghost function View(): Ring
      reads this, cells
    {
      Ring(cells[..], wp, total, lastRead)
    }

    ghost predicate Valid()
      reads this, cells
    {
      Tracks(View(), history)
    }

    constructor (capacity: nat)
      requires capacity > 0
      ensures Valid() && fresh(cells) && View() == Empty(capacity) && history == History([], 0)
    {
      cells := new Byte[capacity](_ => 0);
      wp, total, lastRead := 0, 0, 0;
      history := History([], 0);
      new;
      assert cells[..] == ZeroBytes(capacity);
    }

    // Appends the bytes, unless that would be unsafe for the reader.
    method Append(data: array<Byte>, protect: bool) returns (ok: bool)
      requires Valid() && data != cells
      modifies cells, this`wp, this`total, this`history
      ensures Valid() && ok == !Refused(old(View()), data.Length, protect)
      ensures View() == Appended(old(View()), data[..], protect)
      ensures history == Recorded(old(View()), old(history), data[..], protect)
    {
      hide Tracks, Refused, Written;
      ghost var r, h := View(), history;
      Bounds();
      AppendTracks(r, h, data[..], protect);
      var unsafe := IsRefused(data.Length, protect);
      if unsafe { return false; }
      ok := true;
      history := Recorded(r, h, data[..], protect);
      var n, cap := data.Length, cells.Length;
      if n >= cap {
        CopyTail(data);
        wp, total := 0, cap;
        return;
      }
      CopyIn(data);
      var end := wp + n;
      wp := if end >= cap then end - cap else end;
      if total < cap { total := Min(total + n, cap); }
    }

    method CopyTail(data: array<Byte>)
      requires data != cells && data.Length >= cells.Length
      modifies cells
      ensures cells[..] == data[..][data.Length - cells.Length..]
    {
      Memory.Move(cells, 0, data, data.Length - cells.Length, cells.Length);
    }

    method CopyIn(data: array<Byte>)
      requires data != cells && wp < cells.Length && data.Length < cells.Length
      modifies cells
      ensures cells[..] == Written(old(cells[..]), wp, data[..])
    {
      hide Written;
      ghost var was := cells[..];
      var end, cap := wp + data.Length, cells.Length;
      if end <= cap {
        Memory.Move(cells, wp, data, 0, data.Length);
      } else {
        var first := cap - wp;
        Memory.Move(cells, wp, data, 0, first);
        Memory.Move(cells, 0, data, first, end - cap);
      }
      WrittenAt(was, wp, data[..], cells[..]);
    }

    lemma Bounds()
      requires Valid()
      ensures wp < cells.Length && lastRead < cells.Length && total <= cells.Length
    {}

    method IsRefused(n: nat, protect: bool) returns (unsafe: bool)
      requires Valid()
      ensures unsafe == Refused(View(), n, protect)
    {
      var cap := cells.Length;
      if n >= cap { return protect; }
      var end := wp + n;
      if protect && total >= cap {
        var wrappedEnd := if end > cap then end - cap else end;
        if end <= cap {
          unsafe := wp <= lastRead < end;
        } else {
          unsafe := lastRead >= wp || lastRead < wrappedEnd;
        }
      } else {
        unsafe := false;
      }
    }

    method IsStraddling(off: nat, n: nat, margin: nat) returns (straddling: bool)
      ensures straddling == Straddles(wp, off, n, margin, cells.Length)
    {
      var unsafeEnd := off + n + margin;
      if unsafeEnd <= cells.Length {
        straddling := off <= wp < unsafeEnd;
      } else {
        straddling := wp >= off || wp < unsafeEnd - cells.Length;
      }
    }

    // The firmware's read: without the lock, or too close to the writer, it serves zeros.
    method ReadData(off: nat, buffer: array<Byte>, margin: nat, tookLock: bool) returns (straddled: bool)
      requires Valid() && buffer != cells && off + buffer.Length <= cells.Length
      modifies buffer, this`lastRead
      ensures Valid() && straddled == Straddles(wp, off, buffer.Length, margin, cells.Length)
      ensures buffer[..] == if tookLock && !straddled then Served(old(View()), off, buffer.Length)
                            else ZeroBytes(buffer.Length)
      ensures View() == if tookLock && !straddled then AfterRead(old(View()), off, buffer.Length) else old(View())
    {
      hide Straddles, Served, ServedByte, ZeroBytes;
      Bounds();
      straddled := IsStraddling(off, buffer.Length, margin);
      if tookLock && !straddled {
        CopyOut(off, buffer);
        lastRead := (off + buffer.Length) % cells.Length;
      } else {
        forall k | 0 <= k < buffer.Length { buffer[k] := 0; }
        assert buffer[..] == ZeroBytes(buffer.Length);
      }
    }

    method CopyOut(off: nat, buffer: array<Byte>)
      requires Valid() && buffer != cells && off + buffer.Length <= cells.Length
      modifies buffer
      ensures buffer[..] == Served(View(), off, buffer.Length)
    {
      hide Tracks, Served;
      Bounds();
      forall k | 0 <= k < buffer.Length { buffer[k] := 0; }
      if off < total {
        var m := Min(buffer.Length, total - off);
        Memory.Move(buffer, 0, cells, off, m);
      }
      assert forall k :: 0 <= k < buffer.Length ==> buffer[k] == ServedByte(View(), off + k);
      assert buffer[..] == Served(View(), off, buffer.Length);
    }

    // The prototype's read, sector by sector; it declines a read that is too close to the writer.
    method ReadSectors(first: nat, count: nat, avoidStraddle: bool, margin: nat) returns (data: array?<Byte>)
      requires Valid() && first + count * 512 <= cells.Length
      modifies this`lastRead
      ensures Valid()
      ensures data == null <==> avoidStraddle && Straddles(wp, first, count * 512, margin, cells.Length)
      ensures data != null ==> fresh(data) && data[..] == Served(old(View()), first, count * 512)
      ensures View() == if data != null && count > 0 then AfterRead(old(View()), first, count * 512) else old(View())
    {
      hide Straddles, Served, ServedByte;
      Bounds();
      var unsafe := IsStraddling(first, count * 512, margin);
      if avoidStraddle && unsafe { return null; }
      data := ServeSectors(first, count);
    }

    method ServeSectors(first: nat, count: nat) returns (out: array<Byte>)
      requires Valid() && first + count * 512 <= cells.Length
      modifies this`lastRead
      ensures Valid() && fresh(out) && out[..] == Served(old(View()), first, count * 512)
      ensures View() == if count > 0 then AfterRead(old(View()), first, count * 512) else old(View())
    {
      hide Served, ServedByte, Tracks;
      Bounds();
      out := new Byte[count * 512](_ => 0);
      ghost var r := View();
      var i := 0;
      while i < count
        invariant 0 <= i <= count && Valid()
        invariant View() == if i > 0 then AfterRead(r, first, i * 512) else r
        invariant forall k :: 0 <= k < i * 512 ==> out[k] == ServedByte(r, first + k)
        invariant forall k :: i * 512 <= k < count * 512 ==> out[k] == 0
      {
        SameBytes(r, View());
        ReadTracks(r, history, first, i * 512 + 512);
        CopySector(first + i * 512, out, i * 512);
        lastRead := (first + i * 512 + 512) % cells.Length;
        i := i + 1;
      }
      assert out[..] == Served(r, first, count * 512);
    }

    // A sector goes out whole once any of it is written: the rest of the ring is still zero.
    method CopySector(off: nat, out: array<Byte>, at: nat)
      requires Valid() && out != cells && off + 512 <= cells.Length && at + 512 <= out.Length
      requires forall k :: at <= k < at + 512 ==> out[k] == 0
      modifies out
      ensures forall k :: 0 <= k < out.Length ==>
                out[k] == if at <= k < at + 512 then ServedByte(View(), off + (k - at)) else old(out[k])
    {
      hide Tracks;
      Bounds();
      BeyondIsZero(View(), history);
      if off < total {
        Memory.Move(out, at, cells, off, 512);
      }
    }
  }

  lemma ReadTracks(r: Ring, h: History, off: nat, n: nat)
    requires Tracks(r, h)
    ensures Tracks(AfterRead(r, off, n), h)
  {}

  lemma SameBytes(r: Ring, r': Ring)
    requires r'.cells == r.cells && r'.total == r.total
    ensures forall p: nat :: ServedByte(r', p) == ServedByte(r, p)
  {}

  lemma BeyondIsZero(r: Ring, h: History)
    requires Tracks(r, h)
    ensures forall p :: r.total <= p < |r.cells| ==> r.cells[p] == 0
  {}
}
