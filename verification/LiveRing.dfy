// The live ring: whole chunks are appended and never split at the physical end, so the
// place where a lap ends moves. Kept beside it: the stream of all bytes ever appended.
module LiveRing {
  import opened Bytes

  // `total` is the number of valid bytes, capped at the ring size.
  datatype Ring = Ring(cells: seq<Byte>, wp: nat, lapEnd: nat, total: nat)

  // What the ring holds, in terms of the whole stream. The lap being written started at
  // stream position lapStart, the one before it at prevStart.
  datatype History = History(stream: seq<Byte>, lapStart: nat, prevStart: nat, wrapped: bool)

  function Size(r: Ring): nat { |r.cells| }

  // ---- Positions on the logical ring: the previous lap's [wp, lapEnd), then [0, wp)

  function RingBack(pos: nat, k: nat, lapEnd: nat): int
  {
    if pos >= k then pos - k else lapEnd - (k - pos)
  }

  function Behind(cursor: nat, wp: nat, lapEnd: nat): int
  {
    if cursor <= wp then wp - cursor else lapEnd - cursor + wp
  }

  // A position that is on the logical ring.
  predicate OnRing(cursor: nat, r: Ring) { cursor <= r.wp || cursor <= r.lapEnd }

  // A cursor left at or past the end of the previous lap goes on at the start.
  function Normal(cursor: nat, r: Ring): nat
  {
    if cursor >= r.lapEnd && cursor > r.wp then 0 else cursor
  }

  // ---- The ring mirrors the stream

  ghost predicate Tracks(r: Ring, h: History)
  {
    && r.wp <= Size(r)
    && 0 < r.lapEnd <= Size(r)
    && h.prevStart <= h.lapStart <= |h.stream|
    && |h.stream| - h.lapStart == r.wp
    && r.total == Min(|h.stream|, Size(r))
    && r.cells[..r.wp] == h.stream[h.lapStart..]
    && (if h.wrapped then
          && h.lapStart - h.prevStart == r.lapEnd
          && (forall i :: r.wp <= i < r.lapEnd ==> r.cells[i] == h.stream[h.prevStart + i])
        else h.lapStart == 0 && h.prevStart == 0 && r.lapEnd == Size(r))
  }

  // A fresh ring of n cells.
  function NewRing(cells: seq<Byte>): Ring { Ring(cells, 0, |cells|, 0) }

  const NoHistory: History := History([], 0, 0, false)

  lemma NewRingTracks(cells: seq<Byte>)
    requires |cells| > 0
    ensures Tracks(NewRing(cells), NoHistory)
  {}

  // ---- Appending

  function WriteAt(cells: seq<Byte>, at: nat, data: seq<Byte>): (r: seq<Byte>)
    requires at + |data| <= |cells|
    ensures |r| == |cells|
    ensures forall i :: 0 <= i < |cells| ==> r[i] == if at <= i < at + |data| then data[i - at] else cells[i]
  {
    cells[..at] + data + cells[at + |data|..]
  }

  predicate Refused(r: Ring, data: seq<Byte>, unreadProtect: bool)
  {
    |data| >= Size(r) && unreadProtect
  }

  function Appended(r: Ring, data: seq<Byte>): (r': Ring)
    requires 0 < Size(r) && r.wp <= Size(r)
    ensures Size(r') == Size(r) && r'.wp <= Size(r')
  {
    var n, size := |data|, Size(r);
    if n >= size then Ring(data[n - size..], 0, size, size)
    else if r.wp + n > size then
      Ring(WriteAt(r.cells, 0, data), n, r.wp, CappedTotal(r, n))
    else
      Ring(WriteAt(r.cells, r.wp, data), r.wp + n, r.lapEnd, CappedTotal(r, n))
  }

  function CappedTotal(r: Ring, n: nat): nat
  {
    if r.total < Size(r) then Min(r.total + n, Size(r)) else r.total
  }

  ghost function Recorded(r: Ring, h: History, data: seq<Byte>): History
  {
    var s := h.stream + data;
    if |data| >= Size(r) then History(s, |s|, |s| - Size(r), true)
    else if r.wp + |data| > Size(r) then History(s, |h.stream|, h.lapStart, true)
    else h.(stream := s)
  }

  // Appending keeps the ring a faithful image of the newest part of the stream, across the
  // wrap and for a chunk larger than the whole ring.
  lemma AppendTracks(r: Ring, h: History, data: seq<Byte>)
    requires Tracks(r, h) && 0 < Size(r)
    ensures Tracks(Appended(r, data), Recorded(r, h, data))
  {
    if |data| >= Size(r) {
      ReplaceTracks(r, h, data);
    } else if r.wp + |data| > Size(r) {
      WrapTracks(r, h, data);
    } else {
      ExtendTracks(r, h, data);
    }
  }

  lemma ReplaceTracks(r: Ring, h: History, data: seq<Byte>)
    requires Tracks(r, h) && 0 < Size(r) <= |data|
    ensures Tracks(Appended(r, data), Recorded(r, h, data))
  {}

  lemma WrapTracks(r: Ring, h: History, data: seq<Byte>)
    requires Tracks(r, h) && |data| < Size(r) < r.wp + |data|
    ensures Tracks(Appended(r, data), Recorded(r, h, data))
  {
    var r', h' := Appended(r, data), Recorded(r, h, data);
    forall i | r'.wp <= i < r'.lapEnd
      ensures r'.cells[i] == h'.stream[h'.prevStart + i]
    {
      NewCell(r, h, i);
    }
    assert r'.cells[..r'.wp] == h'.stream[h'.lapStart..];
  }

  lemma ExtendTracks(r: Ring, h: History, data: seq<Byte>)
    requires Tracks(r, h) && |data| < Size(r) && r.wp + |data| <= Size(r)
    ensures Tracks(Appended(r, data), Recorded(r, h, data))
  {
    hide WriteAt;
    var r', h' := Appended(r, data), Recorded(r, h, data);
    WriteExtends(r.cells, r.wp, data);
    assert h'.stream[h'.lapStart..] == h.stream[h.lapStart..] + data;
  }

  // Filling up the first lap by writing past disk_append leaves a ring that has just wrapped.
  lemma FillTracks(r: Ring, h: History, tail: seq<Byte>)
    requires Tracks(r, h) && !h.wrapped && 0 < |tail| && r.wp + |tail| == Size(r)
    ensures Tracks(Ring(WriteAt(r.cells, r.wp, tail), 0, Size(r), Size(r)),
                   History(h.stream + tail, Size(r), 0, true))
  {
    forall i | 0 <= i < r.wp ensures r.cells[i] == h.stream[i] {
      NewCell(r, h, i);
    }
  }

  lemma WriteExtends(cells: seq<Byte>, at: nat, data: seq<Byte>)
    requires at + |data| <= |cells|
    ensures WriteAt(cells, at, data)[..at + |data|] == cells[..at] + data
  {
  }

  // ---- Reading

  // Whether the cells from the cursor to the write position have all been written.
  ghost predicate Written(cursor: nat, r: Ring, h: History)
  {
    cursor <= r.wp || h.wrapped
  }

  // Whether n bytes can be copied from the cursor: on the logical ring up to the writer, and
  // past its end as far as the memory goes.
  predicate Copyable(r: Ring, cursor: nat, n: nat)
  {
    if OnRing(cursor, r) then n <= Behind(cursor, r.wp, r.lapEnd) else cursor + n <= Size(r)
  }

  // n bytes from a cursor, in ring order.
  function ReadFrom(r: Ring, cursor: nat, n: nat): (data: seq<Byte>)
    requires r.wp <= Size(r) && r.lapEnd <= Size(r) && Copyable(r, cursor, n)
    ensures |data| == n
  {
    if cursor <= r.wp || cursor > r.lapEnd || n <= r.lapEnd - cursor then r.cells[cursor..cursor + n]
    else r.cells[cursor..r.lapEnd] + r.cells[..n - (r.lapEnd - cursor)]
  }

  // What a copy of n bytes finds inside the ring's memory.
  function CopyOf(r: Ring, cursor: nat, n: nat): (data: seq<Byte>)
    requires r.wp <= Size(r) && r.lapEnd <= Size(r) && cursor <= Size(r)
    ensures |data| <= n && (Copyable(r, cursor, n) ==> |data| == n)
  {
    if Copyable(r, cursor, n) then ReadFrom(r, cursor, n)
    else if cursor + n <= Size(r) then r.cells[cursor..cursor + n]
    else r.cells[cursor..]
  }

  function CursorAfter(r: Ring, cursor: nat, n: nat): nat
  {
    if cursor <= r.wp || cursor > r.lapEnd || n <= r.lapEnd - cursor then cursor + n
    else n - (r.lapEnd - cursor)
  }

  // The cells of the two laps, as stretches of the stream.
  lemma OldCells(r: Ring, h: History, from: nat, to: nat)
    requires Tracks(r, h) && h.wrapped && r.wp <= from <= to <= r.lapEnd
    ensures h.prevStart + to <= |h.stream|
    ensures r.cells[from..to] == h.stream[h.prevStart + from..h.prevStart + to]
  {}

  lemma NewCells(r: Ring, h: History, from: nat, to: nat)
    requires Tracks(r, h) && from <= to <= r.wp
    ensures h.lapStart + to <= |h.stream|
    ensures r.cells[from..to] == h.stream[h.lapStart + from..h.lapStart + to]
  {
    forall i | from <= i < to ensures r.cells[i] == h.stream[h.lapStart + i] {
      NewCell(r, h, i);
    }
  }

  lemma NewCell(r: Ring, h: History, i: nat)
    requires Tracks(r, h) && i < r.wp
    ensures h.lapStart + i < |h.stream| && r.cells[i] == h.stream[h.lapStart + i]
  {
    assert r.cells[i] == r.cells[..r.wp][i];
    assert h.stream[h.lapStart + i] == h.stream[h.lapStart..][i];
  }

  // Whatever is read from `behind` bytes back is exactly that stretch of the stream: never
  // past the writer, never the leftover tail of an older lap, and whole across the wrap.
  lemma ReadIsStream(r: Ring, h: History, cursor: nat, n: nat)
    requires Tracks(r, h) && OnRing(cursor, r) && Written(cursor, r, h)
    requires n <= Behind(cursor, r.wp, r.lapEnd)
    ensures var b := Behind(cursor, r.wp, r.lapEnd);
            && n <= b <= |h.stream|
            && ReadFrom(r, cursor, n) == h.stream[|h.stream| - b..|h.stream| - b + n]
  {
    assert |h.stream| == h.lapStart + r.wp && (h.wrapped ==> h.lapStart == h.prevStart + r.lapEnd);
    hide Tracks;
    if cursor <= r.wp {
      NewCells(r, h, cursor, cursor + n);
    } else if n <= r.lapEnd - cursor {
      OldCells(r, h, cursor, cursor + n);
    } else {
      ReadAcrossWrap(r, h, cursor, n);
    }
  }

  lemma ReadAcrossWrap(r: Ring, h: History, cursor: nat, n: nat)
    requires Tracks(r, h) && h.wrapped && r.wp < cursor <= r.lapEnd
    requires r.lapEnd - cursor < n <= r.lapEnd - cursor + r.wp
    ensures ReadFrom(r, cursor, n) == h.stream[h.prevStart + cursor..h.prevStart + cursor + n]
  {
    var s, rest := h.stream, n - (r.lapEnd - cursor);
    var at := h.prevStart + cursor;
    OldCells(r, h, cursor, r.lapEnd);
    NewCells(r, h, 0, rest);
    assert h.prevStart + r.lapEnd == h.lapStart;
    Join(s, at, h.lapStart, at + n);
    hide Tracks;
  }

  lemma Join(s: seq<Byte>, a: nat, b: nat, c: nat)
    requires a <= b <= c <= |s|
    ensures s[a..b] + s[b..c] == s[a..c]
  {}

  // ---- A cursor as a stream position

  // The cursor points at stream position `at`, in a lap that started at `lap`.
  ghost predicate Points(cursor: nat, at: nat, lap: nat, r: Ring, h: History)
  {
    && at == lap + cursor
    && at <= |h.stream|
    && (lap == h.lapStart
        || (h.wrapped && lap == h.prevStart && at <= h.lapStart)
        || at <= h.prevStart)
  }

  // Still the same place on the ring: in the lap being written, or less than one lap back.
  ghost predicate Alive(at: nat, lap: nat, r: Ring, h: History)
  {
    lap == h.lapStart || (h.wrapped && |h.stream| - at < r.lapEnd)
  }

  lemma AppendPoints(cursor: nat, at: nat, lap: nat, r: Ring, h: History, data: seq<Byte>)
    requires Tracks(r, h) && Points(cursor, at, lap, r, h) && 0 < Size(r)
    ensures Points(cursor, at, lap, Appended(r, data), Recorded(r, h, data))
  {
  }

  // The ring arithmetic gives the true lag of the cursor exactly while its place is alive.
  lemma BehindExact(cursor: nat, at: nat, lap: nat, r: Ring, h: History)
    requires Tracks(r, h) && Points(cursor, at, lap, r, h)
    ensures Behind(Normal(cursor, r), r.wp, r.lapEnd) == |h.stream| - at <==> Alive(at, lap, r, h)
  {
  }

  // Any written place on the ring is an alive stream position.
  lemma PlacePoints(cursor: nat, r: Ring, h: History)
    requires Tracks(r, h) && OnRing(cursor, r) && Written(cursor, r, h)
    ensures var at := |h.stream| - Behind(cursor, r.wp, r.lapEnd);
            && 0 <= at - cursor
            && Points(cursor, at, at - cursor, r, h)
            && Alive(at, at - cursor, r, h)
  {}
}
