// The writer and the reader as the firmware runs them: one ring in memory, a cursor and the
// open-file state beside it. Each call is one critical section of the ring mutex.
module LiveDisk {
  import opened Bytes
  import opened Clock
  import opened LiveRing
  import opened LiveServe
  import LiveSession
  import opened Memory

  class Disk {
    const ring: array<Byte>
    const silence: seq<Byte>
    var writePos: nat
    var lapEnd: nat
    var totalWritten: nat
    // The reader's state: cursor, open file, underrun, silence bridge, catch-up grace.
    var reader: Live

    ghost function R(): Ring
      reads this`writePos, this`lapEnd, this`totalWritten, ring
    {
      Ring(ring[..], writePos, lapEnd, totalWritten)
    }

    ghost predicate Valid()
      reads this, ring
    {
      RingFits(R()) && LOOP_START < |silence| && reader.silenceOff < |silence| && reader.openBase <= ring.Length
    }

    constructor (size: nat, silence: seq<Byte>)
      requires MIN_LAP <= size < WORD - MAX_READ && LOOP_START < |silence|
      ensures Valid() && R() == NewRing(ring[..]) && Size(R()) == size && fresh(ring)
      ensures reader == Idle && this.silence == silence
      ensures LiveSession.Inv(LiveSession.Machine(R(), NoHistory, reader, 0, 0), silence)
    {
      ring := new Byte[size](i => 0);
      this.silence := silence;
      writePos, lapEnd, totalWritten := 0, size, 0;
      reader := Idle;
      new;
      NewRingTracks(ring[..]);
      LiveSession.StartInv(R(), NoHistory, silence);
    }

    // ---- The writer

    method Append(data: array<Byte>, n: nat, unreadProtect: bool) returns (ok: bool)
      requires Valid() && n <= data.Length && data != ring
      modifies this`writePos, this`lapEnd, this`totalWritten, ring
      ensures n + MIN_LAP <= ring.Length || ring.Length <= n ==> Valid()
      ensures ok == !Refused(old(R()), data[..n], unreadProtect)
      ensures R() == if ok then Appended(old(R()), data[..n]) else old(R())
    {
      ghost var r := R();
      ghost var chunk := data[..n];
      assert writePos <= ring.Length;
      if n + MIN_LAP <= ring.Length || ring.Length <= n { AppendFits(r, chunk); }
      hide RingFits, WriteAt;
      if n >= ring.Length {
        if unreadProtect { return false; }
        Move(ring, 0, data, n - ring.Length, ring.Length);
        writePos := 0;
        lapEnd := ring.Length;
        totalWritten := ring.Length;
        assert ring[..] == chunk[n - ring.Length..];
        return true;
      }
      var wp := writePos;
      var end := wp + n;
      if end > ring.Length {
        lapEnd := wp;
        wp := 0;
        end := n;
      }
      Put(wp, data, n);
      writePos := end;
      if totalWritten < ring.Length {
        totalWritten := if totalWritten + n < ring.Length then totalWritten + n else ring.Length;
      }
      return true;
    }

    method Put(wp: nat, data: array<Byte>, n: nat)
      requires data != ring && n <= data.Length && wp + n <= ring.Length
      modifies ring
      ensures ring[..] == WriteAt(old(ring[..]), wp, data[..n])
    {
      Move(ring, wp, data, 0, n);
    }

    // Fills the fresh ring with the primer over and over before anything else runs: whole copies
    // while they fit, then as much of one as is left, written past the append.
    method Prime(primer: array<Byte>) returns (ghost h: History, ghost copies: seq<Byte>)
      requires Valid() && R() == NewRing(ring[..]) && reader == Idle
      requires primer != ring && 0 < primer.Length < ring.Length
      modifies this`writePos, this`lapEnd, this`totalWritten, ring
      ensures Valid() && totalWritten == ring.Length
      ensures Copies(copies, primer[..]) && |copies| <= ring.Length < |copies| + primer.Length
      ensures h.stream == copies + primer[..ring.Length - |copies|]
      ensures LiveSession.Inv(LiveSession.Machine(R(), h, reader, 0, 0), silence)
    {
      hide Tracks, Appended, Recorded;
      h := NoHistory;
      NewRingTracks(ring[..]);
      FirstLapStart(R());
      while writePos + primer.Length <= ring.Length
        invariant Valid() && FirstLap(R(), h)
        invariant Copies(h.stream, primer[..])
        decreases ring.Length - writePos
      {
        FirstLapAppend(R(), h, primer[..]);
        OneMoreCopy(h.stream, primer[..]);
        h := Recorded(R(), h, primer[..]);
        assert primer[..primer.Length] == primer[..];
        var _ := Append(primer, primer.Length, false);
      }
      copies := h.stream;
      var rest := ring.Length - writePos;
      ghost var (r, tail) := (R(), primer[..rest]);
      assert copies + [] == copies;
      if rest > 0 {
        FillTail(primer, rest);
        FirstLapFill(r, h, tail);
        h := History(copies + tail, ring.Length, 0, true);
      }
      LiveSession.StartInv(R(), h, silence);
    }

    method FillTail(primer: array<Byte>, rest: nat)
      requires primer != ring && 0 < rest <= primer.Length && writePos + rest == ring.Length
      modifies this`writePos, this`totalWritten, ring
      ensures R() == Ring(WriteAt(old(R().cells), old(writePos), primer[..rest]), 0, lapEnd, ring.Length)
    {
      hide WriteAt, PositionOf;
      Put(writePos, primer, rest);
      writePos := PositionOf(writePos + rest, ring.Length);
      totalWritten := ring.Length;
    }

    // ---- Silence

    method ServeSilence(dst: array<Byte>, at: nat, len: nat)
      requires at + len <= dst.Length && LOOP_START < |silence| && reader.silenceOff < |silence|
      modifies this`reader, dst
      ensures reader == old(reader).(silenceOff := SilenceOff(old(reader.silenceOff), len, silence))
      ensures forall i :: 0 <= i < dst.Length ==>
        dst[i] == if at <= i < at + len then Silence(old(reader.silenceOff), len, silence)[i - at] else old(dst[i])
    {
      hide Silence, SilenceOff;
      ghost var off0 := reader.silenceOff;
      ghost var all := Silence(off0, len, silence);
      var off, done := reader.silenceOff, 0;
      SilenceBlock(off0, 0, silence);
      while done < len
        invariant done <= len && off < |silence| && reader == old(reader)
        invariant off == SilenceOff(off0, done, silence)
        invariant forall i :: 0 <= i < dst.Length ==>
          dst[i] == if at <= i < at + done then all[i - at] else old(dst[i])
        decreases len - done
      {
        var chunk := if |silence| - off > len - done then len - done else |silence| - off;
        SilenceSplit(off0, done, chunk, silence);
        SilenceSplit(off0, done + chunk, len - done - chunk, silence);
        SilenceBlock(off, chunk, silence);
        Store(dst, at + done, silence[off..off + chunk]);
        done := done + chunk;
        off := off + chunk;
        if off >= |silence| { off := LOOP_START; }
      }
      reader := reader.(silenceOff := off);
    }

    // ---- The reader

    // The base of a newly opened file; c0 is the cursor on the logical ring.
    method ChooseBase(c0: nat, q: Req) returns (base: nat)
      requires RingFits(R()) && c0 == Normal(reader.cursor, R())
      ensures base == OpenBase(reader, R(), q)
    {
      hide Behind, RingBack;
      var c := if reader.init then c0 else RingBackAt(writePos, TARGET_LAG);
      base := if q.afterEnd then c else RingBackAt(c, READAHEAD);
      if !reader.init || BehindAt(base) > MAX_OPEN_LAG {
        base := RingBackAt(writePos, TARGET_LAG + READAHEAD);
      }
      assert base == WantedBase(reader, R(), q);
      var maxBack := if totalWritten > SAFETY_MARGIN then totalWritten - SAFETY_MARGIN else 0;
      if BehindAt(base) > maxBack { base := RingBackAt(writePos, maxBack); }
    }

    // Onto the logical ring, and for a read at offset 0 to the start of the file.
    method PlaceCursor(q: Req)
      requires RingFits(R()) && q.playback
      modifies this`reader
      ensures reader == Placed(old(reader), R(), q)
    {
      hide OpenBase, Behind;
      var c := if reader.cursor >= lapEnd && reader.cursor > writePos then 0 else reader.cursor;
      if q.off == 0 {
        var reread := q.file == reader.openFile && (q.now - reader.openMs) % WORD < REREAD_WINDOW_MS
                      && reader.openMaxOff <= REREAD_MAX_OFF;
        if reread {
          c := reader.openBase;
        } else {
          c := ChooseBase(c, q);
          reader := reader.(openBase := c, openFile := q.file, openMs := q.now, openMaxOff := 0,
                            opens := reader.opens + 1);
        }
        reader := reader.(init := true, underrun := false, bridge := 0,
                          maxLag := (BehindAt(c) + CATCHUP_THRESHOLD) % WORD, grace := OPEN_GRACE);
      }
      reader := reader.(cursor := c);
    }

    // The lag to go on with, after a catch-up jump when the cursor is too far behind.
    method CatchUp(n: nat) returns (behind: nat)
      requires RingFits(R()) && n <= MAX_READ
      modifies this`reader
      ensures (reader, behind) == Caught(old(reader), R(), n)
    {
      hide Behind, RingBack;
      var needJump := !reader.init;
      behind := 0;
      if !needJump {
        behind := BehindAt(reader.cursor);
        var limit := JUMP_LIMIT;
        if reader.maxLag != 0 {
          if behind <= limit || reader.grace == 0 {
            reader := reader.(maxLag := 0);
          } else {
            limit := reader.maxLag;
          }
        }
        needJump := behind > limit;
      }
      if needJump {
        if reader.init { reader := reader.(jumps := reader.jumps + 1); }
        var target := if TARGET_LAG > n then TARGET_LAG else n;
        reader := reader.(cursor := RingBackAt(writePos, target), init := true, bridge := BRIDGE_BYTES,
                          silenceOff := LOOP_START, underrun := false);
        behind := target;
      }
    }

    // Copies n bytes from the cursor, across the logical wrap, and moves the cursor on. What lies
    // past the ring's memory is not known: there the buffer is left as it was.
    method CopyFromRing(buffer: array<Byte>, at: nat, n: nat)
      requires buffer != ring && at + n <= buffer.Length
      requires RingFits(R()) && n <= MAX_READ && reader.cursor <= ring.Length
      requires OnRing(reader.cursor, R()) ==> Copyable(R(), reader.cursor, n)
      modifies this`reader, buffer
      ensures reader == old(reader).(cursor := CursorAfter(R(), old(reader.cursor), n))
      ensures var data := CopyOf(R(), old(reader.cursor), n);
              forall i :: 0 <= i < buffer.Length ==>
                buffer[i] == if at <= i < at + |data| then data[i - at] else old(buffer[i])
    {
      hide Copyable, CursorAfter, CopyOf, RingFits, ToEnd, OnRing;
      ghost var r := R();
      var cursor := reader.cursor;
      var first := ToEnd(cursor, lapEnd);
      if cursor <= writePos || first >= n {
        OnePiece(r, cursor, n);
        CopyOut(buffer, at, cursor, if cursor + n <= ring.Length then n else ring.Length - cursor);
        reader := reader.(cursor := cursor + n);
      } else {
        TwoPieces(r, cursor, n, first);
        CopyOut(buffer, at, cursor, first);
        CopyOut(buffer, at + first, 0, n - first);
        reader := reader.(cursor := n - first);
      }
    }

    method CopyOut(buffer: array<Byte>, at: nat, from: nat, n: nat)
      requires buffer != ring && at + n <= buffer.Length && from + n <= ring.Length
      modifies buffer
      ensures forall i :: 0 <= i < buffer.Length ==>
                buffer[i] == if at <= i < at + n then ring[from + (i - at)] else old(buffer[i])
    {
      Move(buffer, at, ring, from, n);
    }

    // An underrun: valid silent frames, and the cursor is held.
    method ServeUnderrun(buffer: array<Byte>, at: nat, n: nat)
      requires at + n <= buffer.Length && LOOP_START < |silence| && reader.silenceOff < |silence|
      modifies this`reader, buffer
      ensures var s := SilentLive(old(reader));
              && reader == s.(silenceOff := SilenceOff(s.silenceOff, n, silence), underruns := s.underruns + 1)
              && forall i :: 0 <= i < buffer.Length ==>
                   buffer[i] == if at <= i < at + n then Silence(s.silenceOff, n, silence)[i - at] else old(buffer[i])
    {
      hide Silence, SilenceOff;
      if !reader.underrun { reader := reader.(silenceOff := LOOP_START, underrun := true); }
      ServeSilence(buffer, at, n);
      reader := reader.(underruns := reader.underruns + 1);
    }

    // Ring bytes, with what is left of the silence bridge laid over them.
    method ServeRing(buffer: array<Byte>, at: nat, n: nat)
      requires buffer != ring && at + n <= buffer.Length
      requires RingFits(R()) && n <= MAX_READ && reader.cursor <= ring.Length
      requires OnRing(reader.cursor, R()) ==> Copyable(R(), reader.cursor, n)
      requires LOOP_START < |silence| && reader.silenceOff < |silence|
      modifies this`reader, buffer
      ensures var l := old(reader);
              var m, data := Min(n, l.bridge), CopyOf(R(), l.cursor, n);
              && reader == l.(underrun := false, cursor := CursorAfter(R(), l.cursor, n),
                              silenceOff := SilenceOff(l.silenceOff, m, silence), bridge := l.bridge - m)
              && forall i :: 0 <= i < buffer.Length ==>
                   buffer[i] == if at <= i < at + m then Silence(l.silenceOff, m, silence)[i - at]
                                else if at <= i < at + |data| then data[i - at]
                                else old(buffer[i])
    {
      hide Behind, CopyOf, Copyable, Silence, SilenceOff, CursorAfter;
      reader := reader.(underrun := false);
      CopyFromRing(buffer, at, n);
      SilenceNothing(reader.silenceOff, silence);
      if reader.bridge > 0 {
        var m := if n < reader.bridge then n else reader.bridge;
        ServeSilence(buffer, at, m);
        reader := reader.(bridge := reader.bridge - m);
      }
    }

    method Serve(buffer: array<Byte>, at: nat, q: Req, n: nat, behind: nat)
      requires buffer != ring && at + n <= buffer.Length
      requires RingFits(R()) && n <= MAX_READ && reader.cursor <= ring.Length
      requires OnRing(reader.cursor, R()) && !Underruns(reader, behind, n) ==> Copyable(R(), reader.cursor, n)
      requires LOOP_START < |silence| && reader.silenceOff < |silence|
      modifies this`reader, buffer
      ensures reader == Served(old(reader), behind, R(), q, n, silence)
      ensures var data := ServedBytes(old(reader), behind, R(), n, silence);
              forall i :: 0 <= i < buffer.Length ==>
                buffer[i] == if at <= i < at + |data| then data[i - at] else old(buffer[i])
    {
      hide Behind, CopyOf, Copyable, Silence, SilenceOff, CursorAfter;
      if behind < n || (reader.underrun && behind < TARGET_LAG) {
        ServeUnderrun(buffer, at, n);
      } else {
        ServeRing(buffer, at, n);
      }
      reader := reader.(grace := if reader.grace > n then reader.grace - n else 0);
      if q.file == reader.openFile && q.off + n > reader.openMaxOff {
        reader := reader.(openMaxOff := q.off + n);
      }
    }

    // One read of a file's data. The buffer has been zeroed; what is not served stays zero. Where
    // the copy runs past the ring's memory, nothing is said of the bytes it brings from there.
    method ReadLive(buffer: array<Byte>, at: nat, q: Req)
      requires buffer != ring && at + q.n <= buffer.Length
      requires Valid() && q.n <= MAX_READ
      modifies this`reader, buffer
      ensures Valid() && reader == AfterRead(old(reader), R(), q, silence)
      ensures var data := ReadBytes(old(reader), R(), q, silence);
              forall i :: 0 <= i < buffer.Length && (at + |data| <= i < at + q.n ==> InMemory(old(reader), R(), q)) ==>
                buffer[i] == if at <= i < at + |data| then data[i - at] else old(buffer[i])
    {
      hide Placed, Caught, Served, ServedBytes, Silence, SilenceOff;
      var n := if q.n < totalWritten then q.n else totalWritten;
      if n > 0 && totalWritten > SAFETY_MARGIN + n {
        if !q.playback {
          var keep := reader.silenceOff;
          ServeSilence(buffer, at, n);
          reader := reader.(silenceOff := keep, probes := reader.probes + 1);
        } else {
          PlaceCursor(q);
          var behind := CatchUp(n);
          CaughtIsReady(old(reader), R(), q, silence);
          AfterReadOk(old(reader), R(), q, silence);
          Serve(buffer, at, q, n, behind);
        }
      }
    }

    function RingBackAt(pos: nat, k: nat): (c: nat)
      requires RingFits(R()) && k <= MIN_LAP && OnRing(pos, R())
      reads this`writePos, this`lapEnd, this`totalWritten, ring
      ensures c == Back(pos, k, R())
    {
      RingBack(pos, k, lapEnd)
    }

    function BehindAt(pos: nat): (b: nat)
      requires RingFits(R())
      reads this`writePos, this`lapEnd, this`totalWritten, ring
      ensures b == Lag(pos, R())
    {
      Behind(pos, writePos, lapEnd) % WORD
    }
  }

  function PositionOf(end: nat, size: nat): (pos: nat)
    requires 0 < size
    ensures end == size ==> pos == 0
  {
    end % size
  }

  // Whole copies of the primer, one after another.
  ghost predicate Copies(s: seq<Byte>, primer: seq<Byte>)
    requires 0 < |primer|
  {
    s == [] || (|primer| <= |s| && s[|s| - |primer|..] == primer && Copies(s[..|s| - |primer|], primer))
  }

  lemma OneMoreCopy(s: seq<Byte>, primer: seq<Byte>)
    requires 0 < |primer| && Copies(s, primer)
    ensures Copies(s + primer, primer)
  {
    assert (s + primer)[..|s|] == s;
  }

  // Still in the first lap, with all that was ever appended.
  ghost predicate FirstLap(r: Ring, h: History)
  {
    Tracks(r, h) && !h.wrapped && |h.stream| == r.wp == r.total && r.lapEnd == Size(r)
  }

  lemma FirstLapStart(r: Ring)
    requires 0 < Size(r) && r == NewRing(r.cells)
    ensures FirstLap(r, NoHistory)
  {}

  lemma FirstLapAppend(r: Ring, h: History, data: seq<Byte>)
    requires RingFits(r) && FirstLap(r, h) && |data| < Size(r) && r.wp + |data| <= Size(r)
    ensures FirstLap(Appended(r, data), Recorded(r, h, data)) && RingFits(Appended(r, data))
    ensures Recorded(r, h, data).stream == h.stream + data && Appended(r, data).wp == r.wp + |data|
  {
    AppendTracks(r, h, data);
    hide Tracks, WriteAt;
    assert r.total + |data| <= Size(r);
  }

  lemma FirstLapFill(r: Ring, h: History, tail: seq<Byte>)
    requires RingFits(r) && FirstLap(r, h) && 0 < |tail| && r.wp + |tail| == Size(r)
    ensures var r' := Ring(WriteAt(r.cells, r.wp, tail), 0, Size(r), Size(r));
            RingFits(r') && Tracks(r', History(h.stream + tail, Size(r), 0, true))
  {
    FillTracks(r, h, tail);
    hide Tracks;
  }

  // How far the end of the logical ring is, in 32 bits.
  function ToEnd(cursor: nat, lapEnd: nat): nat
  {
    (lapEnd - cursor) % WORD
  }

  // A copy is one piece, or two around the end of the logical ring.
  lemma OnePiece(r: Ring, cursor: nat, n: nat)
    requires RingFits(r) && n <= MAX_READ && cursor <= Size(r) && (OnRing(cursor, r) ==> Copyable(r, cursor, n))
    requires cursor <= r.wp || ToEnd(cursor, r.lapEnd) >= n
    ensures CursorAfter(r, cursor, n) == cursor + n
    ensures CopyOf(r, cursor, n) == r.cells[cursor..if cursor + n <= Size(r) then cursor + n else Size(r)]
  {}

  lemma TwoPieces(r: Ring, cursor: nat, n: nat, first: nat)
    requires RingFits(r) && n <= MAX_READ && cursor <= Size(r) && (OnRing(cursor, r) ==> Copyable(r, cursor, n))
    requires r.wp < cursor && first == ToEnd(cursor, r.lapEnd) < n
    ensures cursor + first <= Size(r) && n - first <= Size(r) && CursorAfter(r, cursor, n) == n - first
    ensures CopyOf(r, cursor, n) == r.cells[cursor..cursor + first] + r.cells[..n - first]
  {}

  lemma SilenceNothing(off: nat, silence: seq<Byte>)
    requires LOOP_START < |silence| && off < |silence|
    ensures Silence(off, 0, silence) == [] && SilenceOff(off, 0, silence) == off
  {}

  lemma AfterReadOk(l: Live, r: Ring, q: Req, silence: seq<Byte>)
    requires Ready(l, r, q, silence)
    ensures AfterRead(l, r, q, silence).silenceOff < |silence|
    ensures AfterRead(l, r, q, silence).openBase <= Size(r)
  {
    CaughtIsReady(l, r, q, silence);
    hide Placed, Caught, SilenceOff;
  }
}
