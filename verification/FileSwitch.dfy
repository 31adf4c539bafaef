// The Next/Back detector: which file is the radio on, and was it a button that took it there.
module FileSwitch {
  import opened Clock

  const SWITCH_DEBOUNCE_BYTES: nat := 16384
  const NATURAL_EOF_TOLERANCE: nat := 8192
  const READER_IDLE_RESET_MS: nat := 3000
  const MOUNT_QUIET_MS: nat := 5000
  const NO_FILE: nat := 0xFFFF_FFFF

  // Next, previous, or nothing to relay.
  datatype Relay = Next | Previous | Nothing

  datatype Detector = Detector(
    anyRead: bool, anchored: bool, current: nat, candidate: nat, candidateBytes: nat, currentEnd: nat,
    lastFile: nat, lastEnd: nat, lastMs: Millis, mountMs: Millis, mountQuiet: bool)

  const Boot: Detector := Detector(false, false, 0, 0, 0, 0, NO_FILE, 0, 0, 0, false)

  // One read of a file's data: n bytes at `off`.
  datatype FileRead = FileRead(file: nat, off: nat, n: nat)

  predicate IsPlayback(d: Detector, x: FileRead)
  {
    x.off == 0 || (x.file == d.lastFile && x.off == d.lastEnd)
  }

  predicate IsIdle(d: Detector, now: Millis)
  {
    !d.anyRead || Elapsed(d.lastMs, now) > READER_IDLE_RESET_MS
  }

  // +1, -1 or neither, around the circle of files.
  function Direction(from: nat, to: nat, files: nat): Relay
    requires 0 < files
  {
    if to == (from + 1) % files then Next
    else if to == (from + files - 1) % files then Previous
    else Nothing
  }

  predicate Quiet(d: Detector, now: Millis)
  {
    d.mountQuiet && Elapsed(d.mountMs, now) < MOUNT_QUIET_MS
  }

  predicate AtEnd(d: Detector, sizes: seq<nat>)
    requires d.current < |sizes|
  {
    d.currentEnd + NATURAL_EOF_TOLERANCE >= sizes[d.current]
  }

  // The read has been noted: what was read last, and the idle reset.
  function Seen(d: Detector, x: FileRead, now: Millis): Detector
  {
    var s := d.(lastFile := x.file, lastEnd := x.off + x.n, anyRead := true, lastMs := now);
    if IsIdle(d, now) then s.(anchored := false, candidate := x.file, candidateBytes := 0) else s
  }

  // The candidate gains the read's bytes, or is replaced.
  function Gained(d: Detector, x: FileRead): Detector
  {
    if x.file == d.candidate then d.(candidateBytes := d.candidateBytes + x.n)
    else d.(candidate := x.file, candidateBytes := x.n)
  }

  function Adopted(d: Detector, x: FileRead, playback: bool): Detector
  {
    d.(current := x.file, currentEnd := if playback then x.off + x.n else 0, candidateBytes := 0)
  }

  // What follows from a read that has been seen.
  function Judged(s: Detector, x: FileRead, playback: bool, now: Millis, sizes: seq<nat>): (Detector, Relay)
    requires s.current < |sizes|
  {
    if !s.anchored then
      var g := Gained(s, x);
      (if g.candidateBytes >= SWITCH_DEBOUNCE_BYTES then Adopted(g, x, playback).(anchored := true) else g, Nothing)
    else if x.file == s.current then
      (s.(candidate := x.file, candidateBytes := 0,
          currentEnd := if playback then x.off + x.n else s.currentEnd), Nothing)
    else
      var g := Gained(s, x);
      if g.candidateBytes < SWITCH_DEBOUNCE_BYTES then (g, Nothing)
      else
        var direction := Direction(g.current, x.file, |sizes|);
        var suppressed := (direction == Next && AtEnd(g, sizes)) || Quiet(g, now);
        (Adopted(g, x, playback).(mountQuiet := Quiet(g, now)), if suppressed then Nothing else direction)
  }

  // The detector after a read, and the button press it relays.
  function Note(d: Detector, x: FileRead, now: Millis, sizes: seq<nat>): (Detector, Relay)
    requires d.current < |sizes|
  {
    Judged(Seen(d, x, now), x, IsPlayback(d, x), now, sizes)
  }

  class FileDetector {
    const sizes: array<nat>
    var anyRead: bool
    var anchored: bool
    var current: nat
    var candidate: nat
    var candidateBytes: nat
    var currentEnd: nat
    var lastFile: nat
    var lastEnd: nat
    var lastMs: Millis
    var mountMs: Millis
    var mountQuiet: bool

    ghost function View(): Detector
      reads this
    {
      Detector(anyRead, anchored, current, candidate, candidateBytes, currentEnd,
               lastFile, lastEnd, lastMs, mountMs, mountQuiet)
    }

    ghost predicate Valid()
      reads this
    {
      current < sizes.Length
    }

    constructor (files: nat, size: nat)
      requires files > 0
      ensures Valid() && View() == Boot && fresh(sizes)
      ensures sizes.Length == files && forall f :: 0 <= f < files ==> sizes[f] == size
    {
      sizes := new nat[files](i => size);
      anyRead, anchored, current, candidate, candidateBytes, currentEnd := false, false, 0, 0, 0, 0;
      lastFile, lastEnd, lastMs, mountMs, mountQuiet := NO_FILE, 0, 0, 0, false;
    }

    // The host has mounted the drive: its own probing follows.
    method NoteMount(now: Millis)
      requires Valid()
      modifies this`mountMs, this`mountQuiet
      ensures Valid() && View() == old(View()).(mountMs := now, mountQuiet := true)
    {
      mountMs := now;
      mountQuiet := true;
    }

    // A read of n bytes at `off` of a file; the relayed press, if any.
    method NoteRead(file: nat, off: nat, n: nat, now: Millis) returns (relay: Relay)
      requires Valid() && file < sizes.Length
      modifies this
      ensures Valid()
      ensures (View(), relay) == Note(old(View()), FileRead(file, off, n), now, sizes[..])
    {
      hide Gained, Adopted, Seen;
      var playback := off == 0 || (file == lastFile && off == lastEnd);
      See(file, off, n, now);
      relay := Judge(file, off, n, now, playback);
    }

    // What was read last; after a gap nothing is known about the reader any more.
    method See(file: nat, off: nat, n: nat, now: Millis)
      modifies this`lastFile, this`lastEnd, this`anyRead, this`lastMs, this`anchored, this`candidate,
               this`candidateBytes
      ensures View() == Seen(old(View()), FileRead(file, off, n), now)
    {
      var wasIdle := !anyRead || Elapsed(lastMs, now) > READER_IDLE_RESET_MS;
      lastFile := file;
      lastEnd := off + n;
      anyRead := true;
      lastMs := now;
      if wasIdle {
        anchored := false;
        candidate := file;
        candidateBytes := 0;
      }
    }

    method Judge(file: nat, off: nat, n: nat, now: Millis, playback: bool) returns (relay: Relay)
      requires Valid() && file < sizes.Length
      modifies this`anchored, this`current, this`candidate, this`candidateBytes, this`currentEnd, this`mountQuiet
      ensures Valid()
      ensures (View(), relay) == Judged(old(View()), FileRead(file, off, n), playback, now, sizes[..])
    {
      hide Direction, AtEnd, Quiet;
      ghost var x := FileRead(file, off, n);
      if !anchored {
        Gain(file, n);
        assert View() == Gained(old(View()), x);
        if candidateBytes >= SWITCH_DEBOUNCE_BYTES {
          anchored := true;
          Adopt(file, off + n, playback);
        }
        return Nothing;
      }
      if file == current {
        candidate := file;
        candidateBytes := 0;
        if playback { currentEnd := off + n; }
        return Nothing;
      }
      Gain(file, n);
      assert View() == Gained(old(View()), x);
      if candidateBytes < SWITCH_DEBOUNCE_BYTES { return Nothing; }
      relay := Switch(file, off + n, playback, now);
    }

    method Gain(file: nat, n: nat)
      modifies this`candidate, this`candidateBytes
      ensures forall off: nat :: View() == Gained(old(View()), FileRead(file, off, n))
    {
      if file == candidate {
        candidateBytes := candidateBytes + n;
      } else {
        candidate := file;
        candidateBytes := n;
      }
    }

    method Adopt(file: nat, readEnd: nat, playback: bool)
      modifies this`current, this`currentEnd, this`candidateBytes
      ensures View() == old(View()).(current := file, currentEnd := if playback then readEnd else 0,
                                     candidateBytes := 0)
    {
      current := file;
      currentEnd := if playback then readEnd else 0;
      candidateBytes := 0;
    }

    // A sustained read of another file: relay it unless the file ended by itself or the host
    // is still settling.
    method Switch(file: nat, readEnd: nat, playback: bool, now: Millis) returns (relay: Relay)
      requires Valid() && file < sizes.Length
      modifies this`current, this`currentEnd, this`candidateBytes, this`mountQuiet
      ensures Valid()
      ensures var d := old(View());
              && View() == d.(current := file, currentEnd := if playback then readEnd else 0,
                              candidateBytes := 0, mountQuiet := Quiet(d, now))
              && relay == (var direction := Direction(d.current, file, sizes.Length);
                           if (direction == Next && AtEnd(d, sizes[..])) || Quiet(d, now) then Nothing else direction)
    {
      var files := sizes.Length;
      var nextIndex := (current + 1) % files;
      var prevIndex := (current + files - 1) % files;
      var direction := if file == nextIndex then Relay.Next else if file == prevIndex then Previous else Nothing;
      var naturalEof := direction == Relay.Next && currentEnd + NATURAL_EOF_TOLERANCE >= sizes[current];
      if mountQuiet && Elapsed(mountMs, now) >= MOUNT_QUIET_MS { mountQuiet := false; }
      var quiet := mountQuiet;
      Adopt(file, readEnd, playback);
      relay := if !naturalEof && direction != Nothing && !quiet then direction else Nothing;
    }
  }
}
