// Whole sessions at the radio: what the phone is told is what the driver pressed.
module RadioRun {
  import opened Bytes
  import opened Clock
  import opened FileSwitch
  import opened RadioSession

  // The radio's own state: the file it has open, the next offset it will play, its last read,
  // how many blocks it has read since it opened the file or last fell silent, and when it
  // mounted the drive, until a file change after the quiet time.
  datatype Radio = Radio(file: nat, pos: nat, readMs: Millis, blocks: nat, mounted: Option<Millis>)

  // What the radio does next. Back early in a file goes to the previous file, later it restarts it.
  datatype Turn = Play | PressNext | PressBack(early: bool) | FileEnd

  // A turn and the time of each of its reads.
  datatype Step = Step(turn: Turn, ts: seq<Millis>)

  function Following(file: nat, files: nat, wrap: bool): Option<nat>
    requires file < files
  {
    if file + 1 < files then Some(file + 1) else if wrap then Some((file + 1) % files) else None
  }

  function Preceding(file: nat, files: nat, wrap: bool): Option<nat>
    requires file < files
  {
    if file > 0 then Some(file - 1) else if wrap then Some((file + files - 1) % files) else None
  }

  // The file a turn opens, if it opens one.
  function Target(radio: Radio, turn: Turn, files: nat, wrap: bool): (t: Option<nat>)
    requires radio.file < files
    ensures t.Some? ==> t.value < files
  {
    match turn
    case Play => None
    case PressNext => Following(radio.file, files, wrap)
    case PressBack(early) =>
      if early && Preceding(radio.file, files, wrap).Some? then Preceding(radio.file, files, wrap) else Some(radio.file)
    case FileEnd =>
      if Following(radio.file, files, wrap).Some? then Following(radio.file, files, wrap) else Some(radio.file)
  }

  function TurnReads(radio: Radio, turn: Turn, sizes: seq<nat>, wrap: bool): (xs: seq<FileRead>)
    requires radio.file < |sizes|
  {
    match Target(radio, turn, |sizes|, wrap)
    case Some(g) => ReadsAt(g, OpenOffsets(sizes[g]))
    case None => if turn == Play then [FileRead(radio.file, radio.pos, READ_BYTES)] else []
  }

  predicate Paused(radio: Radio, step: Step)
  {
    |step.ts| > 0 && Elapsed(radio.readMs, step.ts[0]) > READER_IDLE_RESET_MS
  }

  // The radio has been silent too long for a press to be told from a restart, or has not
  // read enough since then.
  predicate Lost(radio: Radio, step: Step)
  {
    Paused(radio, step) || radio.blocks < DEBOUNCE_READS
  }

  // When the eighth block of a turn is read.
  function EighthMs(step: Step): Millis
  {
    if |step.ts| < DEBOUNCE_READS then 0 else step.ts[DEBOUNCE_READS - 1]
  }

  // The drive has been mounted only just.
  predicate Hushed(radio: Radio, now: Millis)
  {
    radio.mounted.Some? && Elapsed(radio.mounted.value, now) < MOUNT_QUIET_MS
  }

  // A file change at this turn is not passed on.
  predicate Unheard(radio: Radio, step: Step)
  {
    Lost(radio, step) || Hushed(radio, EighthMs(step))
  }

  function RadioAfter(radio: Radio, step: Step, files: nat, wrap: bool): (r: Radio)
    requires radio.file < files
    ensures r.file < files
  {
    var readMs := if |step.ts| == 0 then radio.readMs else step.ts[|step.ts| - 1];
    match Target(radio, step.turn, files, wrap)
    case Some(g) =>
      Radio(g, 0, readMs, |step.ts|, if g == radio.file || Unheard(radio, step) then radio.mounted else None)
    case None =>
      if step.turn == Play then
        Radio(radio.file, radio.pos + READ_BYTES, readMs, if Paused(radio, step) then 1 else radio.blocks + 1,
              radio.mounted)
      else radio
  }

  // How far the radio has read from the start of its file without a jump: opening reads the head.
  function Reached(radio: Radio, size: nat): nat
  {
    if radio.pos == 0 then HeadEnd(size) else radio.pos
  }

  // What the phone should be told: a press that changes file, unless the radio has been lost
  // sight of, has only just mounted the drive, or had all but reached the file's end.
  function Expected(radio: Radio, step: Step, sizes: seq<nat>, wrap: bool): seq<Relay>
    requires radio.file < |sizes|
  {
    var size := sizes[radio.file];
    match step.turn
    case PressNext =>
      if Following(radio.file, |sizes|, wrap).Some? && !Unheard(radio, step)
         && Reached(radio, size) + NATURAL_EOF_TOLERANCE < size
      then [Next] else []
    case PressBack(early) =>
      if early && Preceding(radio.file, |sizes|, wrap).Some? && !Unheard(radio, step) then [Previous] else []
    case _ => []
  }

  // A turn the radio can take: it plays only inside a file, ends a file only at its end, and
  // spends no more than the idle limit between two reads of one turn.
  ghost predicate Possible(radio: Radio, step: Step, sizes: seq<nat>, wrap: bool)
    requires radio.file < |sizes|
  {
    && |step.ts| == |TurnReads(radio, step.turn, sizes, wrap)|
    && (forall i :: 0 < i < |step.ts| ==> Elapsed(step.ts[i - 1], step.ts[i]) <= READER_IDLE_RESET_MS)
    && (step.turn == Play ==> radio.pos < sizes[radio.file])
    && (step.turn == FileEnd ==> radio.pos >= sizes[radio.file])
  }

  // The detector knows where the radio is, or what it has read since it was lost sight of.
  predicate Synced(d: Detector, radio: Radio, sizes: seq<nat>)
    requires radio.file < |sizes|
  {
    && (if radio.blocks >= DEBOUNCE_READS then
          Settled(d, radio.file) && d.currentEnd == Reached(radio, sizes[radio.file])
        else Regaining(d, radio.file, radio.blocks) && radio.pos > 0)
    && (radio.pos > 0 ==> d.lastFile == radio.file && d.lastEnd == radio.pos)
    && d.anyRead && d.lastMs == radio.readMs
    && MountOf(d) == radio.mounted
  }

  // Nothing is known about the radio but that exactly k blocks of g have been read.
  predicate Regaining(d: Detector, g: nat, k: nat)
  {
    !d.anchored && d.candidate == g && 0 < k && d.candidateBytes == k * READ_BYTES
  }

  predicate Layout(sizes: seq<nat>)
  {
    |sizes| >= 3 && forall f :: 0 <= f < |sizes| ==> SizeOk(sizes[f])
  }

  // Next and Back are told apart exactly when there are at least three files.
  lemma DirectionOfBack(file: nat, files: nat)
    requires file < files && files > 1
    ensures Direction(file, (file + 1) % files, files) == Next
    ensures Direction(file, (file + files - 1) % files, files) == Previous <==> files >= 3
  {
    NextOf(file, files);
    PreviousOf(file, files);
  }

  lemma NextOf(file: nat, files: nat)
    requires file < files
    ensures (file + 1) % files == if file + 1 < files then file + 1 else 0
  {
    if file + 1 == files { assert (file + 1) % files == 0; }
  }

  lemma PreviousOf(file: nat, files: nat)
    requires file < files
    ensures (file + files - 1) % files == if file > 0 then file - 1 else files - 1
  {
    if file > 0 { Wraps(file - 1, files); }
  }

  lemma Wraps(a: nat, m: nat)
    requires a < m
    ensures (a + m) % m == a
  {
    assert (a + m) / m == 1;
  }

  // ---- One turn

  // A turn that opens a file.
  lemma OpenStep(d: Detector, radio: Radio, step: Step, sizes: seq<nat>, wrap: bool, g: nat)
    requires radio.file < |sizes| && d.current < |sizes| && Layout(sizes)
    requires Synced(d, radio, sizes) && Possible(radio, step, sizes, wrap)
    requires Target(radio, step.turn, |sizes|, wrap) == Some(g)
    ensures var xs := TurnReads(radio, step.turn, sizes, wrap);
            && |xs| == |step.ts| > DEBOUNCE_READS
            && (forall i :: 0 <= i < |xs| ==> xs[i].file == g)
            && Synced(After(d, xs, step.ts, sizes, |xs|), RadioAfter(radio, step, |sizes|, wrap), sizes)
            && Heard(d, xs, step.ts, sizes, |xs|)
               == (if Lost(radio, step) || g == radio.file then []
                   else Once(Verdict(d, g, step.ts[DEBOUNCE_READS - 1], sizes)))
  {
    hide Direction, Note, After, Heard, Verdict, OpenOffsets, Target, Once, HeadEnd, ReadsAt;
    var xs := ReadsAt(g, OpenOffsets(sizes[g]));
    OpenReads(xs, sizes[g], g);
    assert OneFile(xs, step.ts, g);
    OpenHeard(d, xs, step.ts, sizes, g);
    LastSeen(d, xs, step.ts, sizes, g, |xs|);
  }

  // A block of playback.
  lemma PlayStep(d: Detector, radio: Radio, step: Step, sizes: seq<nat>, wrap: bool)
    requires radio.file < |sizes| && d.current < |sizes|
    requires Synced(d, radio, sizes) && Possible(radio, step, sizes, wrap)
    requires step.turn == Play
    ensures var xs := TurnReads(radio, step.turn, sizes, wrap);
            && |xs| == |step.ts| == 1 && xs[0].file == radio.file
            && Synced(After(d, xs, step.ts, sizes, 1), RadioAfter(radio, step, |sizes|, wrap), sizes)
            && Heard(d, xs, step.ts, sizes, 1) == []
  {
    hide Note, HeadEnd;
    var xs := TurnReads(radio, step.turn, sizes, wrap);
    assert Target(radio, step.turn, |sizes|, wrap) == None;
    if Paused(radio, step) {
      Resumes(d, xs[0], step.ts[0], sizes);
    } else if radio.blocks < DEBOUNCE_READS {
      Regains(d, xs[0], step.ts[0], sizes, radio.blocks);
    } else {
      StaysOn(d, xs[0], step.ts[0], sizes);
    }
    NoteSees(d, xs[0], step.ts[0], sizes);
    NoReads(d, xs, step.ts, sizes);
    Unroll(d, xs, step.ts, sizes, 1);
  }

  // The first block after a pause.
  lemma Resumes(d: Detector, x: FileRead, now: Millis, sizes: seq<nat>)
    requires d.current < |sizes| && IsIdle(d, now) && x.n == READ_BYTES
    ensures var (d', r) := Note(d, x, now, sizes);
            Regaining(d', x.file, 1) && r == Nothing && d'.mountQuiet == d.mountQuiet
  {}

  // Another block: the eighth settles the detector where playback is.
  lemma Regains(d: Detector, x: FileRead, now: Millis, sizes: seq<nat>, k: nat)
    requires d.current < |sizes| && !IsIdle(d, now) && x.n == READ_BYTES
    requires Regaining(d, x.file, k) && k < DEBOUNCE_READS && IsPlayback(d, x)
    ensures var (d', r) := Note(d, x, now, sizes);
            && r == Nothing && d'.mountQuiet == d.mountQuiet
            && (if k + 1 < DEBOUNCE_READS then Regaining(d', x.file, k + 1)
                else Settled(d', x.file) && d'.currentEnd == x.off + x.n)
  {}

  // What the detector makes of the file a turn opens.
  lemma VerdictOf(d: Detector, radio: Radio, step: Step, sizes: seq<nat>, wrap: bool, g: nat)
    requires radio.file < |sizes| && d.current < |sizes| && Layout(sizes)
    requires Synced(d, radio, sizes) && Possible(radio, step, sizes, wrap)
    requires Target(radio, step.turn, |sizes|, wrap) == Some(g)
    requires !Lost(radio, step)
    ensures Expected(radio, step, sizes, wrap)
            == if g == radio.file then [] else Once(Verdict(d, g, EighthMs(step), sizes))
  {
    hide HeadEnd, TurnReads;
    DirectionOfBack(radio.file, |sizes|);
    NextOf(radio.file, |sizes|);
    PreviousOf(radio.file, |sizes|);
    assert Quiet(d, EighthMs(step)) == Hushed(radio, EighthMs(step));
    assert SizeOk(sizes[radio.file]);
  }

  // One turn of the radio relays exactly what it should, and the detector keeps track.
  lemma TurnHeard(d: Detector, radio: Radio, step: Step, sizes: seq<nat>, wrap: bool)
    requires radio.file < |sizes| && d.current < |sizes| && Layout(sizes)
    requires Synced(d, radio, sizes) && Possible(radio, step, sizes, wrap)
    ensures var xs := TurnReads(radio, step.turn, sizes, wrap);
            && |xs| == |step.ts|
            && (forall i :: 0 <= i < |xs| ==> xs[i].file < |sizes|)
            && Synced(After(d, xs, step.ts, sizes, |xs|), RadioAfter(radio, step, |sizes|, wrap), sizes)
            && Heard(d, xs, step.ts, sizes, |xs|) == Expected(radio, step, sizes, wrap)
  {
    hide TurnReads, Synced, Expected, RadioAfter, After, Heard, Verdict, Once, Layout;
    match Target(radio, step.turn, |sizes|, wrap)
    case Some(g) =>
      OpenStep(d, radio, step, sizes, wrap, g);
      if Lost(radio, step) {
        LostRelaysNothing(radio, step, sizes, wrap);
      } else {
        VerdictOf(d, radio, step, sizes, wrap, g);
      }
    case None =>
      if step.turn == Play {
        PlayStep(d, radio, step, sizes, wrap);
        assert Expected(radio, step, sizes, wrap) == [] by { NothingOpened(d, radio, step, sizes, wrap); }
      } else {
        NothingOpened(d, radio, step, sizes, wrap);
      }
  }

  lemma LostRelaysNothing(radio: Radio, step: Step, sizes: seq<nat>, wrap: bool)
    requires radio.file < |sizes| && Lost(radio, step)
    ensures Expected(radio, step, sizes, wrap) == []
  {}

  lemma NothingOpened(d: Detector, radio: Radio, step: Step, sizes: seq<nat>, wrap: bool)
    requires radio.file < |sizes| && d.current < |sizes|
    requires Target(radio, step.turn, |sizes|, wrap) == None
    requires |step.ts| == |TurnReads(radio, step.turn, sizes, wrap)|
    ensures Expected(radio, step, sizes, wrap) == []
    ensures step.turn != Play ==>
              && step.ts == [] && TurnReads(radio, step.turn, sizes, wrap) == []
              && RadioAfter(radio, step, |sizes|, wrap) == radio
              && After(d, [], [], sizes, 0) == d && Heard(d, [], [], sizes, 0) == []
  {}

  // ---- Whole sessions

  ghost predicate Session(radio: Radio, steps: seq<Step>, sizes: seq<nat>, wrap: bool)
    requires radio.file < |sizes|
    decreases |steps|
  {
    |steps| > 0 ==>
      && Possible(radio, steps[0], sizes, wrap)
      && Session(RadioAfter(radio, steps[0], |sizes|, wrap), steps[1..], sizes, wrap)
  }

  // Every press the detector relays over a session.
  function Relayed(d: Detector, radio: Radio, steps: seq<Step>, sizes: seq<nat>, wrap: bool): seq<Relay>
    requires radio.file < |sizes| && d.current < |sizes|
    requires Layout(sizes) && Synced(d, radio, sizes) && Session(radio, steps, sizes, wrap)
    decreases |steps|
  {
    if |steps| == 0 then []
    else
      TurnHeard(d, radio, steps[0], sizes, wrap);
      var xs := TurnReads(radio, steps[0].turn, sizes, wrap);
      Heard(d, xs, steps[0].ts, sizes, |xs|)
      + Relayed(After(d, xs, steps[0].ts, sizes, |xs|), RadioAfter(radio, steps[0], |sizes|, wrap),
                steps[1..], sizes, wrap)
  }

  function ExpectedOver(radio: Radio, steps: seq<Step>, sizes: seq<nat>, wrap: bool): seq<Relay>
    requires radio.file < |sizes|
    decreases |steps|
  {
    if |steps| == 0 then []
    else Expected(radio, steps[0], sizes, wrap)
         + ExpectedOver(RadioAfter(radio, steps[0], |sizes|, wrap), steps[1..], sizes, wrap)
  }

  // Over any session the relayed presses are exactly the expected ones, in order.
  lemma {:induction false} SessionRelays(d: Detector, radio: Radio, steps: seq<Step>, sizes: seq<nat>, wrap: bool)
    requires radio.file < |sizes| && d.current < |sizes|
    requires Layout(sizes) && Synced(d, radio, sizes) && Session(radio, steps, sizes, wrap)
    ensures Relayed(d, radio, steps, sizes, wrap) == ExpectedOver(radio, steps, sizes, wrap)
    decreases |steps|
  {
    hide TurnReads, Synced, Expected, RadioAfter, After, Heard, Possible, Layout;
    if |steps| > 0 {
      TurnHeard(d, radio, steps[0], sizes, wrap);
      var xs := TurnReads(radio, steps[0].turn, sizes, wrap);
      SessionRelays(After(d, xs, steps[0].ts, sizes, |xs|), RadioAfter(radio, steps[0], |sizes|, wrap),
                    steps[1..], sizes, wrap);
    }
  }

  // The presses that change file, as the driver pressed them.
  function Pressed(radio: Radio, steps: seq<Step>, sizes: seq<nat>, wrap: bool): seq<Relay>
    requires radio.file < |sizes|
    decreases |steps|
  {
    if |steps| == 0 then []
    else
      var target := Target(radio, steps[0].turn, |sizes|, wrap);
      var press := match steps[0].turn
        case PressNext => if target.Some? then [Next] else []
        case PressBack(_) => if target.Some? && target.value != radio.file then [Previous] else []
        case _ => [];
      press + Pressed(RadioAfter(radio, steps[0], |sizes|, wrap), steps[1..], sizes, wrap)
  }

  // No press follows a pause, a resume by less than eight blocks, or a mount by less than five
  // seconds, and Next is never pressed within the tolerance of the file's end.
  predicate Brisk(radio: Radio, steps: seq<Step>, sizes: seq<nat>, wrap: bool)
    requires radio.file < |sizes|
    decreases |steps|
  {
    |steps| > 0 ==>
      && (steps[0].turn.PressNext? || steps[0].turn.PressBack? ==> !Unheard(radio, steps[0]))
      && (steps[0].turn.PressNext? ==>
            Reached(radio, sizes[radio.file]) + NATURAL_EOF_TOLERANCE < sizes[radio.file])
      && Brisk(RadioAfter(radio, steps[0], |sizes|, wrap), steps[1..], sizes, wrap)
  }

  lemma {:induction false} BriskIsPressed(radio: Radio, steps: seq<Step>, sizes: seq<nat>, wrap: bool)
    requires radio.file < |sizes| && |sizes| >= 3 && Brisk(radio, steps, sizes, wrap)
    ensures ExpectedOver(radio, steps, sizes, wrap) == Pressed(radio, steps, sizes, wrap)
    decreases |steps|
  {
    hide RadioAfter, Reached, Unheard;
    if |steps| > 0 {
      BriskIsPressed(RadioAfter(radio, steps[0], |sizes|, wrap), steps[1..], sizes, wrap);
      NextOf(radio.file, |sizes|);
      PreviousOf(radio.file, |sizes|);
    }
  }

  // The phone hears every press that changes file, once and in order, and nothing else: neither
  // restarts nor files that play to their end.
  lemma PhoneHearsTheDriver(d: Detector, radio: Radio, steps: seq<Step>, sizes: seq<nat>, wrap: bool)
    requires radio.file < |sizes| && d.current < |sizes|
    requires Layout(sizes) && Synced(d, radio, sizes) && Session(radio, steps, sizes, wrap)
    requires Brisk(radio, steps, sizes, wrap)
    ensures Relayed(d, radio, steps, sizes, wrap) == Pressed(radio, steps, sizes, wrap)
  {
    SessionRelays(d, radio, steps, sizes, wrap);
    BriskIsPressed(radio, steps, sizes, wrap);
  }

  // ---- A press after a session

  // The radio after a session.
  function RadioOver(radio: Radio, steps: seq<Step>, files: nat, wrap: bool): (r: Radio)
    requires radio.file < files
    ensures r.file < files
    decreases |steps|
  {
    if |steps| == 0 then radio
    else RadioOver(RadioAfter(radio, steps[0], files, wrap), steps[1..], files, wrap)
  }

  lemma {:induction false} ExpectedLast(radio: Radio, steps: seq<Step>, last: Step, sizes: seq<nat>, wrap: bool)
    requires radio.file < |sizes|
    ensures ExpectedOver(radio, steps + [last], sizes, wrap)
            == ExpectedOver(radio, steps, sizes, wrap)
               + Expected(RadioOver(radio, steps, |sizes|, wrap), last, sizes, wrap)
    decreases |steps|
  {
    hide Expected, RadioAfter;
    var all := steps + [last];
    if |steps| == 0 {
      assert all == [last];
      assert [last][1..] == [];
    } else {
      assert all[0] == steps[0] && all[1..] == steps[1..] + [last];
      ExpectedLast(RadioAfter(radio, steps[0], |sizes|, wrap), steps[1..], last, sizes, wrap);
    }
  }

  // Blocks of playback without a pause before any of them.
  predicate PlaysOnward(radio: Radio, plays: seq<Step>, files: nat, wrap: bool)
    requires radio.file < files
    decreases |plays|
  {
    |plays| > 0 ==>
      && plays[0].turn == Play && !Paused(radio, plays[0])
      && PlaysOnward(RadioAfter(radio, plays[0], files, wrap), plays[1..], files, wrap)
  }

  // Blocks of playback, the first after a pause and the others without one.
  predicate Resumed(radio: Radio, plays: seq<Step>, files: nat, wrap: bool)
    requires radio.file < files
  {
    && |plays| > 0 && plays[0].turn == Play && Paused(radio, plays[0])
    && PlaysOnward(RadioAfter(radio, plays[0], files, wrap), plays[1..], files, wrap)
  }

  lemma {:induction false} Played(radio: Radio, plays: seq<Step>, sizes: seq<nat>, wrap: bool)
    requires radio.file < |sizes| && PlaysOnward(radio, plays, |sizes|, wrap)
    ensures var r := RadioOver(radio, plays, |sizes|, wrap);
            && r.file == radio.file && r.pos == radio.pos + |plays| * READ_BYTES
            && r.blocks == radio.blocks + |plays| && r.mounted == radio.mounted
    ensures ExpectedOver(radio, plays, sizes, wrap) == []
    decreases |plays|
  {
    hide Paused;
    if |plays| > 0 { Played(RadioAfter(radio, plays[0], |sizes|, wrap), plays[1..], sizes, wrap); }
  }

  lemma PlayedSinceResume(radio: Radio, plays: seq<Step>, sizes: seq<nat>, wrap: bool)
    requires radio.file < |sizes| && Resumed(radio, plays, |sizes|, wrap)
    ensures var r := RadioOver(radio, plays, |sizes|, wrap);
            && r.file == radio.file && r.pos == radio.pos + |plays| * READ_BYTES
            && r.blocks == |plays| && r.mounted == radio.mounted
    ensures ExpectedOver(radio, plays, sizes, wrap) == []
  {
    hide Paused;
    Played(RadioAfter(radio, plays[0], |sizes|, wrap), plays[1..], sizes, wrap);
  }

  // A press that changes file from the middle of one, without a pause before it.
  predicate ChangesFile(radio: Radio, press: Step, sizes: seq<nat>, wrap: bool)
    requires radio.file < |sizes|
  {
    && !Paused(radio, press) && Reached(radio, sizes[radio.file]) + NATURAL_EOF_TOLERANCE < sizes[radio.file]
    && (|| (press.turn == PressNext && Following(radio.file, |sizes|, wrap).Some?)
        || (press.turn == PressBack(true) && Preceding(radio.file, |sizes|, wrap).Some?))
  }

  function PressOf(turn: Turn): Relay { if turn == PressNext then Next else Previous }

  // After a pause in the middle of a file the detector relays a press if and only if 16,384 bytes
  // have been played since (and the drive has not only just been mounted).
  lemma PressAfterResume(d: Detector, radio: Radio, plays: seq<Step>, press: Step, sizes: seq<nat>, wrap: bool)
    requires radio.file < |sizes| && d.current < |sizes| && Layout(sizes) && Synced(d, radio, sizes)
    requires Session(radio, plays + [press], sizes, wrap) && Resumed(radio, plays, |sizes|, wrap)
    requires ChangesFile(RadioOver(radio, plays, |sizes|, wrap), press, sizes, wrap)
    ensures Relayed(d, radio, plays + [press], sizes, wrap)
            == if SWITCH_DEBOUNCE_BYTES <= |plays| * READ_BYTES && !Hushed(radio, EighthMs(press))
               then [PressOf(press.turn)] else []
  {
    SessionRelays(d, radio, plays + [press], sizes, wrap);
    ExpectedLast(radio, plays, press, sizes, wrap);
    PlayedSinceResume(radio, plays, sizes, wrap);
    hide RadioOver, ExpectedOver, Paused, Reached, Session, Relayed, Synced, Layout, Hushed, EighthMs, Resumed;
  }

  // After a mount the detector relays a press if and only if its eighth block is read five seconds
  // later or more.
  lemma PressAfterMount(d: Detector, radio: Radio, press: Step, sizes: seq<nat>, wrap: bool)
    requires radio.file < |sizes| && d.current < |sizes| && Layout(sizes) && Synced(d, radio, sizes)
    requires Possible(radio, press, sizes, wrap) && ChangesFile(radio, press, sizes, wrap)
    requires radio.mounted.Some? && radio.blocks >= DEBOUNCE_READS
    ensures var xs := TurnReads(radio, press.turn, sizes, wrap);
            && |press.ts| == |xs| > DEBOUNCE_READS && (forall i :: 0 <= i < |xs| ==> xs[i].file < |sizes|)
            && Heard(d, xs, press.ts, sizes, |xs|)
               == if Elapsed(radio.mounted.value, press.ts[DEBOUNCE_READS - 1]) < MOUNT_QUIET_MS then []
                  else [PressOf(press.turn)]
  {
    hide Synced, Reached, Heard, After, TurnReads, Layout;
    TurnHeard(d, radio, press, sizes, wrap);
    OpenStep(d, radio, press, sizes, wrap, Target(radio, press.turn, |sizes|, wrap).value);
  }

  // ---- Coming up

  // The start and the end of the last file.
  function PeekReads(sizes: seq<nat>): (xs: seq<FileRead>)
    requires |sizes| > 0
    ensures |xs| == 2 && forall i :: 0 <= i < 2 ==> xs[i].file < |sizes| && xs[i].n == READ_BYTES
  {
    var last := |sizes| - 1;
    [FileRead(last, 0, READ_BYTES),
     FileRead(last, if sizes[last] >= READ_BYTES then sizes[last] - READ_BYTES else 0, READ_BYTES)]
  }

  function MountOf(d: Detector): Option<Millis> { if d.mountQuiet then Some(d.mountMs) else None }

  // A radio that has just come up peeks at the last file, its first and last block, and opens
  // the track it remembers, at once or later: nothing is relayed, and from there on the detector keeps track.
  lemma ComingUp(d: Detector, peeks: seq<Millis>, g: nat, ts: seq<Millis>, sizes: seq<nat>)
    requires d.current < |sizes| && g < |sizes| && Layout(sizes)
    requires |peeks| == 2 && IsIdle(d, peeks[0])
    requires OneFile(ReadsAt(g, OpenOffsets(sizes[g])), ts, g)
    ensures var peek := PeekReads(sizes);
            var d' := After(d, peek, peeks, sizes, 2);
            var xs := ReadsAt(g, OpenOffsets(sizes[g]));
            && |ts| > DEBOUNCE_READS
            && Heard(d, peek, peeks, sizes, 2) == [] && Heard(d', xs, ts, sizes, |xs|) == []
            && Synced(After(d', xs, ts, sizes, |xs|), Radio(g, 0, ts[|ts| - 1], |ts|, MountOf(d)), sizes)
  {
    hide Note, After, Heard, OpenOffsets, Synced, Layout, OneFile, IsIdle, SizeOk, PeekReads;
    Each(sizes, g);
    Peek(d, PeekReads(sizes), peeks, sizes);
    FirstOpen(After(d, PeekReads(sizes), peeks, sizes, 2), ReadsAt(g, OpenOffsets(sizes[g])), g, ts, sizes);
  }

  lemma FirstOpen(d: Detector, xs: seq<FileRead>, g: nat, ts: seq<Millis>, sizes: seq<nat>)
    requires d.current < |sizes| && g < |sizes| && SizeOk(sizes[g]) && !d.anchored
    requires xs == ReadsAt(g, OpenOffsets(sizes[g])) && OneFile(xs, ts, g)
    ensures |ts| == |xs| > DEBOUNCE_READS
    ensures Heard(d, xs, ts, sizes, |xs|) == []
    ensures Synced(After(d, xs, ts, sizes, |xs|), Radio(g, 0, ts[|ts| - 1], |ts|, MountOf(d)), sizes)
  {
    hide Note, After, Heard, OpenOffsets, Verdict, HeadEnd, ReadsAt, SizeOk;
    OpenReads(xs, sizes[g], g);
    OpenHeard(d, xs, ts, sizes, g);
    LastSeen(d, xs, ts, sizes, g, |xs|);
  }

  lemma Each(sizes: seq<nat>, g: nat)
    requires Layout(sizes) && g < |sizes|
    ensures SizeOk(sizes[|sizes| - 1]) && SizeOk(sizes[g]) && sizes[|sizes| - 1] >= READ_BYTES
  {}

  // Two short reads after a pause do not tell where the radio is.
  lemma Peek(d: Detector, xs: seq<FileRead>, ts: seq<Millis>, sizes: seq<nat>)
    requires d.current < |sizes| && |xs| == |ts| == 2 && IsIdle(d, ts[0])
    requires forall i :: 0 <= i < 2 ==> xs[i].file < |sizes| && xs[i].n == READ_BYTES
    ensures var d' := After(d, xs, ts, sizes, 2);
            !d'.anchored && MountOf(d') == MountOf(d)
    ensures Heard(d, xs, ts, sizes, 2) == []
  {
    hide After, Heard, Note, IsIdle;
    assert After(d, xs, ts, sizes, 0) == d && Heard(d, xs, ts, sizes, 0) == [] by { NoReads(d, xs, ts, sizes); }
    Unroll(d, xs, ts, sizes, 1);
    FirstPeek(d, xs[0], ts[0], sizes);
    Unroll(d, xs, ts, sizes, 2);
    SecondPeek(After(d, xs, ts, sizes, 1), xs[1], ts[1], sizes);
  }

  lemma NoReads(d: Detector, xs: seq<FileRead>, ts: seq<Millis>, sizes: seq<nat>)
    requires d.current < |sizes| && |xs| == |ts|
    requires forall i :: 0 <= i < |xs| ==> xs[i].file < |sizes|
    ensures After(d, xs, ts, sizes, 0) == d && Heard(d, xs, ts, sizes, 0) == []
  {}

  lemma FirstPeek(d: Detector, x: FileRead, now: Millis, sizes: seq<nat>)
    requires d.current < |sizes| && IsIdle(d, now) && x.n == READ_BYTES
    ensures var (d', r) := Note(d, x, now, sizes);
            !d'.anchored && d'.candidateBytes <= READ_BYTES && r == Nothing && MountOf(d') == MountOf(d)
  {}

  lemma SecondPeek(d: Detector, x: FileRead, now: Millis, sizes: seq<nat>)
    requires d.current < |sizes| && x.n == READ_BYTES && !d.anchored && d.candidateBytes <= READ_BYTES
    ensures var (d', r) := Note(d, x, now, sizes);
            !d'.anchored && r == Nothing && MountOf(d') == MountOf(d)
  {}

  // In the seconds after a mount nothing is relayed, whatever is read.
  lemma {:induction false} QuietAfterMount(d: Detector, xs: seq<FileRead>, ts: seq<Millis>, sizes: seq<nat>, k: nat)
    requires d.current < |sizes| && k <= |xs| == |ts|
    requires forall i :: 0 <= i < |xs| ==> xs[i].file < |sizes|
    requires d.mountQuiet && forall i :: 0 <= i < k ==> Elapsed(d.mountMs, ts[i]) < MOUNT_QUIET_MS
    ensures Heard(d, xs, ts, sizes, k) == []
    ensures var d' := After(d, xs, ts, sizes, k); d'.mountQuiet && d'.mountMs == d.mountMs
  {
    hide After, Heard, Note;
    if k == 0 {
      NoReads(d, xs, ts, sizes);
    } else {
      QuietAfterMount(d, xs, ts, sizes, k - 1);
      Unroll(d, xs, ts, sizes, k);
      NoteQuiet(After(d, xs, ts, sizes, k - 1), xs[k - 1], ts[k - 1], sizes);
    }
  }

  lemma NoteQuiet(d: Detector, x: FileRead, now: Millis, sizes: seq<nat>)
    requires d.current < |sizes| && d.mountQuiet && Elapsed(d.mountMs, now) < MOUNT_QUIET_MS
    ensures var (d', r) := Note(d, x, now, sizes);
            d'.mountQuiet && d'.mountMs == d.mountMs && r == Nothing
  {}
}
