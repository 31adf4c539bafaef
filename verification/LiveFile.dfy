// The open file as the radio sees it: while its start has not been lapped and nothing underruns,
// the same offset gives the same bytes, as often as it is read.
module LiveFile {
  import opened Bytes
  import opened LiveRing
  import opened LiveServe
  import opened LiveSession

  // Playback in the open file has got to offset `off`.
  ghost predicate OnFile(m: Machine, off: nat)
  {
    m.l.init && m.l.bridge == 0 && m.baseAt >= 0 && m.at == m.baseAt + off
  }

  predicate Plays(m: Machine, a: Action) { a.Read? && a.q.playback && Usable(m.r, a.q.n) }

  // The radio stays on the open file: it goes on where it is, or reads the start once more, in a
  // place that has not been lapped, and there is enough to read. Probes and appends may come between.
  ghost predicate StaysOnFile(m: Machine, off: nat, a: Action, silence: seq<Byte>)
    requires Inv(m, silence) && Allowed(m, a)
  {
    Plays(m, a) ==>
      && ReadOutcome(m.l, m.r, a.q).FromRing?
      && (if IsOpen(a.q) then IsReread(m.l, a.q) && AliveAt(m.l.openBase, m.baseAt, m.r, m.h)
          else a.q.off == off && GoesOn(m, a.q) && AliveAt(m.l.cursor, m.at, m.r, m.h))
  }

  function OffAfter(m: Machine, off: nat, a: Action): nat
  {
    if Plays(m, a) then a.q.off + a.q.n else off
  }

  // The bytes of the file at an offset: the stream from its start on.
  ghost predicate IsFileAt(m: Machine, off: nat, data: seq<Byte>)
  {
    0 <= m.baseAt + off && m.baseAt + off + |data| <= |m.h.stream|
    && data == m.h.stream[m.baseAt + off..m.baseAt + off + |data|]
  }

  // What a playback read without a bridge gives, and where it leaves the cursor.
  lemma Gives(m: Machine, q: Req, silence: seq<Byte>)
    requires Inv(m, silence) && Allowed(m, Read(q)) && Usable(m.r, q.n) && q.playback
    requires ReadOutcome(m.l, m.r, q).FromRing? && ReadOutcome(m.l, m.r, q).overlay == 0
    ensures Ready(m.l, m.r, q, silence)
    ensures var data, at := ReadBytes(m.l, m.r, q, silence), StartOf(m, ReadOutcome(m.l, m.r, q));
            && |data| == q.n && 0 <= at && at + q.n <= |m.h.stream| && data == m.h.stream[at..at + q.n]
            && Step(m, Read(q), silence).at == at + q.n
  {
    Whole(m.r, q.n);
    RadioGets(m, q, silence);
    ReadIsSafe(m, q, silence);
    hide Inv, Allowed, StartOf, ReadBytes, Copied;
    NotStrayed(m, q, silence);
    Tail(m, q, silence);
  }

  lemma NotStrayed(m: Machine, q: Req, silence: seq<Byte>)
    requires Inv(m, silence) && Allowed(m, Read(q)) && ReadOutcome(m.l, m.r, q).FromRing?
    ensures !Strays(m, q)
  {
    hide Placed, Caught;
  }

  lemma Whole(r: Ring, n: nat)
    requires Usable(r, n)
    ensures SafeLen(r, n) == n
  {}

  // The start once more: at the start of the file, with the bridge down.
  lemma StartAgain(m: Machine, q: Req, silence: seq<Byte>)
    requires Inv(m, silence) && Allowed(m, Read(q)) && Usable(m.r, q.n) && IsOpen(q) && IsReread(m.l, q)
    requires ReadOutcome(m.l, m.r, q).FromRing? && AliveAt(m.l.openBase, m.baseAt, m.r, m.h)
    ensures StartOf(m, ReadOutcome(m.l, m.r, q)) == m.baseAt && ReadOutcome(m.l, m.r, q).overlay == 0
    ensures var m' := Step(m, Read(q), silence);
            m'.l.init && m'.l.bridge == 0 && m'.baseAt == m.baseAt
  {
    RereadExactly(m, q, silence);
    NoBridge(m, q, silence);
    hide Inv, ReadOutcome, AliveAt, Strays, StartOf, Copied;
  }

  // Going on: where the read before stopped, with the bridge still down.
  lemma GoesOnThere(m: Machine, q: Req, silence: seq<Byte>)
    requires Inv(m, silence) && Allowed(m, Read(q)) && GoesOn(m, q) && m.l.bridge == 0
    requires ReadOutcome(m.l, m.r, q).FromRing? && AliveAt(m.l.cursor, m.at, m.r, m.h)
    ensures StartOf(m, ReadOutcome(m.l, m.r, q)) == m.at && ReadOutcome(m.l, m.r, q).overlay == 0
    ensures var m' := Step(m, Read(q), silence);
            m'.l.init && m'.l.bridge == 0 && m'.baseAt == m.baseAt
  {
    ContinuesExactly(m, q, silence);
    NoBridge(m, q, silence);
    hide Inv, ReadOutcome, AliveAt, Strays, StartOf, Copied;
  }

  // Without a jump no bridge is raised, and opening takes it down.
  lemma NoBridge(m: Machine, q: Req, silence: seq<Byte>)
    requires Inv(m, silence) && Allowed(m, Read(q)) && Usable(m.r, q.n) && q.playback
    requires ReadOutcome(m.l, m.r, q).FromRing?
    requires if IsOpen(q) then !OffRing(m.l, m.r, q) else GoesOn(m, q) && m.l.bridge == 0
    ensures ReadOutcome(m.l, m.r, q).overlay == 0
    ensures AfterReadOf(m, q, silence).bridge == 0 && AfterReadOf(m, q, silence).init
  {
    if IsOpen(q) { OpenServesBase(m, q, silence); }
    var p := Placed(m.l, m.r, q);
    assert p.bridge == 0 && p.init && !NeedsJump(p, m.r);
    hide Placed, Inv, Lag;
  }

  ghost function AfterReadOf(m: Machine, q: Req, silence: seq<Byte>): Live
    requires Inv(m, silence) && Allowed(m, Read(q))
  {
    AfterRead(m.l, m.r, q, silence)
  }

  // Opening a file from the ring leaves playback on it, and gives its first bytes.
  lemma OpensOnFile(m: Machine, q: Req, silence: seq<Byte>)
    requires Inv(m, silence) && Allowed(m, Read(q)) && Usable(m.r, q.n) && IsOpen(q) && !IsReread(m.l, q)
    requires ReadOutcome(m.l, m.r, q).FromRing?
    ensures Ready(m.l, m.r, q, silence)
    ensures var m' := Step(m, Read(q), silence);
            OnFile(m', q.n) && |ReadBytes(m.l, m.r, q, silence)| == q.n
            && IsFileAt(m', 0, ReadBytes(m.l, m.r, q, silence))
  {
    OpenServesBase(m, q, silence);
    NoBridge(m, q, silence);
    Gives(m, q, silence);
    hide Inv, ReadOutcome, OpenBase, ReadBytes, Copied, Strays;
  }

  // One step on the file: playback keeps its place, and what is read is the file at that offset.
  lemma FileStep(m: Machine, off: nat, a: Action, silence: seq<Byte>)
    requires Inv(m, silence) && Allowed(m, a) && OnFile(m, off) && StaysOnFile(m, off, a, silence)
    ensures var m' := Step(m, a, silence);
            OnFile(m', OffAfter(m, off, a)) && m'.baseAt == m.baseAt && m.h.stream <= m'.h.stream
    ensures Plays(m, a) ==>
              && Ready(m.l, m.r, a.q, silence)
              && |ReadBytes(m.l, m.r, a.q, silence)| == a.q.n
              && IsFileAt(m, a.q.off, ReadBytes(m.l, m.r, a.q, silence))
  {
    hide Inv, Allowed, Step, StaysOnFile, ReadBytes, Ready, Plays;
    if a.Append? {
      AppendedStep(m, off, a, silence);
    } else if Plays(m, a) {
      PlayedStep(m, off, a.q, silence);
    } else {
      Unplayed(m, a.q, silence);
    }
  }

  lemma PlayedStep(m: Machine, off: nat, q: Req, silence: seq<Byte>)
    requires Inv(m, silence) && Allowed(m, Read(q)) && OnFile(m, off) && Plays(m, Read(q))
    requires StaysOnFile(m, off, Read(q), silence)
    ensures var m' := Step(m, Read(q), silence);
            OnFile(m', OffAfter(m, off, Read(q))) && m'.baseAt == m.baseAt && m.h == m'.h
    ensures Ready(m.l, m.r, q, silence)
    ensures |ReadBytes(m.l, m.r, q, silence)| == q.n && IsFileAt(m, q.off, ReadBytes(m.l, m.r, q, silence))
  {
    hide Inv, Allowed, ReadOutcome, ReadBytes, Ready, Step, GoesOn, AliveAt, IsReread, StartOf;
    if IsOpen(q) { StartAgain(m, q, silence); } else { GoesOnThere(m, q, silence); }
    Gives(m, q, silence);
    ReadKeepsStream(m, q, silence);
  }

  lemma ReadKeepsStream(m: Machine, q: Req, silence: seq<Byte>)
    requires Inv(m, silence) && Allowed(m, Read(q))
    ensures Step(m, Read(q), silence).h == m.h
  {}

  lemma AppendedStep(m: Machine, off: nat, a: Action, silence: seq<Byte>)
    requires Inv(m, silence) && Allowed(m, a) && a.Append?
    ensures var m' := Step(m, a, silence);
            m'.l == m.l && m'.at == m.at && m'.baseAt == m.baseAt && m.h.stream <= m'.h.stream
    ensures !Plays(m, a)
  {
    AppendExtends(m, a, silence);
  }

  lemma Unplayed(m: Machine, q: Req, silence: seq<Byte>)
    requires Inv(m, silence) && Allowed(m, Read(q)) && !Plays(m, Read(q))
    ensures var m' := Step(m, Read(q), silence);
            m'.l.init == m.l.init && m'.l.bridge == m.l.bridge && m'.at == m.at && m'.baseAt == m.baseAt && m'.h == m.h
  {
    hide Inv;
  }

  // ---- Whole runs

  ghost predicate StaysRun(m: Machine, off: nat, actions: seq<Action>, silence: seq<Byte>)
    requires Inv(m, silence) && AllowedRun(m, actions, silence)
    decreases |actions|
  {
    |actions| > 0 ==>
      StaysOnFile(m, off, actions[0], silence) &&
      (StepInv(m, actions[0], silence);
       StaysRun(Step(m, actions[0], silence), OffAfter(m, off, actions[0]), actions[1..], silence))
  }

  ghost function OffOver(m: Machine, off: nat, actions: seq<Action>, silence: seq<Byte>): nat
    requires Inv(m, silence) && AllowedRun(m, actions, silence)
    decreases |actions|
  {
    if |actions| == 0 then off
    else
      StepInv(m, actions[0], silence);
      OffOver(Step(m, actions[0], silence), OffAfter(m, off, actions[0]), actions[1..], silence)
  }

  lemma {:induction false} FileRun(m: Machine, off: nat, actions: seq<Action>, silence: seq<Byte>)
    requires Inv(m, silence) && AllowedRun(m, actions, silence)
    requires OnFile(m, off) && StaysRun(m, off, actions, silence)
    ensures var m' := RunFrom(m, actions, silence);
            OnFile(m', OffOver(m, off, actions, silence)) && m'.baseAt == m.baseAt && m.h.stream <= m'.h.stream
    decreases |actions|
  {
    hide Inv, Allowed, StaysOnFile, Step, OnFile, OffAfter;
    if |actions| > 0 {
      StepInv(m, actions[0], silence);
      FileStep(m, off, actions[0], silence);
      FileRun(Step(m, actions[0], silence), OffAfter(m, off, actions[0]), actions[1..], silence);
    }
  }

  // The open file looks like a file: two reads of the same stretch of it, however much is read,
  // re-read and appended before and between, give the same bytes, those of the stream from the
  // file's start on.
  lemma LooksLikeAFile(m: Machine, off: nat, before: seq<Action>, q1: Req, between: seq<Action>, q2: Req,
                       silence: seq<Byte>)
    requires Inv(m, silence) && OnFile(m, off)
    requires AllowedRun(m, before, silence) && StaysRun(m, off, before, silence)
    requires var (m1, off1) := (RunFrom(m, before, silence), OffOver(m, off, before, silence));
             && Allowed(m1, Read(q1)) && Plays(m1, Read(q1)) && StaysOnFile(m1, off1, Read(q1), silence)
             && var (m2, off2) := (Step(m1, Read(q1), silence), OffAfter(m1, off1, Read(q1)));
                && Inv(m2, silence) && AllowedRun(m2, between, silence) && StaysRun(m2, off2, between, silence)
                && var (m3, off3) := (RunFrom(m2, between, silence), OffOver(m2, off2, between, silence));
                   Allowed(m3, Read(q2)) && Plays(m3, Read(q2)) && StaysOnFile(m3, off3, Read(q2), silence)
    requires q1.off == q2.off && q1.n == q2.n
    ensures var m1 := RunFrom(m, before, silence);
            var m3 := RunFrom(Step(m1, Read(q1), silence), between, silence);
            && Ready(m1.l, m1.r, q1, silence) && Ready(m3.l, m3.r, q2, silence)
            && |ReadBytes(m1.l, m1.r, q1, silence)| == q1.n
            && ReadBytes(m1.l, m1.r, q1, silence) == ReadBytes(m3.l, m3.r, q2, silence)
            && m3.baseAt == m.baseAt && IsFileAt(m3, q2.off, ReadBytes(m3.l, m3.r, q2, silence))
  {
    hide Inv, Allowed, StaysOnFile, Step, OnFile, OffAfter, AllowedRun, RunFrom, StaysRun, OffOver, Ready, ReadBytes,
      Plays;
    var (m1, off1) := (RunFrom(m, before, silence), OffOver(m, off, before, silence));
    FileRun(m, off, before, silence);
    FileStep(m1, off1, Read(q1), silence);
    var (m2, off2) := (Step(m1, Read(q1), silence), OffAfter(m1, off1, Read(q1)));
    FileRun(m2, off2, between, silence);
    var (m3, off3) := (RunFrom(m2, between, silence), OffOver(m2, off2, between, silence));
    FileStep(m3, off3, Read(q2), silence);
    SameStretch(m1.h.stream, m3.h.stream, m.baseAt + q1.off, q1.n);
  }

  lemma SameStretch(s: seq<Byte>, t: seq<Byte>, at: int, n: nat)
    requires s <= t && 0 <= at && at + n <= |s|
    ensures s[at..at + n] == t[at..at + n]
  {}
}
