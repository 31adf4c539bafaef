// Building the root directory in place, from a title.
module VfatRoot {
  import opened Bytes
  import opened VfatTitle
  import opened VfatDirectory
  import Memory

  const SLOTS: nat := 64

  // Long names never take more than 20 parts, so the files fit the directory.
  lemma {:induction false} FilesFit(f: nat, n: nat)
    requires n <= 20
    ensures Base(f, n) <= f * 21
  {
    if f > 0 { FilesFit(f - 1, n); }
  }

  // A slot's bytes, and where everything else in the directory stays the same.
  ghost predicate Untouched(dir: seq<Byte>, dir': seq<Byte>, s: nat)
  {
    |dir'| == |dir| && forall b :: 0 <= b < |dir| && !(s * 32 <= b < s * 32 + 32) ==> dir'[b] == dir[b]
  }

  lemma SameSlot(dir: seq<Byte>, dir': seq<Byte>, s: nat, t: nat)
    requires Untouched(dir, dir', s) && t != s && (t + 1) * 32 <= |dir|
    ensures SlotOf(dir', t) == SlotOf(dir, t)
  {
    hide SlotOf;
    SlotBytes(dir, t);
    SlotBytes(dir', t);
  }

  lemma SlotBytes(dir: seq<Byte>, t: nat)
    requires (t + 1) * 32 <= |dir|
    ensures forall i :: 0 <= i < 32 ==> SlotOf(dir, t)[i] == dir[t * 32 + i]
  {}

  // A file described by the bytes before `limit` stays described while those do not change.
  lemma StillThere(dir: seq<Byte>, dir': seq<Byte>, limit: nat, at: nat, name: seq<Unit>, alias: seq<Byte>,
                   first: nat, size: nat)
    requires |dir'| == |dir| && FileAt(dir, at, name, alias, first, size) && (at + Parts(name) + 1) * 32 <= limit
    requires forall b :: 0 <= b < |dir| && b < limit ==> dir'[b] == dir[b]
    ensures FileAt(dir', at, name, alias, first, size)
  {
    hide IsLongSlot, IsShortSlot, SlotOf, Parts;
    var n := Parts(name);
    forall j | at <= j <= at + n ensures SlotOf(dir', j) == SlotOf(dir, j) {
      SlotBytes(dir, j);
      SlotBytes(dir', j);
    }
  }

  // Units never overlap each other or the slot's other fields.
  lemma UnitsApart(i: nat)
    requires i < 13
    ensures 1 <= UnitPos(i) && UnitPos(i) + 1 < 32
    ensures UnitPos(i) + 1 < 11 || UnitPos(i) > 13
    ensures forall j :: 0 <= j < i ==> UnitPos(j) + 1 < UnitPos(i)
  {}

  // Part k of n of a long name, written into an empty slot.
  method PutLong(dir: array<Byte>, s: nat, name: seq<Unit>, k: nat, n: nat, sum: Byte)
    requires 0 < k <= n <= 20 && (s + 1) * 32 <= dir.Length
    modifies dir
    ensures IsLongSlot(SlotOf(dir[..], s), name, k, n, sum)
    ensures Untouched(old(dir[..]), dir[..], s)
  {
    hide UnitAt, LowByte, HighByte, UnitPos, Ordinal;
    var e := s * 32;
    dir[e] := Ordinal(k, n);
    dir[e + 11] := LONG_ATTRIBUTE;
    dir[e + 13] := sum;
    var i := 0;
    while i < 13
      invariant 0 <= i <= 13
      invariant dir[e] == Ordinal(k, n)
      invariant dir[e + 11] == LONG_ATTRIBUTE && dir[e + 13] == sum
      invariant forall j :: 0 <= j < i ==>
                  && dir[e + UnitPos(j)] == LowByte(UnitAt(name, k, j))
                  && dir[e + UnitPos(j) + 1] == HighByte(UnitAt(name, k, j))
      invariant forall b :: 0 <= b < dir.Length && !(e <= b < e + 32) ==> dir[b] == old(dir[b])
    {
      PositionsAre(i);
      UnitsApart(i);
      var p := e + POSITIONS[i];
      dir[p] := LowByte(UnitAt(name, k, i));
      dir[p + 1] := HighByte(UnitAt(name, k, i));
      i := i + 1;
    }
    SlotBytes(dir[..], s);
  }

  // A file's alias, first cluster and size, written into an empty slot.
  method PutShort(dir: array<Byte>, s: nat, alias: seq<Byte>, first: nat, size: nat)
    requires |alias| == 11 && (s + 1) * 32 <= dir.Length
    modifies dir
    ensures IsShortSlot(SlotOf(dir[..], s), alias, first, size)
    ensures Untouched(old(dir[..]), dir[..], s)
  {
    var e := s * 32;
    Memory.Store(dir, e, alias);
    dir[e + 11] := 0x20;
    dir[e + 16], dir[e + 17] := 0x21, 0x4A;
    dir[e + 18], dir[e + 19] := 0x21, 0x4A;
    dir[e + 24], dir[e + 25] := 0x21, 0x4A;
    Memory.Store(dir, e + 26, [first % 256, first / 256 % 256]);
    Memory.Store(dir, e + 28, [size % 256, size / 256 % 256, size / 65536 % 256, size / 16777216 % 256]);
    SlotBytes(dir[..], s);
    assert SlotOf(dir[..], s)[..11] == alias;
  }

  method LfnChecksum(name: seq<Byte>) returns (sum: Byte)
    ensures sum == Checksum(name)
  {
    sum := 0;
    var i := 0;
    while i < |name|
      invariant 0 <= i <= |name| && sum == Checksum(name[..i])
    {
      assert name[..i + 1][..i] == name[..i];
      sum := SumStep(sum, name[i]);
      i := i + 1;
    }
    assert name[..|name|] == name;
  }

  // All slots of one file from slot s on: the parts of its name, last first, then its alias.
  method PutFile(dir: array<Byte>, s: nat, name: seq<Unit>, alias: seq<Byte>, first: nat, size: nat)
    requires |alias| == 11 && 0 < |name| <= MAX_CHARS && (s + Parts(name) + 1) * 32 <= dir.Length
    modifies dir
    ensures FileAt(dir[..], s, name, alias, first, size)
    ensures forall b :: 0 <= b < dir.Length && !(s * 32 <= b < (s + Parts(name) + 1) * 32) ==> dir[b] == old(dir[b])
  {
    var n := Parts(name);
    assert 0 < n <= 20;
    hide SlotsDone, IsLongSlot, IsShortSlot, SlotOf, Untouched, Parts;
    var sum := LfnChecksum(alias);
    var slot, k := s, n;
    FileSlots(dir[..], s, name, alias, first, size);
    while k >= 1
      invariant 0 <= k <= n && slot == s + n - k
      invariant SlotsDone(dir[..], s, slot, name, n, sum)
      invariant Within(old(dir[..]), dir[..], s, slot)
    {
      ghost var was := dir[..];
      PutLong(dir, slot, name, k, n, sum);
      OneMoreSlot(was, dir[..], s, slot, name, n, sum);
      StillWithin(old(dir[..]), was, dir[..], s, slot);
      slot, k := slot + 1, k - 1;
    }
    ghost var was := dir[..];
    PutShort(dir, slot, alias, first, size);
    SlotsKept(was, dir[..], s, slot, name, n, sum);
    StillWithin(old(dir[..]), was, dir[..], s, slot);
    FileSlots(dir[..], s, name, alias, first, size);
  }

  // The slots from s up to `slot` hold a name's last parts.
  ghost predicate SlotsDone(dir: seq<Byte>, s: nat, slot: nat, name: seq<Unit>, n: nat, sum: Byte)
  {
    && slot <= s + n && slot * 32 <= |dir|
    && forall j :: s <= j < slot ==> IsLongSlot(SlotOf(dir, j), name, n - (j - s), n, sum)
  }

  // Nothing has changed outside the slots from s up to `slot`.
  ghost predicate Within(dir: seq<Byte>, dir': seq<Byte>, s: nat, slot: nat)
  {
    |dir'| == |dir| && forall b :: 0 <= b < |dir| && !(s * 32 <= b < slot * 32) ==> dir'[b] == dir[b]
  }

  lemma SlotsKept(was: seq<Byte>, dir: seq<Byte>, s: nat, slot: nat, name: seq<Unit>, n: nat, sum: Byte)
    requires SlotsDone(was, s, slot, name, n, sum) && Untouched(was, dir, slot)
    ensures SlotsDone(dir, s, slot, name, n, sum)
  {
    forall j | s <= j < slot ensures SlotOf(dir, j) == SlotOf(was, j) { SameSlot(was, dir, slot, j); }
    hide IsLongSlot, SlotOf;
  }

  lemma OneMoreSlot(was: seq<Byte>, dir: seq<Byte>, s: nat, slot: nat, name: seq<Unit>, n: nat, sum: Byte)
    requires SlotsDone(was, s, slot, name, n, sum) && Untouched(was, dir, slot)
    requires s <= slot < s + n && (slot + 1) * 32 <= |dir|
    requires IsLongSlot(SlotOf(dir, slot), name, n - (slot - s), n, sum)
    ensures SlotsDone(dir, s, slot + 1, name, n, sum)
  {
    SlotsKept(was, dir, s, slot, name, n, sum);
    hide IsLongSlot, SlotOf, Untouched;
  }

  lemma StillWithin(dir0: seq<Byte>, was: seq<Byte>, dir: seq<Byte>, s: nat, slot: nat)
    requires Within(dir0, was, s, slot) && Untouched(was, dir, slot) && s <= slot
    ensures Within(dir0, dir, s, slot + 1)
  {}

  lemma FileSlots(dir: seq<Byte>, s: nat, name: seq<Unit>, alias: seq<Byte>, first: nat, size: nat)
    requires (s + Parts(name) + 1) * 32 <= |dir|
    ensures var n := Parts(name);
            FileAt(dir, s, name, alias, first, size)
            <==> && SlotsDone(dir, s, s + n, name, n, Checksum(alias))
                 && IsShortSlot(SlotOf(dir, s + n), alias, first, size)
    ensures SlotsDone(dir, s, s, name, Parts(name), Checksum(alias))
  {
    hide IsLongSlot, IsShortSlot, SlotOf, Checksum;
  }

  class RootDirectory {
    const root: array<Byte>
    const firsts: seq<nat>
    var longName: seq<Unit>
    var aliases: seq<seq<Byte>>
    var sizes: seq<nat>

    ghost function View(): Names
      reads this
    {
      Names(longName, aliases, firsts, sizes)
    }

    // Room for the longest name, clusters and sizes that fit their fields.
    ghost predicate Room()
      reads this`sizes
    {
      && root.Length == SLOTS * 32 && 0 < |firsts| == |sizes| && |firsts| * 21 <= SLOTS
      && (forall f :: 0 <= f < |firsts| ==> firsts[f] < 0x10000)
      && (forall f :: 0 <= f < |sizes| ==> sizes[f] < 0x1_0000_0000)
    }

    ghost predicate Named()
      reads this
    {
      Room() && Describable(View())
    }

    // The directory describes the files under their current name.
    ghost predicate Valid()
      reads this, root
    {
      Named() && IsDirectory(root[..], View())
    }

    constructor (firsts: seq<nat>, size: nat)
      requires 0 < |firsts| && |firsts| * 21 <= SLOTS && size < 0x1_0000_0000
      requires forall f :: 0 <= f < |firsts| ==> firsts[f] < 0x10000
      ensures Valid() && fresh(root) && this.firsts == firsts
      ensures longName == LongName([83, 116, 114, 101, 97, 109])
      ensures |sizes| == |firsts| && forall f :: 0 <= f < |sizes| ==> sizes[f] == size
    {
      hide LongName, IsDirectory, Describable, Alias, Basis;
      this.firsts := firsts;
      root := new Byte[SLOTS * 32];
      longName, aliases := [], [];
      sizes := seq(|firsts|, f => size);
      new;
      LongNameLegal([83, 116, 114, 101, 97, 109]);
      var changed := SetTitle([83, 116, 114, 101, 97, 109]);
    }

    // A new title: every file's long name and alias, and the directory. Nothing happens when the
    // name is the same as before.
    method SetTitle(title: seq<Byte>) returns (changed: bool)
      requires Room() && (longName == LongName(title) ==> Valid())
      modifies this`longName, this`aliases, root
      ensures Valid() && longName == LongName(title)
      ensures changed <==> LongName(title) != old(longName)
      ensures !changed ==> aliases == old(aliases) && root[..] == old(root[..])
      ensures changed ==> forall f :: 0 <= f < |aliases| ==> f < 9 && aliases[f] == Alias(Basis(Stem(title)), f)
    {
      hide Chars, Trimmed, IsDirectory;
      var name := DecodeTitle(title);
      var stem := TrimTitle(name);
      var full := stem + EXTENSION;
      assert full == LongName(title);
      if full == longName { return false; }
      LongNameLegal(title);
      longName := full;
      var basis := MakeBasis(stem);
      var list: seq<seq<Byte>>, f := [], 0;
      while f < |firsts|
        invariant 0 <= f <= |firsts| && |list| == f
        invariant forall g :: 0 <= g < f ==> g < 9 && list[g] == Alias(basis, g)
      {
        list := list + [Alias(basis, f)];
        f := f + 1;
      }
      aliases := list;
      AliasesUsable(stem, aliases);
      NoNuls(title);
      BuildRoot();
      changed := true;
    }

    // Builds the whole directory aside and swaps it in.
    method BuildRoot()
      requires Named()
      modifies root
      ensures Valid()
    {
      hide Parts, FileAt;
      var dir := new Byte[SLOTS * 32](_ => 0);
      ghost var x, n := View(), Parts(longName);
      assert n <= 20 by { PartsFit(longName); }
      var slot, f := 0, 0;
      while f < |firsts|
        invariant 0 <= f <= |firsts| && slot == Base(f, n)
        invariant forall g :: 0 <= g < f ==> Describes(dir[..], x, g)
        invariant forall b :: slot * 32 <= b < dir.Length ==> dir[b] == 0
      {
        FilesFit(f + 1, n);
        ghost var was := dir[..];
        PutFile(dir, slot, longName, aliases[f], firsts[f], sizes[f]);
        forall g | 0 <= g < f ensures Describes(dir[..], x, g) {
          assert Describes(was, x, g);
          BaseGrows(g + 1, f, n);
          StillThere(was, dir[..], slot * 32, Base(g, n), longName, aliases[g], firsts[g], sizes[g]);
        }
        slot := slot + Parts(longName) + 1;
        f := f + 1;
      }
      Memory.Move(root, 0, dir, 0, SLOTS * 32);
      assert root[..] == dir[..];
    }
  }

  lemma PartsFit(name: seq<Unit>)
    requires 0 < |name| <= MAX_CHARS
    ensures 0 < Parts(name) <= 20
  {}

  lemma {:induction false} BaseGrows(f: nat, g: nat, n: nat)
    requires f <= g
    ensures Base(f, n) <= Base(g, n)
  {
    if f < g { BaseGrows(f, g - 1, n); }
  }

  lemma AliasesUsable(stem: seq<Unit>, aliases: seq<seq<Byte>>)
    requires forall f :: 0 <= f < |aliases| ==> f < 9 && aliases[f] == Alias(Basis(stem), f)
    ensures forall f :: 0 <= f < |aliases| ==> |aliases[f]| == 11 && aliases[f][0] != 0 && aliases[f][0] != 0xE5
  {
    hide Basis;
    var b := Basis(stem)[0];
    assert forall f :: 0 <= f < |aliases| ==> aliases[f][0] == b;
  }

  lemma NoNuls(title: seq<Byte>)
    ensures forall c :: 0 <= c < |LongName(title)| ==> LongName(title)[c] != 0
  {
    LongNameLegal(title);
  }

  // From title to reader: a title in well-formed UTF-8 comes back as exactly the name made of it.
  lemma TitleComesBack(title: seq<Byte>, dir: seq<Byte>, x: Names, f: nat)
    requires Describable(x) && IsDirectory(dir, x) && f < |x.sizes| && x.long == LongName(title)
    requires forall k :: 0 <= k < |title| ==> !EncodesSurrogate(title, k)
    ensures |ReadFrom(dir, 0, NOTHING)| == |x.sizes| && ReadFrom(dir, 0, NOTHING)[f].name == LongName(title)
  {
    hide LongName, PairedInParts, IsDirectory, ReadFrom, Surrogate, EncodesSurrogate, Describable;
    DirectoryRoundTrip(dir, x, f);
    TitleWithoutSurrogates(title);
    WithoutSurrogates(LongName(title));
  }

  // A text of any characters, sent as UTF-8, is read back from the directory: its
  // first 251 characters, cleaned of what names may not contain and trimmed, with the extension.
  lemma TextComesBack(us: seq<CodePoint>, dir: seq<Byte>, x: Names, f: nat)
    requires Describable(x) && IsDirectory(dir, x) && f < |x.sizes| && x.long == LongName(Encoded(us))
    requires forall k :: 0 <= k < |us| ==> !Surrogate(us[k])
    ensures |ReadFrom(dir, 0, NOTHING)| == |x.sizes|
    ensures ReadFrom(dir, 0, NOTHING)[f].name == Trimmed(Cleaned(First(us, MAX_BASE))) + EXTENSION
  {
    hide LongName, PairedInParts, IsDirectory, ReadFrom, Surrogate, Describable, Trimmed, Cleaned, First, Encoded;
    DirectoryRoundTrip(dir, x, f);
    TextWithoutSurrogates(us);
    WithoutSurrogates(LongName(Encoded(us)));
    NameOfText(us);
  }
}
