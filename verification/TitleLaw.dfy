// What a title looks like on the radio, character by character.
module TitleLaw {
  import opened Bytes
  import opened VfatTitle
  import opened VfatDirectory

  // The characters of a text that count: 251 of them at most.
  function Kept(us: seq<CodePoint>): seq<CodePoint> { if |us| <= 251 then us else us[..251] }

  // A name may not have control characters, nor any of "*/:<>?\| or DEL, nor characters beyond the
  // basic plane.
  predicate Shown(u: CodePoint) { 32 <= u < 0x10000 && u !in {34, 42, 47, 58, 60, 62, 63, 92, 124, 127} }

  predicate Blank(u: int) { u == 32 || u == 46 }

  // The text is spaces, what is left of it, then spaces and dots.
  ghost predicate Splits(us: seq<CodePoint>, before: seq<CodePoint>, core: seq<CodePoint>, after: seq<CodePoint>)
  {
    && Kept(us) == before + core + after
    && (forall k :: 0 <= k < |before| ==> before[k] == 32)
    && (forall k :: 0 <= k < |after| ==> Blank(after[k]))
    && (|core| > 0 ==> core[0] != 32 && !Blank(core[|core| - 1]))
  }

  // The name shows what is left, with an underscore for each character it may not have, and
  // ".mp3"; "Stream.mp3" when nothing is left.
  ghost predicate NameFor(core: seq<CodePoint>, name: seq<Unit>)
  {
    if |core| == 0 then name == [83, 116, 114, 101, 97, 109, 46, 109, 112, 51]
    else
      && |name| == |core| + 4 && name[|core|..] == [46, 109, 112, 51]
      && forall k :: 0 <= k < |core| ==> name[k] == if Shown(core[k]) then core[k] else 95
  }

  lemma {:induction false} CleanedAt(us: seq<CodePoint>, k: nat)
    requires k < |us|
    ensures Cleaned(us)[k] == if Shown(us[k]) then us[k] else 95
  {
    if k > 0 { CleanedAt(us[1..], k - 1); }
  }

  lemma CleanedSpaces(us: seq<CodePoint>, k: nat)
    requires k < |us|
    ensures Cleaned(us)[k] == 32 <==> us[k] == 32
    ensures Blank(Cleaned(us)[k]) <==> Blank(us[k])
  {
    hide Cleaned;
    CleanedAt(us, k);
  }

  // Trimming takes the spaces before and the spaces and dots after, and nothing else.
  lemma TrimsExactly(us: seq<Unit>, a: nat, b: nat)
    requires a <= b <= |us|
    requires forall k :: 0 <= k < a ==> us[k] == 32
    requires forall k :: b <= k < |us| ==> Blank(us[k])
    requires a < b ==> us[a] != 32 && !Blank(us[b - 1])
    ensures Trimmed(us) == if a < b then us[a..b] else [83, 116, 114, 101, 97, 109]
  {
    var start := LeadingSpaces(us);
    var n := TrimmedLength(us, start);
    if a < b {
      assert start == a;
      assert n == b;
    }
  }

  lemma CleanedTrims(us: seq<CodePoint>, a: nat, b: nat)
    requires a <= b <= |us|
    requires forall k :: 0 <= k < a ==> us[k] == 32
    requires forall k :: b <= k < |us| ==> Blank(us[k])
    requires a < b ==> us[a] != 32 && !Blank(us[b - 1])
    ensures Trimmed(Cleaned(us)) == if a < b then Cleaned(us)[a..b] else [83, 116, 114, 101, 97, 109]
  {
    hide Trimmed, Cleaned, Blank;
    forall k | 0 <= k < |us|
      ensures Cleaned(us)[k] == 32 <==> us[k] == 32
      ensures Blank(Cleaned(us)[k]) <==> Blank(us[k])
    {
      CleanedSpaces(us, k);
    }
    TrimsExactly(Cleaned(us), a, b);
  }

  lemma NameLooks(us: seq<CodePoint>, before: seq<CodePoint>, core: seq<CodePoint>, after: seq<CodePoint>)
    requires Splits(us, before, core, after)
    ensures NameFor(core, LongName(Encoded(us)))
  {
    hide Trimmed, Cleaned, Encoded, LongName, Shown;
    var all := Kept(us);
    var c := Cleaned(all);
    NameOfText(us);
    var a, b := |before|, |before| + |core|;
    assert forall k :: 0 <= k < a ==> all[k] == before[k];
    assert forall k :: a <= k < b ==> all[k] == core[k - a];
    assert forall k :: b <= k < |all| ==> all[k] == after[k - b];
    CleanedTrims(all, a, b);
    if a < b {
      forall k | 0 <= k < |core| ensures c[a..b][k] == if Shown(core[k]) then core[k] else 95 { CleanedAt(all, a + k); }
    }
  }

  // Every text can be split so, and the radio reads the name made of what is left.
  lemma ReadsAs(us: seq<CodePoint>, dir: seq<Byte>, x: Names, f: nat)
    returns (before: seq<CodePoint>, core: seq<CodePoint>, after: seq<CodePoint>)
    requires Describable(x) && IsDirectory(dir, x) && f < |x.sizes| && x.long == LongName(Encoded(us))
    requires forall k :: 0 <= k < |us| ==> !Surrogate(us[k])
    ensures Splits(us, before, core, after)
    ensures |ReadFrom(dir, 0, NOTHING)| == |x.sizes| && NameFor(core, ReadFrom(dir, 0, NOTHING)[f].name)
  {
    hide LongName, PairedInParts, IsDirectory, ReadFrom, Surrogate, Describable, Encoded, NameFor;
    DirectoryRoundTrip(dir, x, f);
    TextWithoutSurrogates(us);
    WithoutSurrogates(LongName(Encoded(us)));
    before, core, after := Split(us);
    NameLooks(us, before, core, after);
  }

  lemma Split(us: seq<CodePoint>) returns (before: seq<CodePoint>, core: seq<CodePoint>, after: seq<CodePoint>)
    ensures Splits(us, before, core, after)
  {
    hide Kept;
    var all := Kept(us);
    var a := 0;
    while a < |all| && all[a] == 32
      invariant a <= |all| && forall k :: 0 <= k < a ==> all[k] == 32
    {
      a := a + 1;
    }
    var b := |all|;
    while b > a && Blank(all[b - 1])
      invariant a <= b <= |all| && forall k :: b <= k < |all| ==> Blank(all[k])
    {
      b := b - 1;
    }
    before, core, after := all[..a], all[a..b], all[b..];
    InThree(all, a, b);
  }

  lemma InThree(all: seq<CodePoint>, a: nat, b: nat)
    requires a <= b <= |all|
    ensures all == all[..a] + all[a..b] + all[b..]
    ensures a < b ==> all[a..b][0] == all[a] && all[a..b][b - a - 1] == all[b - 1]
  {}

  // ---- The slots of a long name

  // Part k of n holds characters 13 (k - 1) to 13 k - 1 of the name, low byte first, five, six and
  // two of them; a zero ends the name and ones fill the rest. The last part is marked.
  lemma PartLooks(slot: seq<Byte>, name: seq<Unit>, k: nat, n: nat, sum: Byte, i: nat)
    requires 0 < k <= n <= 20 && IsLongSlot(slot, name, k, n, sum) && i < 13
    ensures var c := 13 * (k - 1) + i;
            var at := if i < 5 then 1 + 2 * i else if i < 11 then 4 + 2 * i else 6 + 2 * i;
            && |slot| == 32 && slot[0] == (if k == n then 64 + k else k) && slot[11] == 0x0F && slot[13] == sum
            && (slot[at] as int) + 256 * (slot[at + 1] as int)
               == if c < |name| then name[c] else if c == |name| then 0 else 0xFFFF
  {
    hide UnitAt;
    var u := UnitAt(name, k, i);
    assert slot[UnitPos(i)] == LowByte(u) && slot[UnitPos(i) + 1] == HighByte(u);
    UnitIs(name, k, i);
  }

  lemma UnitIs(name: seq<Unit>, k: nat, i: nat)
    requires k > 0
    ensures var c := 13 * (k - 1) + i;
            UnitAt(name, k, i) == if c < |name| then name[c] else if c == |name| then 0 else 0xFFFF
  {}

  // A slot freed, or a volume label, is no file, and no part of a name before it counts.
  lemma NoFileHere(dir: seq<Byte>, s: nat, p: Pending)
    requires (s + 1) * 32 <= |dir|
    requires var slot := SlotOf(dir, s); slot[0] == 0xE5 || (slot[11] != 0x0F && slot[11] / 8 % 2 == 1)
    ensures ReadFrom(dir, s, p) == ReadFrom(dir, s + 1, NOTHING)
  {
    hide SlotOf;
    assert ReadSlot(p, SlotOf(dir, s)) == (NOTHING, []);
  }

  // ---- The short name

  function Capital(u: Unit): Unit { if 97 <= u <= 122 then u - 32 else u }

  // The letters and digits of a name, in capitals.
  function Capitals(us: seq<Unit>): seq<Unit>
  {
    if |us| == 0 then []
    else if 65 <= us[0] <= 90 || 97 <= us[0] <= 122 || 48 <= us[0] <= 57 then [Capital(us[0])] + Capitals(us[1..])
    else Capitals(us[1..])
  }

  lemma {:induction false} LettersAre(us: seq<Unit>, room: nat)
    ensures Letters(us, room) == if |Capitals(us)| <= room then Capitals(us) else Capitals(us)[..room]
  {
    if |us| > 0 && room > 0 {
      LettersAre(us[1..], if Alphanumeric(Upper(us[0])) then room - 1 else room);
    }
  }

  // Six capitals of the name at most, or "STREAM", a tilde and the file's number from 1, filled up
  // with spaces to eight, and "MP3".
  lemma AliasLooks(stem: seq<Unit>, f: nat)
    requires f < 9
    ensures var base := if |Capitals(stem)| == 0 then [83, 84, 82, 69, 65, 77] else Capitals(stem);
            var n := if |base| < 6 then |base| else 6;
            var a := Alias(Basis(stem), f);
            && |a| == 11 && |Basis(stem)| == n && a[..n] == base[..n] && a[n] == 126 && a[n + 1] == 49 + f
            && (forall k :: n + 2 <= k < 8 ==> a[k] == 32) && a[8..] == [77, 80, 51]
  {
    LettersAre(stem, 6);
    hide Letters, Capitals;
  }

  // Without the parts of a long name, or when they carry another checksum, the reader shows the
  // alias, without its spaces and with a dot.
  lemma AliasShown(stem: seq<Unit>, f: nat, slot: seq<Byte>, p: Pending)
    requires f < 9 && |slot| == 32 && slot[..11] == Alias(Basis(stem), f)
    requires |p.parts| == 0 || p.sum != Some(Checksum(slot[..11]))
    ensures var base := if |Capitals(stem)| == 0 then [83, 84, 82, 69, 65, 77] else Capitals(stem);
            var n := if |base| < 6 then |base| else 6;
            EntryName(p, slot) == base[..n] + [126, 49 + f, 46, 77, 80, 51]
  {
    hide Capitals, Alias, Basis, Ascii, StripRight, Checksum;
    AliasLooks(stem, f);
    var a := Alias(Basis(stem), f);
    var base := if |Capitals(stem)| == 0 then [83, 84, 82, 69, 65, 77] else Capitals(stem);
    var n := if |base| < 6 then |base| else 6;
    assert slot[0..11] == slot[..11] && slot[0..8] == a[..8] && slot[8..11] == a[8..];
    assert a[..8] == a[..n + 2] + a[n + 2..8] && a[..n + 2] == base[..n] + [126, 49 + f];
    assert forall k :: 0 <= k < n ==> base[..n][k] == a[k];
    AliasPrintable(stem, f, n);
    Stripped(a[..n + 2], a[n + 2..8]);
    Stripped(a[8..], []);
    assert a[8..] + [] == a[8..];
    assert base[..n] + [126, 49 + f] + [46] + [77, 80, 51] == base[..n] + [126, 49 + f, 46, 77, 80, 51];
  }

  lemma AliasPrintable(stem: seq<Unit>, f: nat, n: nat)
    requires f < 9 && n == |Basis(stem)|
    ensures forall k :: 0 <= k < n + 2 ==> 33 <= Alias(Basis(stem), f)[k] < 128
  {
    hide Basis;
  }

  lemma {:induction false} Stripped(text: seq<Byte>, spaces: seq<Byte>)
    requires |text| > 0 && (forall k :: 0 <= k < |text| ==> 33 <= text[k] < 128)
    requires forall k :: 0 <= k < |spaces| ==> spaces[k] == 32
    ensures StripRight(Ascii(text + spaces)) == text
  {
    var all := text + spaces;
    var n := |all| - 1;
    if |spaces| == 0 {
      assert all == text;
      AsciiIs(text);
    } else {
      assert all[..n] == text + spaces[..|spaces| - 1];
      assert Ascii(all)[..n] == Ascii(all[..n]);
      Stripped(text, spaces[..|spaces| - 1]);
    }
  }

  lemma {:induction false} AsciiIs(text: seq<Byte>)
    requires forall k :: 0 <= k < |text| ==> text[k] < 128
    ensures Ascii(text) == text
  {
    if |text| > 0 { AsciiIs(text[..|text| - 1]); }
  }

  // The checksum that ties the parts of a long name to the alias of the first file of a stream.
  lemma ChecksumOfStream()
    ensures Checksum([83, 84, 82, 69, 65, 77, 126, 49, 77, 80, 51]) == 254
  {
    hide Checksum, SumStep;
    var name: seq<Byte> := [83, 84, 82, 69, 65, 77, 126, 49, 77, 80, 51];
    assert Checksum(name[..0]) == 0 by { NoChecksum(name[..0]); }
    StreamSteps();
    Summed(name, 0, 0, 83);
    Summed(name, 1, 83, 253);
    Summed(name, 2, 253, 80);
    Summed(name, 3, 80, 109);
    Summed(name, 4, 109, 247);
    Summed(name, 5, 247, 72);
    Summed(name, 6, 72, 162);
    Summed(name, 7, 162, 130);
    Summed(name, 8, 130, 142);
    Summed(name, 9, 142, 151);
    Summed(name, 10, 151, 254);
    assert name[..11] == name;
  }

  lemma NoChecksum(name: seq<Byte>)
    requires |name| == 0
    ensures Checksum(name) == 0
  {}

  lemma Summed(name: seq<Byte>, k: nat, before: Byte, after: Byte)
    requires k < |name| && Checksum(name[..k]) == before && SumStep(before, name[k]) == after
    ensures Checksum(name[..k + 1]) == after
  {
    hide SumStep;
    assert name[..k + 1][..k] == name[..k];
  }

  lemma StreamSteps()
    ensures SumStep(0, 83) == 83 && SumStep(83, 84) == 253 && SumStep(253, 82) == 80 && SumStep(80, 69) == 109
    ensures SumStep(109, 65) == 247 && SumStep(247, 77) == 72 && SumStep(72, 126) == 162 && SumStep(162, 49) == 130
    ensures SumStep(130, 77) == 142 && SumStep(142, 80) == 151 && SumStep(151, 51) == 254
  {}
}
