// The root directory with long file names, and the reader that reassembles them.
module VfatDirectory {
  import opened Bytes
  import opened VfatTitle

  const LAST_PART: nat := 0x40
  const LONG_ATTRIBUTE: Byte := 0x0F
  const REPLACEMENT: Unit := 0xFFFD

  // ---- Checksum of an alias

  function SumStep(sum: Byte, b: Byte): Byte { (sum % 2 * 128 + sum / 2 + b) % 256 }

  function Checksum(name: seq<Byte>): Byte
  {
    if |name| == 0 then 0 else SumStep(Checksum(name[..|name| - 1]), name[|name| - 1])
  }

  // ---- Long-name slots

  function Parts(name: seq<Unit>): nat { (|name| + 12) / 13 }

  // Unit i of part k, counting parts from 1: the name, a terminator, then filling.
  function UnitAt(name: seq<Unit>, k: nat, i: nat): Unit
    requires k > 0
  {
    var c := (k - 1) * 13 + i;
    if c < |name| then name[c] else if c == |name| then 0 else 0xFFFF
  }

  function PartFrom(name: seq<Unit>, k: nat, i: nat): (us: seq<Unit>)
    requires k > 0 && i <= 13
    ensures |us| == 13 - i && forall j :: 0 <= j < |us| ==> us[j] == UnitAt(name, k, i + j)
    decreases 13 - i
  {
    if i == 13 then [] else [UnitAt(name, k, i)] + PartFrom(name, k, i + 1)
  }

  function Part(name: seq<Unit>, k: nat): (us: seq<Unit>)
    requires k > 0
    ensures |us| == 13 && forall j :: 0 <= j < 13 ==> us[j] == UnitAt(name, k, j)
  {
    PartFrom(name, k, 0)
  }

  function LowByte(u: Unit): Byte { u % 256 }
  function HighByte(u: Unit): Byte { u / 256 }
  function UnitOf(lo: Byte, hi: Byte): Unit { lo + hi * 256 }

  // Where unit i of a part lies in its slot.
  function UnitPos(i: nat): (p: nat)
    requires i < 13
    ensures p + 1 < 32
  {
    if i < 5 then 1 + 2 * i else if i < 11 then 14 + 2 * (i - 5) else 28 + 2 * (i - 11)
  }

  const POSITIONS: seq<nat> := [1, 3, 5, 7, 9, 14, 16, 18, 20, 22, 24, 28, 30]

  lemma PositionsAre(i: nat)
    requires i < 13
    ensures POSITIONS[i] == UnitPos(i)
  {}

  // A part's number; the last part, which comes first, is marked.
  function Ordinal(k: nat, n: nat): Byte { (if k == n then k + LAST_PART else k) % 256 }

  lemma OrdinalReads(k: nat, n: nat)
    requires 0 < k <= n <= 20
    ensures var b := Ordinal(k, n); b != 0 && b != 0xE5 && b % 32 == k && (b / 64 % 2 == 1 <==> k == n)
  {}

  // A slot holds part k of n of a name: ordinal, attribute, checksum and the thirteen units.
  ghost predicate IsLongSlot(slot: seq<Byte>, name: seq<Unit>, k: nat, n: nat, sum: Byte)
    requires 0 < k <= n
  {
    && |slot| == 32
    && slot[0] == Ordinal(k, n)
    && slot[11] == LONG_ATTRIBUTE && slot[13] == sum
    && forall i :: 0 <= i < 13 ==>
         slot[UnitPos(i)] == LowByte(UnitAt(name, k, i)) && slot[UnitPos(i) + 1] == HighByte(UnitAt(name, k, i))
  }

  // A slot holds an alias with its first cluster and size.
  ghost predicate IsShortSlot(slot: seq<Byte>, alias: seq<Byte>, first: nat, size: nat)
  {
    && |slot| == 32 && |alias| == 11
    && slot[..11] == alias && slot[11] == 0x20
    && slot[26] == first % 256 && slot[27] == first / 256 % 256
    && slot[28] == size % 256 && slot[29] == size / 256 % 256
    && slot[30] == size / 65536 % 256 && slot[31] == size / 16777216 % 256
  }

  function SlotOf(dir: seq<Byte>, s: nat): (slot: seq<Byte>)
    requires (s + 1) * 32 <= |dir|
    ensures |slot| == 32
  {
    dir[s * 32..(s + 1) * 32]
  }

  // ---- Decoding parts

  // UTF-16 with every unpaired surrogate replaced; a pair stays a pair of units.
  function Decode(us: seq<Unit>): (r: seq<Unit>)
    ensures |r| == |us|
  {
    if |us| == 0 then []
    else if High(us[0]) && |us| > 1 && Low(us[1]) then us[..2] + Decode(us[2..])
    else if Surrogate(us[0]) then [REPLACEMENT] + Decode(us[1..])
    else [us[0]] + Decode(us[1..])
  }

  // Unit i is half of a pair, or no surrogate.
  predicate PairedAt(us: seq<Unit>, i: nat)
    requires i < |us|
  {
    && (High(us[i]) ==> i + 1 < |us| && Low(us[i + 1]))
    && (Low(us[i]) ==> i > 0 && High(us[i - 1]))
  }

  // Exactly the unpaired surrogates are replaced.
  lemma {:induction false} DecodeAt(us: seq<Unit>, i: nat)
    requires i < |us|
    ensures Decode(us)[i] == if PairedAt(us, i) then us[i] else REPLACEMENT
  {
    if High(us[0]) && |us| > 1 && Low(us[1]) {
      if i >= 2 { DecodeAt(us[2..], i - 2); }
    } else if i >= 1 {
      DecodeAt(us[1..], i - 1);
    }
  }

  // ---- The reader

  datatype Entry = Entry(name: seq<Unit>, first: nat, size: nat)

  // Long-name parts seen since the last alias, and the checksum they claim.
  datatype Pending = Pending(parts: map<nat, seq<Unit>>, sum: Option<Byte>)

  const NOTHING: Pending := Pending(map[], None)

  function Units(raw: seq<Byte>): (us: seq<Unit>)
    requires |raw| % 2 == 0
    ensures |us| == |raw| / 2 && forall i :: 0 <= i < |us| ==> us[i] == UnitOf(raw[2 * i], raw[2 * i + 1])
  {
    if |raw| == 0 then [] else Units(raw[..|raw| - 2]) + [UnitOf(raw[|raw| - 2], raw[|raw| - 1])]
  }

  function RawUnits(slot: seq<Byte>): (us: seq<Unit>)
    requires |slot| == 32
    ensures |us| == 13
  {
    Units(slot[1..11] + slot[14..26] + slot[28..32])
  }

  function Upto(n: nat): (s: set<nat>)
    ensures |s| == n && forall k :: k in s <==> 1 <= k <= n
  {
    if n == 0 then {} else Upto(n - 1) + {n}
  }

  function Join(parts: map<nat, seq<Unit>>, n: nat): seq<Unit>
    requires forall k :: 1 <= k <= n ==> k in parts
  {
    if n == 0 then [] else Join(parts, n - 1) + parts[n]
  }

  function UpToNul(us: seq<Unit>): seq<Unit>
  {
    if |us| == 0 || us[0] == 0 then [] else [us[0]] + UpToNul(us[1..])
  }

  predicate White(b: int) { 9 <= b <= 13 || 28 <= b <= 32 }

  function Ascii(bs: seq<Byte>): (us: seq<Unit>)
    ensures |us| == |bs|
  {
    if |bs| == 0 then [] else Ascii(bs[..|bs| - 1]) + [if bs[|bs| - 1] < 128 then bs[|bs| - 1] else REPLACEMENT]
  }

  function StripRight(us: seq<Unit>): seq<Unit>
  {
    if |us| > 0 && White(us[|us| - 1]) then StripRight(us[..|us| - 1]) else us
  }

  function AliasName(slot: seq<Byte>): seq<Unit>
    requires |slot| == 32
  {
    var base, ext := StripRight(Ascii(slot[0..8])), StripRight(Ascii(slot[8..11]));
    if |ext| > 0 then base + [DOT] + ext else base
  }

  predicate Complete(p: Pending, sum: Byte)
  {
    |p.parts| > 0 && p.sum == Some(sum) && p.parts.Keys == Upto(|p.parts|)
  }

  function Assembled(parts: map<nat, seq<Unit>>): seq<Unit>
    requires parts.Keys == Upto(|parts|)
  {
    assert forall k :: k in Upto(|parts|) ==> k in parts;
    UpToNul(Join(parts, |parts|))
  }

  function EntryName(p: Pending, slot: seq<Byte>): seq<Unit>
    requires |slot| == 32
  {
    if Complete(p, Checksum(slot[0..11])) then Assembled(p.parts) else AliasName(slot)
  }

  function EntryOf(p: Pending, slot: seq<Byte>): Entry
    requires |slot| == 32
  {
    Entry(EntryName(p, slot), Le2(slot[26], slot[27]), Le4(slot[28], slot[29], slot[30], slot[31]))
  }

  // What one slot adds.
  function ReadSlot(p: Pending, slot: seq<Byte>): (Pending, seq<Entry>)
    requires |slot| == 32
  {
    if slot[0] == 0 || slot[0] == 0xE5 then (NOTHING, [])
    else if slot[11] == LONG_ATTRIBUTE then
      var started := if slot[0] / 64 % 2 == 1 then Pending(map[], Some(slot[13])) else p;
      (started.(parts := started.parts[slot[0] % 32 := Decode(RawUnits(slot))]), [])
    else if slot[11] / 8 % 2 == 1 then (NOTHING, [])
    else (NOTHING, [EntryOf(p, slot)])
  }

  // The entries from slot s on.
  function ReadFrom(dir: seq<Byte>, s: nat, p: Pending): seq<Entry>
    decreases |dir| - s * 32
  {
    if (s + 1) * 32 > |dir| then []
    else ReadSlot(p, SlotOf(dir, s)).1 + ReadFrom(dir, s + 1, ReadSlot(p, SlotOf(dir, s)).0)
  }

  method FindEntries(dir: seq<Byte>) returns (entries: seq<Entry>)
    requires |dir| % 32 == 0
    ensures entries == ReadFrom(dir, 0, NOTHING)
  {
    hide ReadSlot;
    entries := [];
    var parts: map<nat, seq<Unit>>, sum: Option<Byte> := map[], None;
    var s := 0;
    assert [] + ReadFrom(dir, 0, NOTHING) == ReadFrom(dir, 0, NOTHING);
    while s * 32 < |dir|
      invariant 0 <= s && s * 32 <= |dir|
      invariant entries + ReadFrom(dir, s, Pending(parts, sum)) == ReadFrom(dir, 0, NOTHING)
      decreases |dir| - s * 32
    {
      ghost var p := Pending(parts, sum);
      var slot := SlotOf(dir, s);
      var found;
      parts, sum, found := Scan(slot, parts, sum);
      ghost var rest := ReadFrom(dir, s + 1, Pending(parts, sum));
      assert entries + (found + rest) == entries + found + rest;
      entries := entries + found;
      s := s + 1;
    }
    assert entries + [] == entries;
  }

  // The body of the reader's loop.
  method Scan(slot: seq<Byte>, parts: map<nat, seq<Unit>>, sum: Option<Byte>)
    returns (parts': map<nat, seq<Unit>>, sum': Option<Byte>, found: seq<Entry>)
    requires |slot| == 32
    ensures (Pending(parts', sum'), found) == ReadSlot(Pending(parts, sum), slot)
  {
    hide Decode, EntryOf;
    parts', sum', found := parts, sum, [];
    if slot[0] == 0 || slot[0] == 0xE5 {
      parts', sum' := map[], None;
      return;
    }
    if slot[11] == LONG_ATTRIBUTE {
      if slot[0] / 64 % 2 == 1 { parts', sum' := map[], Some(slot[13]); }
      parts' := parts'[slot[0] % 32 := Decode(RawUnits(slot))];
      return;
    }
    if slot[11] / 8 % 2 == 1 {
      parts', sum' := map[], None;
      return;
    }
    found := [EntryOf(Pending(parts, sum), slot)];
    parts', sum' := map[], None;
  }

  // ---- Reading one file's slots

  // A file's slots start at s: its name, last part first, then its alias.
  ghost predicate FileAt(dir: seq<Byte>, s: nat, name: seq<Unit>, alias: seq<Byte>, first: nat, size: nat)
  {
    var n := Parts(name);
    && (s + n + 1) * 32 <= |dir|
    && (forall j :: s <= j < s + n ==> IsLongSlot(SlotOf(dir, j), name, n - (j - s), n, Checksum(alias)))
    && IsShortSlot(SlotOf(dir, s + n), alias, first, size)
  }

  // The units of a part come back from its slot.
  lemma RawOfSlot(slot: seq<Byte>, name: seq<Unit>, k: nat, n: nat, sum: Byte)
    requires 0 < k <= n && IsLongSlot(slot, name, k, n, sum)
    ensures RawUnits(slot) == Part(name, k)
  {
    hide UnitAt;
    var raw := slot[1..11] + slot[14..26] + slot[28..32];
    forall i | 0 <= i < 13 ensures RawUnits(slot)[i] == UnitAt(name, k, i) {
      RawAt(slot, i);
      BackTogether(UnitAt(name, k, i));
    }
  }

  lemma RawAt(slot: seq<Byte>, i: nat)
    requires |slot| == 32 && i < 13
    ensures RawUnits(slot)[i] == UnitOf(slot[UnitPos(i)], slot[UnitPos(i) + 1])
  {}

  lemma BackTogether(u: Unit)
    ensures UnitOf(LowByte(u), HighByte(u)) == u
  {}

  // The parts k+1 .. n, and nothing else.
  ghost predicate Holds(p: Pending, name: seq<Unit>, k: nat, n: nat, sum: Byte)
  {
    && (forall j :: j in p.parts <==> k < j <= n)
    && (forall j :: k < j <= n ==> p.parts[j] == Decode(Part(name, j)))
    && (k < n ==> p.sum == Some(sum))
  }

  lemma LongSlotAdds(p: Pending, slot: seq<Byte>, name: seq<Unit>, k: nat, n: nat, sum: Byte)
    requires 0 < k <= n <= 20 && IsLongSlot(slot, name, k, n, sum) && Holds(p, name, k, n, sum)
    ensures var (p', es) := ReadSlot(p, slot); Holds(p', name, k - 1, n, sum) && es == []
  {
    hide Decode, Part, UnitPos, UnitAt, RawUnits, Ordinal;
    OrdinalReads(k, n);
    RawOfSlot(slot, name, k, n, sum);
  }

  lemma {:induction false} LongSlotsRead(dir: seq<Byte>, s: nat, name: seq<Unit>, k: nat, n: nat, sum: Byte, p: Pending)
    returns (p': Pending)
    requires k <= n <= 20 && (s + k) * 32 <= |dir| && Holds(p, name, k, n, sum)
    requires forall j :: s <= j < s + k ==> IsLongSlot(SlotOf(dir, j), name, k - (j - s), n, sum)
    ensures Holds(p', name, 0, n, sum)
    ensures ReadFrom(dir, s, p) == ReadFrom(dir, s + k, p')
    decreases k
  {
    hide Holds, IsLongSlot, ReadSlot, SlotOf;
    p' := p;
    if k > 0 {
      LongSlotAdds(p, SlotOf(dir, s), name, k, n, sum);
      var next := ReadSlot(p, SlotOf(dir, s)).0;
      assert [] + ReadFrom(dir, s + 1, next) == ReadFrom(dir, s + 1, next);
      p' := LongSlotsRead(dir, s + 1, name, k - 1, n, sum, next);
    }
  }

  // ---- What the reader makes of a name

  // The part unit c is in, and its place there.
  function PartOf(c: nat): (k: nat) ensures k > 0 { c / 13 + 1 }
  function IndexOf(c: nat): (i: nat) ensures i < 13 { c % 13 }

  // Unit c of the name, decoded within its part.
  function SeenAt(name: seq<Unit>, c: nat): Unit
  {
    Decode(Part(name, PartOf(c)))[IndexOf(c)]
  }

  function Seen(name: seq<Unit>, n: nat): (us: seq<Unit>)
    ensures |us| == n && forall c :: 0 <= c < n ==> us[c] == SeenAt(name, c)
  {
    if n == 0 then [] else Seen(name, n - 1) + [SeenAt(name, n - 1)]
  }

  // No surrogate of the name is left without its partner in the same part.
  predicate PairedInParts(name: seq<Unit>)
  {
    forall c :: 0 <= c < |name| ==> PairedAt(Part(name, PartOf(c)), IndexOf(c))
  }

  lemma UnitOfPart(name: seq<Unit>, c: nat)
    ensures Part(name, PartOf(c))[IndexOf(c)] == if c < |name| then name[c] else if c == |name| then 0 else 0xFFFF
  {
    hide Part;
    assert (PartOf(c) - 1) * 13 + IndexOf(c) == c;
    assert Part(name, PartOf(c))[IndexOf(c)] == UnitAt(name, PartOf(c), IndexOf(c));
  }

  // The reader sees the name itself exactly when its surrogates are paired within the parts.
  lemma SeenIsName(name: seq<Unit>)
    ensures Seen(name, |name|) == name <==> PairedInParts(name)
  {
    hide Part, PairedAt, Decode, PartOf, IndexOf;
    forall c | 0 <= c < |name|
      ensures SeenAt(name, c) == name[c] <==> PairedAt(Part(name, PartOf(c)), IndexOf(c))
    {
      UnitOfPart(name, c);
      DecodeAt(Part(name, PartOf(c)), IndexOf(c));
      Replaced(Part(name, PartOf(c)), IndexOf(c));
    }
    if Seen(name, |name|) == name {
      forall c | 0 <= c < |name| ensures PairedAt(Part(name, PartOf(c)), IndexOf(c)) {
        assert Seen(name, |name|)[c] == name[c];
      }
    }
  }

  lemma Replaced(us: seq<Unit>, i: nat)
    requires i < |us|
    ensures !PairedAt(us, i) ==> us[i] != REPLACEMENT
  {}

  lemma WithoutSurrogates(name: seq<Unit>)
    requires forall c :: 0 <= c < |name| ==> !Surrogate(name[c])
    ensures PairedInParts(name)
  {
    hide Part, PartOf, IndexOf;
    forall c | 0 <= c < |name| ensures PairedAt(Part(name, PartOf(c)), IndexOf(c)) {
      UnitOfPart(name, c);
    }
  }

  // A title with half a surrogate pair in it comes back changed.
  lemma UnpairedComesBackChanged()
    ensures var name := LongName([0xED, 0xA0, 0x80]);
            name[0] == 0xD800 && Seen(name, |name|)[0] == 0xFFFD && Seen(name, |name|) != name
  {
    LoneSurrogate();
    var name := LongName([0xED, 0xA0, 0x80]);
    hide LongName, Part, Seen, Decode;
    assert UnitAt(name, 1, 0) == 0xD800 && UnitAt(name, 1, 1) == 46;
    assert Seen(name, |name|)[0] == SeenAt(name, 0);
    DecodeAt(Part(name, 1), 0);
  }

  lemma LoneSurrogate()
    ensures LongName([0xED, 0xA0, 0x80]) == [0xD800, 46, 109, 112, 51]
  {
    var title: seq<Byte> := [0xED, 0xA0, 0x80];
    var us := Chars(title, 0, MAX_BASE);
    assert us == [0xD800] by {
      assert Advance(title, 0) == 3 && CodeAt(title, 0) == 0xD800;
      assert Chars(title, 3, MAX_BASE - 1) == [];
    }
    assert TrimmedLength(us, 0) == 1 && LeadingSpaces(us) == 0;
  }

  lemma {:induction false} JoinAt(parts: map<nat, seq<Unit>>, name: seq<Unit>, n: nat, c: nat)
    requires forall k :: 1 <= k <= n ==> k in parts && parts[k] == Decode(Part(name, k))
    ensures |Join(parts, n)| == 13 * n
    ensures c < 13 * n ==> Join(parts, n)[c] == SeenAt(name, c)
  {
    hide Decode, Part;
    if n > 0 { JoinAt(parts, name, n - 1, c); }
  }

  lemma {:induction false} NulEnds(us: seq<Unit>, m: nat)
    requires m <= |us| && (m < |us| ==> us[m] == 0)
    requires forall c :: 0 <= c < m ==> us[c] != 0
    ensures UpToNul(us) == us[..m]
  {
    if m > 0 { NulEnds(us[1..], m - 1); }
  }

  lemma SeenZero(name: seq<Unit>, c: nat)
    requires forall k :: 0 <= k < |name| ==> name[k] != 0
    ensures c < |name| ==> SeenAt(name, c) != 0
    ensures c == |name| ==> SeenAt(name, c) == 0
  {
    hide Part, Decode;
    UnitOfPart(name, c);
    DecodeAt(Part(name, PartOf(c)), IndexOf(c));
  }

  // The parts of a name, joined and cut at the terminator, are the name as seen part by part.
  lemma AssembledIsSeen(parts: map<nat, seq<Unit>>, name: seq<Unit>)
    requires forall k :: k in parts <==> 1 <= k <= Parts(name)
    requires forall k :: 1 <= k <= Parts(name) ==> parts[k] == Decode(Part(name, k))
    requires forall c :: 0 <= c < |name| ==> name[c] != 0
    ensures |parts| == Parts(name) && parts.Keys == Upto(|parts|)
    ensures Assembled(parts) == Seen(name, |name|)
  {
    hide Decode, Part, Join, UpToNul, SeenAt, Seen;
    var n := Parts(name);
    assert parts.Keys == Upto(n);
    assert |parts| == |parts.Keys|;
    var us := Join(parts, n);
    JoinAt(parts, name, n, 0);
    forall c | 0 <= c < 13 * n ensures us[c] == SeenAt(name, c) {
      JoinAt(parts, name, n, c);
    }
    forall c | 0 <= c < |name| ensures us[c] != 0 {
      SeenZero(name, c);
    }
    if |name| < |us| { SeenZero(name, |name|); }
    NulEnds(us, |name|);
    assert us[..|name|] == Seen(name, |name|);
  }

  lemma ShortSlotReads(p: Pending, slot: seq<Byte>, name: seq<Unit>, alias: seq<Byte>, first: nat, size: nat)
    requires Holds(p, name, 0, Parts(name), Checksum(alias)) && |name| > 0
    requires forall c :: 0 <= c < |name| ==> name[c] != 0
    requires IsShortSlot(slot, alias, first, size) && alias[0] != 0 && alias[0] != 0xE5
    requires first < 0x10000 && size < 0x1_0000_0000
    ensures ReadSlot(p, slot) == (NOTHING, [Entry(Seen(name, |name|), first, size)])
  {
    hide EntryName, Le2, Le4, Seen, Checksum, Decode, Part, Complete, IsShortSlot, Holds;
    ShortDecodes(slot, alias, first, size);
    NameOfEntry(p, slot, name, alias);
  }

  lemma ShortDecodes(slot: seq<Byte>, alias: seq<Byte>, first: nat, size: nat)
    requires IsShortSlot(slot, alias, first, size) && first < 0x10000 && size < 0x1_0000_0000
    ensures |slot| == 32 && slot[..11] == alias && slot[0] == alias[0] && slot[11] == 0x20
    ensures Le2(slot[26], slot[27]) == first && Le4(slot[28], slot[29], slot[30], slot[31]) == size
  {
    hide Le2, Le4;
    TwoBytes(first);
    FourBytes(size);
  }

  lemma NameOfEntry(p: Pending, slot: seq<Byte>, name: seq<Unit>, alias: seq<Byte>)
    requires Holds(p, name, 0, Parts(name), Checksum(alias)) && |name| > 0
    requires forall c :: 0 <= c < |name| ==> name[c] != 0
    requires |slot| == 32 && slot[..11] == alias
    ensures EntryName(p, slot) == Seen(name, |name|)
  {
    hide Assembled, Seen, Checksum, Decode, Part;
    AssembledIsSeen(p.parts, name);
    assert slot[0..11] == alias;
    assert |p.parts| > 0;
  }

  lemma TwoBytes(x: nat)
    requires x < 0x10000
    ensures Le2(x % 256, x / 256 % 256) == x
  {}

  lemma FourBytes(x: nat)
    requires x < 0x1_0000_0000
    ensures Le4(x % 256, x / 256 % 256, x / 65536 % 256, x / 16777216 % 256) == x
  {
    var a := x / 256;
    var b := a / 256;
    assert x / 65536 == b && x / 16777216 == b / 256 && b / 256 < 256;
  }

  // One file's slots give one entry: the name as seen, its first cluster and its size.
  lemma FileReads(dir: seq<Byte>, s: nat, name: seq<Unit>, alias: seq<Byte>, first: nat, size: nat)
    requires FileAt(dir, s, name, alias, first, size) && 0 < |name| <= MAX_CHARS
    requires forall c :: 0 <= c < |name| ==> name[c] != 0
    requires alias[0] != 0 && alias[0] != 0xE5 && first < 0x10000 && size < 0x1_0000_0000
    ensures ReadFrom(dir, s, NOTHING)
            == [Entry(Seen(name, |name|), first, size)] + ReadFrom(dir, s + Parts(name) + 1, NOTHING)
  {
    hide Checksum, Decode, Part, ReadSlot, Seen, IsLongSlot, SlotOf;
    var n := Parts(name);
    assert Holds(NOTHING, name, n, n, Checksum(alias));
    var p := LongSlotsRead(dir, s, name, n, n, Checksum(alias), NOTHING);
    ShortSlotReads(p, SlotOf(dir, s + n), name, alias, first, size);
  }

  // ---- The whole directory

  // Slots used by the first f files.
  function Base(f: nat, n: nat): nat { if f == 0 then 0 else Base(f - 1, n) + n + 1 }

  // What the directory has to describe: one long name for all files, and per file its alias,
  // first cluster and size.
  datatype Names = Names(long: seq<Unit>, aliases: seq<seq<Byte>>, firsts: seq<nat>, sizes: seq<nat>)

  predicate Describable(x: Names)
  {
    && 0 < |x.long| <= MAX_CHARS && (forall c :: 0 <= c < |x.long| ==> x.long[c] != 0)
    && |x.aliases| == |x.firsts| == |x.sizes|
    && (forall f :: 0 <= f < |x.aliases| ==>
          |x.aliases[f]| == 11 && x.aliases[f][0] != 0 && x.aliases[f][0] != 0xE5)
    && (forall f :: 0 <= f < |x.sizes| ==> x.sizes[f] < 0x1_0000_0000)
    && (forall f :: 0 <= f < |x.firsts| ==> x.firsts[f] < 0x10000)
  }

  // The file's own slots, from its place on.
  ghost predicate Describes(dir: seq<Byte>, x: Names, f: nat)
    requires f < |x.aliases| == |x.firsts| == |x.sizes|
  {
    FileAt(dir, Base(f, Parts(x.long)), x.long, x.aliases[f], x.firsts[f], x.sizes[f])
  }

  ghost predicate IsDirectory(dir: seq<Byte>, x: Names)
    requires |x.aliases| == |x.firsts| == |x.sizes|
  {
    && |dir| % 32 == 0
    && (forall f :: 0 <= f < |x.aliases| ==> Describes(dir, x, f))
    && forall b :: Base(|x.aliases|, Parts(x.long)) * 32 <= b < |dir| ==> dir[b] == 0
  }

  function EntryFor(x: Names, f: nat): Entry
    requires f < |x.firsts| == |x.sizes|
  {
    Entry(Seen(x.long, |x.long|), x.firsts[f], x.sizes[f])
  }

  // The entries the reader should find for the last m files.
  function Expected(x: Names, m: nat): (es: seq<Entry>)
    requires m <= |x.firsts| == |x.sizes|
    ensures |es| == m
  {
    if m == 0 then [] else [EntryFor(x, |x.sizes| - m)] + Expected(x, m - 1)
  }

  lemma {:induction false} ExpectedAt(x: Names, m: nat, f: nat)
    requires m <= |x.firsts| == |x.sizes| && |x.sizes| - m <= f < |x.sizes|
    ensures Expected(x, m)[f - (|x.sizes| - m)] == EntryFor(x, f)
  {
    hide EntryFor;
    if f > |x.sizes| - m { ExpectedAt(x, m - 1, f); }
  }

  lemma {:induction false} FreeSlotsRead(dir: seq<Byte>, s: nat)
    requires forall b :: s * 32 <= b < |dir| ==> dir[b] == 0
    ensures ReadFrom(dir, s, NOTHING) == []
    decreases |dir| - s * 32
  {
    if (s + 1) * 32 <= |dir| {
      assert SlotOf(dir, s)[0] == dir[s * 32] == 0;
      FreeSlotsRead(dir, s + 1);
    }
  }

  lemma {:induction false} FilesRead(dir: seq<Byte>, x: Names, m: nat)
    requires Describable(x) && m <= |x.sizes| && IsDirectory(dir, x)
    ensures ReadFrom(dir, Base(|x.sizes| - m, Parts(x.long)), NOTHING) == Expected(x, m)
  {
    hide Parts, FileAt, Seen, ReadFrom;
    var n := Parts(x.long);
    if m == 0 {
      FreeSlotsRead(dir, Base(|x.sizes|, n));
    } else {
      var f := |x.sizes| - m;
      FilesRead(dir, x, m - 1);
      assert Describes(dir, x, f);
      FileReads(dir, Base(f, n), x.long, x.aliases[f], x.firsts[f], x.sizes[f]);
    }
  }

  // The reader finds every file, with its first cluster and size, and under the long name: the
  // very name given exactly when its surrogates are paired within the parts.
  lemma DirectoryRoundTrip(dir: seq<Byte>, x: Names, f: nat)
    requires Describable(x) && IsDirectory(dir, x) && f < |x.sizes|
    ensures var es := ReadFrom(dir, 0, NOTHING);
            && |es| == |x.sizes|
            && es[f].first == x.firsts[f] && es[f].size == x.sizes[f]
            && (es[f].name == x.long <==> PairedInParts(x.long))
  {
    hide PairedInParts, IsDirectory, Seen, ReadFrom, Describable;
    Counts(x);
    FilesRead(dir, x, |x.sizes|);
    ExpectedAt(x, |x.sizes|, f);
    SeenIsName(x.long);
  }

  lemma Counts(x: Names)
    requires Describable(x)
    ensures |x.aliases| == |x.firsts| == |x.sizes|
  {}
}
