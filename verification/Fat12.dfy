// The volume's fixed structures: geometry, allocation table and boot sector, and the reader
// that has to make sense of them.
module Fat12 {
  import opened Bytes
  import Memory

  const SECTOR: nat := 512
  const END_OF_CHAIN: nat := 0xFF8
  const FAT12_LIMIT: nat := 4085
  const WALK_LIMIT: nat := 65525

  // ---- Geometry

  datatype Geometry = Geometry(files: nat, clusters: nat, spc: nat, rootEntries: nat)

  // What the build demands of its constants.
  predicate Sound(g: Geometry)
  {
    && g.files > 0 && g.clusters > 0
    && g.spc in {1, 2, 4, 8, 16, 32, 64}
    && 0 < g.rootEntries < 0x10000 && g.rootEntries % 16 == 0 && g.files <= g.rootEntries
    && g.files * g.clusters + 2 < FAT12_LIMIT
  }

  function Entries(g: Geometry): nat { g.files * g.clusters + 2 }
  function FatBytes(g: Geometry): nat { (Entries(g) * 3 + 1) / 2 }
  function FatSectors(g: Geometry): nat { (FatBytes(g) + SECTOR - 1) / SECTOR }
  function RootSectors(g: Geometry): nat { g.rootEntries * 32 / SECTOR }
  function FirstDataLba(g: Geometry): nat { 1 + 2 * FatSectors(g) + RootSectors(g) }
  function TotalSectors(g: Geometry): nat { FirstDataLba(g) + g.files * g.clusters * g.spc }
  function FirstCluster(g: Geometry, f: nat): nat { 2 + f * g.clusters }
  function FileSize(g: Geometry): (n: nat)
    ensures Sound(g) ==> n > 0
  {
    g.clusters * (g.spc * SECTOR)
  }

  // ---- The allocation table

  // Two twelve-bit entries in three bytes.
  function Low(e0: nat): Byte { e0 % 256 }
  function Middle(e0: nat, e1: nat): Byte { e0 / 256 % 16 + e1 % 16 * 16 }
  function High(e1: nat): Byte { e1 / 16 % 256 }

  function EvenEntry(b0: Byte, b1: Byte): nat { b0 + b1 % 16 * 256 }
  function OddEntry(b1: Byte, b2: Byte): nat { b1 / 16 + b2 * 16 }

  lemma PairRoundTrip(e0: nat, e1: nat)
    ensures EvenEntry(Low(e0), Middle(e0, e1)) == e0 % 4096
    ensures OddEntry(Middle(e0, e1), High(e1)) == e1 % 4096
  {
    TwoNibbles(e0 / 256 % 16, e1 % 16);
    LowTwelve(e0);
    HighTwelve(e1);
  }

  lemma TwoNibbles(low: nat, high: nat)
    requires low < 16 && high < 16
    ensures (low + high * 16) % 16 == low && (low + high * 16) / 16 == high
  {}

  lemma LowTwelve(e: nat)
    ensures e % 4096 == e % 256 + e / 256 % 16 * 256
  {}

  lemma HighTwelve(e: nat)
    ensures e % 4096 == e % 16 + e / 16 % 256 * 16
  {}

  // A missing partner counts as zero.
  function Partner(entries: seq<nat>): nat { if |entries| > 1 then entries[1] else 0 }

  function Triple(entries: seq<nat>): (t: seq<Byte>)
    requires |entries| > 0
    ensures |t| == 3
  {
    [Low(entries[0]), Middle(entries[0], Partner(entries)), High(Partner(entries))]
  }

  function Tail(entries: seq<nat>): seq<nat> { if |entries| > 2 then entries[2..] else [] }

  function PackedSize(n: nat): nat { (n + 1) / 2 * 3 }

  function Packed(entries: seq<nat>): (bytes: seq<Byte>)
    ensures |bytes| == PackedSize(|entries|)
    decreases |entries|
  {
    if |entries| == 0 then [] else Triple(entries) + Packed(Tail(entries))
  }

  method PackEntries(entries: array<nat>, bytes: array<Byte>)
    requires bytes.Length >= PackedSize(entries.Length)
    modifies bytes
    ensures bytes[..] == Packed(entries[..]) + old(bytes[..])[PackedSize(entries.Length)..]
  {
    hide Low, Middle, High, Packed, From, PackedSize;
    var n := entries.Length;
    ghost var was := bytes[..];
    var i, oi := 0, 0;
    ghost var k := 0;
    WholeFrom(entries[..]);
    assert bytes[..0] + Packed(entries[..]) == Packed(entries[..]);
    while i < n
      invariant 0 <= k && i == 2 * k && oi == 3 * k && i <= n + 1 && oi <= bytes.Length
      invariant bytes[..oi] + Packed(From(entries[..], i)) == Packed(entries[..])
      invariant bytes[oi..] == was[oi..]
    {
      TripleFits(n, k);
      var e0 := entries[i];
      var e1 := if i + 1 < n then entries[i + 1] else 0;
      PackStep(entries[..], i, bytes[..oi]);
      Put(bytes, oi, Low(e0), Middle(e0, e1), High(e1));
      i, oi, k := i + 2, oi + 3, k + 1;
    }
    TriplesEnd(n, k);
    NothingFrom(entries[..], i);
    assert bytes[..] == bytes[..oi] + bytes[oi..];
  }

  lemma TripleFits(n: nat, k: nat)
    requires 2 * k < n
    ensures 3 * k + 3 <= PackedSize(n)
  {}

  lemma TriplesEnd(n: nat, k: nat)
    requires n <= 2 * k <= n + 1
    ensures 3 * k == PackedSize(n)
  {}

  lemma WholeFrom(entries: seq<nat>)
    ensures From(entries, 0) == entries
  {}

  lemma NothingFrom(entries: seq<nat>, i: nat)
    requires i >= |entries|
    ensures Packed(From(entries, i)) == []
  {}

  method Put(bytes: array<Byte>, at: nat, b0: Byte, b1: Byte, b2: Byte)
    requires at + 3 <= bytes.Length
    modifies bytes
    ensures bytes[..at + 3] == old(bytes[..at]) + [b0, b1, b2]
    ensures bytes[at + 3..] == old(bytes[at + 3..])
  {
    bytes[at], bytes[at + 1], bytes[at + 2] := b0, b1, b2;
  }

  lemma PackStep(entries: seq<nat>, i: nat, done: seq<Byte>)
    requires i < |entries|
    ensures var e1 := if i + 1 < |entries| then entries[i + 1] else 0;
            done + Packed(From(entries, i))
            == done + [Low(entries[i]), Middle(entries[i], e1), High(e1)] + Packed(From(entries, i + 2))
  {
    hide Low, Middle, High;
    var left := From(entries, i);
    assert From(entries, i + 2) == Tail(left);
    assert done + (Triple(left) + Packed(Tail(left))) == done + Triple(left) + Packed(Tail(left));
  }

  function From(entries: seq<nat>, i: nat): seq<nat> { if i < |entries| then entries[i..] else [] }

  // The reader's view of one entry; reading past the table is an error.
  function EntryAt(fat: seq<Byte>, cluster: nat): (e: Option<nat>)
  {
    var offset := cluster + cluster / 2;
    if offset + 1 >= |fat| then None
    else if cluster % 2 == 0 then Some(EvenEntry(fat[offset], fat[offset + 1]))
    else Some(OddEntry(fat[offset], fat[offset + 1]))
  }

  // Every packed entry is read back, whatever follows the table.
  lemma {:induction false} EntryRoundTrip(entries: seq<nat>, rest: seq<Byte>, c: nat)
    requires c < |entries|
    ensures EntryAt(Packed(entries) + rest, c) == Some(entries[c] % 4096)
  {
    hide Low, Middle, High, EvenEntry, OddEntry;
    var fat := Packed(entries) + rest;
    assert fat[0] == Low(entries[0]) && fat[1] == Middle(entries[0], Partner(entries));
    assert fat[2] == High(Partner(entries));
    if c >= 2 {
      EntryRoundTrip(Tail(entries), rest, c - 2);
      assert fat[3..] == Packed(Tail(entries)) + rest;
      Deeper(fat, c);
    } else {
      PairRoundTrip(entries[0], Partner(entries));
    }
  }

  lemma Deeper(fat: seq<Byte>, c: nat)
    requires c >= 2 && |fat| >= 3
    ensures EntryAt(fat, c) == EntryAt(fat[3..], c - 2)
  {
    hide EvenEntry, OddEntry;
    assert (c - 2) + (c - 2) / 2 + 3 == c + c / 2 && (c - 2) % 2 == c % 2;
  }

  // The entry of cluster c: each file's clusters form one chain in ascending order.
  function Link(c: nat, clusters: nat): nat
    requires clusters > 0
  {
    if c == 0 then 0xFF8 else if c == 1 then 0xFFF
    else if (c - 2) % clusters + 1 < clusters then c + 1 else 0xFFF
  }

  function Links(g: Geometry): (entries: seq<nat>)
    requires Sound(g)
    ensures |entries| == Entries(g) && forall c :: 0 <= c < |entries| ==> entries[c] == Link(c, g.clusters)
  {
    seq(Entries(g), c requires 0 <= c => Link(c, g.clusters))
  }

  // The table as the disk serves it: the packed entries in whole sectors, padded with zeros.
  function Table(g: Geometry): (t: seq<Byte>)
    requires Sound(g)
    ensures |t| == FatSectors(g) * SECTOR
  {
    if PackingFits(g) then Packed(Links(g)) + Padding(g)
    else Packed(Links(g))[..FatSectors(g) * SECTOR]
  }

  function Padding(g: Geometry): (z: seq<Byte>)
    requires PackingFits(g)
    ensures |z| == FatSectors(g) * SECTOR - PackedSize(Entries(g))
    ensures forall i :: 0 <= i < |z| ==> z[i] == 0
  {
    ZeroBytes(FatSectors(g) * SECTOR - PackedSize(Entries(g)))
  }

  // The packer writes whole byte triples; the table is sized for the exact number of nibbles.
  predicate PackingFits(g: Geometry)
  {
    PackedSize(Entries(g)) <= FatSectors(g) * SECTOR
  }

  // The packer stays inside the table exactly when it does not have an odd number of entries
  // that fill its last sector to the last half byte.
  lemma PackingFitsExactly(g: Geometry)
    requires Sound(g)
    ensures PackingFits(g) <==> !(Entries(g) % 2 == 1 && FatBytes(g) % SECTOR == 0)
  {
    PackedAgainstTable(Entries(g), Entries(g) / 2);
    RoundedUp(FatBytes(g));
  }

  // Half a byte more than the table needs when the number of entries is odd.
  lemma PackedAgainstTable(n: nat, k: nat)
    requires k == n / 2
    ensures PackedSize(n) == (n * 3 + 1) / 2 + n % 2
  {
    if n % 2 == 0 { assert n == 2 * k; } else { assert n == 2 * k + 1; }
  }

  lemma RoundedUp(b: nat)
    ensures b <= (b + SECTOR - 1) / SECTOR * SECTOR
    ensures b + 1 <= (b + SECTOR - 1) / SECTOR * SECTOR <==> b % SECTOR != 0
  {}

  // Three files of 113 clusters: the packer writes one byte more than the table has.
  lemma PackingOverrun()
    ensures var g := Geometry(3, 113, 64, 64);
            Sound(g) && FatSectors(g) * SECTOR == 512 && |Packed(Links(g))| == 513
  {}

  // The byte too many is always zero.
  lemma {:induction false} LastByteZero(entries: seq<nat>)
    requires |entries| % 2 == 1
    ensures |Packed(entries)| > 0 && Packed(entries)[|Packed(entries)| - 1] == 0
  {
    if |entries| > 1 {
      LastByteZero(Tail(entries));
    } else {
      assert High(0) == 0;
    }
  }

  method BuildFat(g: Geometry, fat: array<Byte>)
    requires Sound(g) && PackingFits(g) && fat.Length == FatSectors(g) * SECTOR
    modifies fat
    ensures fat[..] == Table(g)
  {
    hide FatSectors, PackedSize, Packed, ZeroBytes;
    var entries := BuildLinks(g);
    assert entries[..] == Links(g);
    var k := 0;
    while k < fat.Length
      invariant 0 <= k <= fat.Length && entries[..] == Links(g)
      invariant forall j :: 0 <= j < k ==> fat[j] == 0
    {
      fat[k] := 0;
      k := k + 1;
    }
    assert fat[..][PackedSize(Entries(g))..] == Padding(g);
    assert entries[..] == Links(g);
    PackEntries(entries, fat);
  }

  method BuildLinks(g: Geometry) returns (entries: array<nat>)
    requires Sound(g)
    ensures fresh(entries) && entries[..] == Links(g)
  {
    var n := Entries(g);
    entries := new nat[n];
    entries[0], entries[1] := 0xFF8, 0xFFF;
    var f := 0;
    while f < g.files
      invariant 0 <= f <= g.files && 2 + f * g.clusters <= n
      invariant forall c :: 0 <= c < 2 + f * g.clusters ==> entries[c] == Link(c, g.clusters)
    {
      var start := 2 + f * g.clusters;
      Within(f, g.files, g.clusters);
      var i := 0;
      while i < g.clusters
        invariant 0 <= i <= g.clusters && start + i <= n
        invariant forall c :: 0 <= c < start + i ==> entries[c] == Link(c, g.clusters)
      {
        var c := start + i;
        DivModIs(c - 2, g.clusters, f, i);
        entries[c] := if i + 1 < g.clusters then c + 1 else 0xFFF;
        i := i + 1;
      }
      f := f + 1;
    }
  }

  lemma Within(f: nat, files: nat, clusters: nat)
    requires f < files
    ensures f * clusters + clusters == (f + 1) * clusters <= files * clusters
  {
    assert (f + 1) * clusters <= files * clusters;
  }

  lemma LinkRead(g: Geometry, c: nat)
    requires Sound(g) && c < Entries(g)
    ensures EntryAt(Table(g), c) == Some(Link(c, g.clusters))
  {
    hide EntryAt, Packed, PackedSize, FatSectors;
    var rest: seq<Byte> := if PackingFits(g) then Padding(g) else [];
    EntryRoundTrip(Links(g), rest, c);
    assert Link(c, g.clusters) < 4096;
    if !PackingFits(g) {
      assert Packed(Links(g)) + [] == Packed(Links(g));
      InsideTable(g, c);
      Truncated(Packed(Links(g)), FatSectors(g) * SECTOR, c);
    }
  }

  // The first two entries are the media mark and all ones.
  lemma FirstEntries(g: Geometry)
    requires Sound(g)
    ensures EntryAt(Table(g), 0) == Some(0xFF8) && EntryAt(Table(g), 1) == Some(0xFFF)
  {
    hide EntryAt, Table;
    LinkRead(g, 0);
    LinkRead(g, 1);
  }

  lemma InsideTable(g: Geometry, c: nat)
    requires c < Entries(g)
    ensures c + c / 2 + 1 < FatSectors(g) * SECTOR
  {
    assert c + c / 2 + 1 < FatBytes(g);
  }

  lemma Truncated(fat: seq<Byte>, n: nat, c: nat)
    requires c + c / 2 + 1 < n <= |fat|
    ensures EntryAt(fat[..n], c) == EntryAt(fat, c)
  {}

  // ---- Following a chain

  function Prepend(done: seq<nat>, rest: Option<seq<nat>>): Option<seq<nat>>
  {
    if rest == None then None else Some(done + rest.value)
  }

  // The clusters from c on, until an end mark; the walk gives up after `budget` clusters, and
  // fails on a cluster outside the table.
  function Walk(fat: seq<Byte>, c: nat, budget: nat): Option<seq<nat>>
    decreases budget
  {
    if c >= END_OF_CHAIN || budget == 0 then Some([])
    else if EntryAt(fat, c) == None then None
    else Prepend([c], Walk(fat, EntryAt(fat, c).value, budget - 1))
  }

  method WalkChain(fat: seq<Byte>, first: nat) returns (chain: Option<seq<nat>>)
    ensures chain == Walk(fat, first, WALK_LIMIT)
  {
    hide EntryAt;
    var clusters: seq<nat>, c: nat := [], first;
    ghost var budget: nat := WALK_LIMIT;
    assert forall s: seq<nat> :: [] + s == s;
    while c < END_OF_CHAIN && |clusters| <= 65524
      invariant |clusters| + budget == WALK_LIMIT
      invariant Walk(fat, first, WALK_LIMIT) == Prepend(clusters, Walk(fat, c, budget))
      decreases budget
    {
      var next := EntryAt(fat, c);
      if next == None { return None; }
      PrependTwice(clusters, [c], Walk(fat, next.value, budget - 1));
      clusters := clusters + [c];
      c := next.value;
      budget := budget - 1;
    }
    assert clusters + [] == clusters;
    return Some(clusters);
  }

  lemma PrependTwice(a: seq<nat>, b: seq<nat>, rest: Option<seq<nat>>)
    ensures Prepend(a, Prepend(b, rest)) == Prepend(a + b, rest)
  {
    if rest != None { assert a + (b + rest.value) == a + b + rest.value; }
  }

  function Run(from: nat, n: nat): (s: seq<nat>)
    ensures |s| == n && forall i :: 0 <= i < n ==> s[i] == from + i
    decreases n
  {
    if n == 0 then [] else Run(from, n - 1) + [from + n - 1]
  }

  lemma FileLink(g: Geometry, f: nat, i: nat)
    requires Sound(g) && f < g.files && i < g.clusters
    ensures var c := 2 + f * g.clusters + i;
            && c < END_OF_CHAIN
            && EntryAt(Table(g), c) == Some(if i + 1 < g.clusters then c + 1 else 0xFFF)
  {
    hide Table, EntryAt;
    Within(f, g.files, g.clusters);
    LinkRead(g, 2 + f * g.clusters + i);
    DivModIs(f * g.clusters + i, g.clusters, f, i);
  }

  // File f's chain, from its i-th cluster on.
  lemma {:induction false} WalkFrom(g: Geometry, f: nat, i: nat, budget: nat)
    requires Sound(g) && f < g.files && i < g.clusters && budget >= g.clusters - i
    ensures Walk(Table(g), 2 + f * g.clusters + i, budget)
            == Some(Run(2 + f * g.clusters + i, g.clusters - i))
    decreases g.clusters - i
  {
    hide Table, EntryAt, Sound;
    var c := 2 + f * g.clusters + i;
    FileLink(g, f, i);
    if i + 1 < g.clusters {
      WalkFrom(g, f, i + 1, budget - 1);
    }
    assert [c] + Run(c + 1, g.clusters - i - 1) == Run(c, g.clusters - i);
  }

  // The reader's chain of file f is its own clusters, in order, and nothing else.
  lemma FileChain(g: Geometry, f: nat)
    requires Sound(g) && f < g.files
    ensures Walk(Table(g), 2 + f * g.clusters, WALK_LIMIT) == Some(Run(2 + f * g.clusters, g.clusters))
  {
    hide Walk, Table;
    assert g.clusters < WALK_LIMIT by { Within(0, g.files, g.clusters); }
    WalkFrom(g, f, 0, WALK_LIMIT);
  }

  // ---- The boot sector

  // Octet k of a number, the lowest first.
  function Octet(x: nat, k: nat): Byte
  {
    if k == 0 then x % 256
    else if k == 1 then x / 256 % 256
    else if k == 2 then x / 256 / 256 % 256
    else x / 256 / 256 / 256 % 256
  }

  lemma Le2Octets(x: nat)
    requires x < 0x10000
    ensures Le2(Octet(x, 0), Octet(x, 1)) == x
  {}

  lemma Le4Octets(x: nat)
    requires x < 0x1_0000_0000
    ensures Le4(Octet(x, 0), Octet(x, 1), Octet(x, 2), Octet(x, 3)) == x
  {
    var a := x / 256;
    var b := a / 256;
    var c := b / 256;
    assert c < 256;
    assert x == x % 256 + 256 * a && a == a % 256 + 256 * b && b == b % 256 + 256 * c;
    assert Octet(x, 1) == a % 256 && Octet(x, 2) == b % 256 && Octet(x, 3) == c;
  }

  // The sector count goes in the 16-bit field when it fits, in the 32-bit one otherwise.
  function Total16(g: Geometry): nat { if TotalSectors(g) < 0x10000 then TotalSectors(g) else 0 }
  function Total32(g: Geometry): nat { if Total16(g) == 0 then TotalSectors(g) else 0 }

  function Copies(fats: nat, fatSectors: nat): nat { fats * fatSectors }

  // What the host reads out of a boot sector.
  datatype Layout = Layout(spc: nat, reserved: nat, fats: nat, rootEntries: nat, fatSectors: nat,
                           rootLba: nat, rootSectors: nat, dataLba: nat, fat12: bool, serial: nat)

  // A sector of the wrong size is refused.
  function ParseBoot(bs: seq<Byte>): Option<Layout>
    requires |bs| == SECTOR
  {
    var bytesPerSector := Le2(bs[11], bs[12]);
    if bytesPerSector != SECTOR then None
    else
      var spc, reserved, fats, rootEntries := bs[13], Le2(bs[14], bs[15]), bs[16], Le2(bs[17], bs[18]);
      var total16, fatSectors, total32 := Le2(bs[19], bs[20]), Le2(bs[22], bs[23]), Le4(bs[32], bs[33], bs[34], bs[35]);
      var rootLba := reserved + Copies(fats, fatSectors);
      var rootSectors := (rootEntries * 32 + bytesPerSector - 1) / bytesPerSector;
      var dataLba := rootLba + rootSectors;
      var total := if total16 != 0 then total16 else total32;
      var dataClusters := if spc != 0 then FloorDiv(total - dataLba, spc) else 0;
      Some(Layout(spc, reserved, fats, rootEntries, fatSectors, rootLba, rootSectors, dataLba,
                  dataClusters < FAT12_LIMIT, Le4(bs[39], bs[40], bs[41], bs[42])))
  }

  // Division that rounds down, for a divisor above zero.
  function FloorDiv(a: int, b: int): int
    requires b > 0
  {
    a / b
  }

  const OEM_NAME: seq<Byte> := [66, 79, 65, 82, 68, 83, 73, 77]
  const LABEL: seq<Byte> := [66, 79, 65, 82, 68, 83, 73, 77, 32, 32, 32]
  const TYPE_NAME: seq<Byte> := [70, 65, 84, 49, 50, 32, 32, 32]

  method BuildBootSector(g: Geometry, serial: nat, bs: array<Byte>)
    requires Sound(g) && serial < 0x1_0000_0000 && bs.Length == SECTOR
    modifies bs
    ensures HoldsFields(bs[..], g, serial)
    ensures bs[510] == 0x55 && bs[511] == 0xAA && bs[0] == 0xEB && bs[21] == 0xF8
    ensures bs[3..11] == OEM_NAME && bs[43..54] == LABEL && bs[54..62] == TYPE_NAME
  {
    hide Octet, TotalSectors, FatSectors, Total16, Total32, HoldsFields;
    var k := 0;
    while k < 512
      invariant 0 <= k <= 512
    {
      bs[k] := 0;
      k := k + 1;
    }
    PutNumbers(g, serial, bs);
    PutNames(g, serial, bs);
  }

  method PutNames(g: Geometry, serial: nat, bs: array<Byte>)
    requires bs.Length == SECTOR && HoldsFields(bs[..], g, serial) && bs[21] == 0xF8
    modifies bs
    ensures HoldsFields(bs[..], g, serial)
    ensures bs[510] == 0x55 && bs[511] == 0xAA && bs[0] == 0xEB && bs[21] == 0xF8
    ensures bs[3..11] == OEM_NAME && bs[43..54] == LABEL && bs[54..62] == TYPE_NAME
  {
    hide HoldsFields;
    ghost var was := bs[..];
    bs[0], bs[1], bs[2] := 0xEB, 0x3C, 0x90;
    Memory.Store(bs, 3, OEM_NAME);
    Memory.Store(bs, 43, LABEL);
    Memory.Store(bs, 54, TYPE_NAME);
    bs[510], bs[511] := 0x55, 0xAA;
    assert bs[3..11] == OEM_NAME;
    assert bs[43..54] == LABEL;
    assert bs[54..62] == TYPE_NAME;
    assert forall i :: 11 <= i < 43 ==> bs[..][i] == was[i];
    FieldsKept(was, bs[..], g, serial);
  }

  lemma FieldsKept(bs: seq<Byte>, bs': seq<Byte>, g: Geometry, serial: nat)
    requires |bs| == |bs'| == SECTOR && HoldsFields(bs, g, serial)
    requires forall i :: 11 <= i < 43 ==> bs'[i] == bs[i]
    ensures HoldsFields(bs', g, serial)
  {
    hide Octet, Total16, Total32, FatSectors;
  }

  method PutNumbers(g: Geometry, serial: nat, bs: array<Byte>)
    requires Sound(g) && serial < 0x1_0000_0000 && bs.Length == SECTOR
    modifies bs
    ensures HoldsFields(bs[..], g, serial) && bs[21] == 0xF8
  {
    hide Octet, TotalSectors, FatSectors, Le2Bytes, Le4Bytes;
    assert 0 < g.spc < 256;
    var total16 := if TotalSectors(g) < 0x10000 then TotalSectors(g) else 0;
    var total32 := if total16 == 0 then TotalSectors(g) else 0;
    Memory.Store(bs, 11, Le2Bytes(SECTOR));
    Memory.Store(bs, 13, [g.spc, 1, 0, 2]);
    Memory.Store(bs, 17, Le2Bytes(g.rootEntries));
    Memory.Store(bs, 19, Le2Bytes(total16));
    bs[21] := 0xF8;
    Memory.Store(bs, 22, Le2Bytes(FatSectors(g)));
    Memory.Store(bs, 24, [32, 0, 64, 0]);
    Memory.Store(bs, 32, Le4Bytes(total32));
    bs[36], bs[38] := 0x80, 0x29;
    Memory.Store(bs, 39, Le4Bytes(serial));
  }

  function Le2Bytes(x: nat): (s: seq<Byte>)
    ensures |s| == 2 && s[0] == Octet(x, 0) && s[1] == Octet(x, 1)
  {
    [Octet(x, 0), Octet(x, 1)]
  }

  function Le4Bytes(x: nat): (s: seq<Byte>)
    ensures |s| == 4 && s[0] == Octet(x, 0) && s[1] == Octet(x, 1) && s[2] == Octet(x, 2) && s[3] == Octet(x, 3)
  {
    [Octet(x, 0), Octet(x, 1), Octet(x, 2), Octet(x, 3)]
  }

  // Every number the host needs is in its place, low byte first.
  ghost predicate HoldsFields(bs: seq<Byte>, g: Geometry, serial: nat)
  {
    && |bs| == SECTOR
    && bs[11] == Octet(SECTOR, 0) && bs[12] == Octet(SECTOR, 1)
    && bs[13] == g.spc && bs[14] == 1 && bs[15] == 0 && bs[16] == 2
    && bs[17] == Octet(g.rootEntries, 0) && bs[18] == Octet(g.rootEntries, 1)
    && bs[19] == Octet(Total16(g), 0) && bs[20] == Octet(Total16(g), 1)
    && bs[22] == Octet(FatSectors(g), 0) && bs[23] == Octet(FatSectors(g), 1)
    && bs[32] == Octet(Total32(g), 0) && bs[33] == Octet(Total32(g), 1)
    && bs[34] == Octet(Total32(g), 2) && bs[35] == Octet(Total32(g), 3)
    && bs[39] == Octet(serial, 0) && bs[40] == Octet(serial, 1)
    && bs[41] == Octet(serial, 2) && bs[42] == Octet(serial, 3)
  }

  lemma SizesFit(g: Geometry)
    requires Sound(g)
    ensures 0 < TotalSectors(g) < 0x1_0000_0000 && FatSectors(g) < 0x10000
    ensures (g.rootEntries * 32 + SECTOR - 1) / SECTOR == RootSectors(g)
    ensures (g.files * g.clusters * g.spc) / g.spc == g.files * g.clusters
  {
    var n := g.files * g.clusters;
    assert n * g.spc <= n * 64 <= 4083 * 64;
    DivModIs(n * g.spc, g.spc, n, 0);
    assert FatBytes(g) <= 6126;
    var k := g.rootEntries / 16;
    assert g.rootEntries * 32 == k * SECTOR;
    DivModIs(g.rootEntries * 32, SECTOR, k, 0);
    DivModIs(g.rootEntries * 32 + SECTOR - 1, SECTOR, k, SECTOR - 1);
  }

  // The host recovers the geometry, takes the volume for FAT12 and finds the data area.
  lemma BootRoundTrip(bs: seq<Byte>, g: Geometry, serial: nat)
    requires Sound(g) && serial < 0x1_0000_0000 && HoldsFields(bs, g, serial)
    ensures ParseBoot(bs)
            == Some(Layout(g.spc, 1, 2, g.rootEntries, FatSectors(g), 1 + 2 * FatSectors(g), RootSectors(g),
                           FirstDataLba(g), true, serial))
  {
    hide Octet, FatSectors, Le2, Le4, Sound;
    assert Copies(2, FatSectors(g)) == 2 * FatSectors(g);
    assert g.spc > 0 && g.rootEntries < 0x10000 && g.files * g.clusters < FAT12_LIMIT by { SoundSizes(g); }
    SizesFit(g);
    Le2Octets(SECTOR);
    Le2Octets(g.rootEntries);
    Le2Octets(FatSectors(g));
    Le2Octets(Total16(g));
    Le4Octets(Total32(g));
    Le4Octets(serial);
    assert Le2(1, 0) == 1 by { OneLe(); }
  }

  lemma SoundSizes(g: Geometry)
    requires Sound(g)
    ensures g.spc > 0 && g.rootEntries < 0x10000 && g.files * g.clusters < FAT12_LIMIT
  {}

  lemma OneLe()
    ensures Le2(1, 0) == 1
  {}

  // The sector count is in the sixteen-bit field if and only if it fits there, and in the
  // thirty-two-bit field otherwise.
  lemma CountsLook(bs: seq<Byte>, g: Geometry, serial: nat)
    requires Sound(g) && serial < 0x1_0000_0000 && HoldsFields(bs, g, serial)
    ensures var sectors := 1 + 2 * FatSectors(g) + g.rootEntries * 32 / 512 + g.files * g.clusters * g.spc;
            && Le2(bs[19], bs[20]) == (if sectors < 0x10000 then sectors else 0)
            && Le4(bs[32], bs[33], bs[34], bs[35]) == (if sectors < 0x10000 then 0 else sectors)
  {
    hide Octet, FatSectors, Le2, Le4, Sound;
    SizesFit(g);
    Le2Octets(Total16(g));
    Le4Octets(Total32(g));
  }
}
