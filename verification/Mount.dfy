// The host's side: it knows nothing of the volume but what the disk's own reads return.
module Mount {
  import opened Bytes
  import opened Fat12
  import opened DiskImage
  import VfatDirectory

  // The byte at position p of a disk: sector 0 is the boot sector, two copies of the table
  // follow, then the root directory.
  ghost predicate ByteAt(boot: seq<Byte>, fat: seq<Byte>, root: seq<Byte>, p: nat, b: Byte)
  {
    var n := |fat|;
    && (p < 512 ==> p < |boot| && b == boot[p])
    && (512 <= p < 512 + n ==> b == fat[p - 512])
    && (512 + n <= p < 512 + n + n ==> b == fat[p - 512 - n])
    && (512 + n + n <= p < 512 + n + n + |root| ==> b == root[p - 512 - n - n])
  }

  lemma MetadataIs(g: Geometry, boot: seq<Byte>, fat: seq<Byte>, root: seq<Byte>, p: nat)
    requires |boot| == SECTOR && |fat| == FatLength(g) && |root| == RootLength(g) && p < DataStart(g)
    ensures ByteAt(boot, fat, root, p, Metadata(g, boot, fat, root)[p])
  {
    hide FatLength, RootLength, DataStart;
  }

  // `count` sectors from `lba` on, in pieces of whatever sizes.
  method ReadSectors(disk: Disk, lba: nat, count: nat, cuts: seq<nat>) returns (got: seq<Byte>)
    requires disk.Valid()
    ensures |got| == count * 512
    ensures forall k :: 0 <= k < |got| && lba * 512 + k < DataStart(disk.g) ==>
              ByteAt(disk.boot[..], disk.fat[..], disk.root[..], lba * 512 + k, got[k])
  {
    hide Metadata, DataStart, FatLength, RootLength, Sound, ByteAt, Wanted, Asked, Placed, Lead;
    got := [];
    var i := 0;
    while |got| < count * 512
      invariant 0 <= i && |got| <= count * 512
      invariant forall k :: 0 <= k < |got| && lba * 512 + k < DataStart(disk.g) ==>
                  ByteAt(disk.boot[..], disk.fat[..], disk.root[..], lba * 512 + k, got[k])
      decreases count * 512 - |got|
    {
      var remaining := count * 512 - |got|;
      var n := if i < |cuts| && 0 < cuts[i] < remaining then cuts[i] else remaining;
      var piece := ReadPiece(disk, lba * 512 + |got|, n);
      got := got + piece;
      i := i + 1;
    }
  }

  method ReadPiece(disk: Disk, start: nat, n: nat) returns (got: seq<Byte>)
    requires disk.Valid()
    ensures |got| == n
    ensures forall k :: 0 <= k < n && start + k < DataStart(disk.g) ==>
              ByteAt(disk.boot[..], disk.fat[..], disk.root[..], start + k, got[k])
  {
    hide Metadata, DataStart, FatLength, RootLength, Sound, ByteAt, Wanted, Asked, Placed, Lead;
    var buffer := new Byte[n];
    var spans := disk.ReadAt(start, buffer);
    got := buffer[..];
    forall k | 0 <= k < n && start + k < DataStart(disk.g)
      ensures ByteAt(disk.boot[..], disk.fat[..], disk.root[..], start + k, got[k])
    {
      MetadataIs(disk.g, disk.boot[..], disk.fat[..], disk.root[..], start + k);
    }
  }

  // What a mount reads: sector 0, a copy of the table and the root directory, each where sector 0
  // says it is, each in pieces of whatever sizes. It gets exactly the disk's own.
  method ReadVolume(disk: Disk, ghost serial: nat, copy: nat, cuts: seq<nat>)
    returns (boot: seq<Byte>, fat: seq<Byte>, root: seq<Byte>)
    requires disk.Valid() && serial < 0x1_0000_0000 && HoldsFields(disk.boot[..], disk.g, serial) && copy < 2
    ensures boot == disk.boot[..] && fat == disk.fat[..] && root == disk.root[..]
  {
    hide DataStart, ByteAt, Sound, HoldsFields, ParseBoot, FatLength, RootLength, FatSectors, RootSectors, FirstDataLba;
    ghost var g := disk.g;
    Sizes(g);
    boot := ReadSectors(disk, 0, 1, cuts);
    BootBytes(g, disk.boot[..], disk.fat[..], disk.root[..], boot);
    BootRoundTrip(boot, g, serial);
    var layout := ParseBoot(boot).value;
    fat := ReadSectors(disk, layout.reserved + copy * layout.fatSectors, layout.fatSectors, cuts);
    TableBytes(g, disk.boot[..], disk.fat[..], disk.root[..], copy, fat);
    root := ReadSectors(disk, layout.rootLba, layout.rootSectors, cuts);
    RootBytes(g, disk.boot[..], disk.fat[..], disk.root[..], root);
  }

  lemma Sizes(g: Geometry)
    ensures FatLength(g) == FatSectors(g) * 512 && RootLength(g) == RootSectors(g) * 512
    ensures DataStart(g) == 512 + FatLength(g) + FatLength(g) + RootLength(g)
  {
    RegionsMeet(g);
  }

  lemma BootBytes(g: Geometry, boot: seq<Byte>, fat: seq<Byte>, root: seq<Byte>, got: seq<Byte>)
    requires |boot| == 512 == |got| && DataStart(g) >= 512
    requires forall k :: 0 <= k < |got| && 0 * 512 + k < DataStart(g) ==> ByteAt(boot, fat, root, 0 * 512 + k, got[k])
    ensures got == boot
  {
    hide DataStart;
    forall k | 0 <= k < 512 ensures got[k] == boot[k] { assert ByteAt(boot, fat, root, 0 * 512 + k, got[k]); }
  }

  lemma TableBytes(g: Geometry, boot: seq<Byte>, fat: seq<Byte>, root: seq<Byte>, copy: nat, got: seq<Byte>)
    requires copy < 2 && |fat| == FatLength(g) == |got|
    requires forall k :: 0 <= k < |got| && (1 + copy * FatSectors(g)) * 512 + k < DataStart(g) ==>
               ByteAt(boot, fat, root, (1 + copy * FatSectors(g)) * 512 + k, got[k])
    ensures got == fat
  {
    Sizes(g);
    hide DataStart, FatLength, FatSectors;
    assert (1 + copy * FatSectors(g)) * 512 == if copy == 0 then 512 else 512 + |fat|;
    forall k | 0 <= k < |got| ensures got[k] == fat[k] {
      assert ByteAt(boot, fat, root, (1 + copy * FatSectors(g)) * 512 + k, got[k]);
    }
  }

  lemma RootBytes(g: Geometry, boot: seq<Byte>, fat: seq<Byte>, root: seq<Byte>, got: seq<Byte>)
    requires |fat| == FatLength(g) && |root| == RootLength(g) == |got|
    requires forall k :: 0 <= k < |got| && (1 + 2 * FatSectors(g)) * 512 + k < DataStart(g) ==>
               ByteAt(boot, fat, root, (1 + 2 * FatSectors(g)) * 512 + k, got[k])
    ensures got == root
  {
    Sizes(g);
    hide DataStart, FatLength, FatSectors, RootLength;
    assert (1 + 2 * FatSectors(g)) * 512 == 512 + |fat| + |fat|;
    forall k | 0 <= k < |got| ensures got[k] == root[k] {
      assert ByteAt(boot, fat, root, (1 + 2 * FatSectors(g)) * 512 + k, got[k]);
    }
  }

  // From nothing but reads of the disk to the bytes of a file: the host mounts, looks the file up
  // in the root directory, follows its chain through either copy of the table and reads the sector
  // of offset o. The disk takes that read for exactly bytes o to o + 511 of that file.
  method ReadFile(disk: Disk, ghost serial: nat, ghost x: VfatDirectory.Names, f: nat, o: nat, copy: nat,
                  cuts: seq<nat>)
    returns (entry: VfatDirectory.Entry, spans: seq<Span>)
    requires disk.Valid() && serial < 0x1_0000_0000 && HoldsFields(disk.boot[..], disk.g, serial) && copy < 2
    requires disk.fat[..] == Table(disk.g)
    requires VfatDirectory.Describable(x) && VfatDirectory.IsDirectory(disk.root[..], x)
    requires f < |x.sizes| && f < disk.g.files && x.firsts[f] == FirstCluster(disk.g, f)
    requires o < FileSize(disk.g) && o % SECTOR == 0
    ensures entry.first == x.firsts[f] && entry.size == x.sizes[f]
    ensures entry.name == x.long <==> VfatDirectory.PairedInParts(x.long)
    ensures Asked(spans) == SpanPlaces(Span(f, o, 512, 0))
    ensures forall i, j :: 0 <= i < |spans| && 0 <= j < spans[i].n ==> Lands(spans[i], f, o, j)
  {
    hide DataStart, Sound, HoldsFields, ParseBoot, Table, Walk, FirstCluster, FileSize, Asked, Placed, Wanted,
         Metadata, HostFinds, Addresses, SectorOf;
    hide VfatDirectory.IsDirectory, VfatDirectory.Describable, VfatDirectory.ReadFrom, VfatDirectory.PairedInParts;
    ghost var g := disk.g;
    var boot, fat, root := ReadVolume(disk, serial, copy, cuts);
    assert |root| % 32 == 0 by { WholeSlots(g); }
    var entries := VfatDirectory.FindEntries(root);
    VfatDirectory.DirectoryRoundTrip(root, x, f);
    entry := entries[f];
    var chain := WalkChain(fat, entry.first);
    MountRoundTrip(g, boot, serial, f, o);
    Findable(g, boot, fat, entry.first, f, o);
    var lba := SectorOf(ParseBoot(boot).value, chain.value, o).value;
    var buffer := new Byte[SECTOR];
    spans := disk.ReadAt(lba * SECTOR, buffer);
    assert Lead(g, lba * SECTOR) == 0;
    forall i, j | 0 <= i < |spans| && 0 <= j < spans[i].n ensures Lands(spans[i], f, o, j) {
      SpanLands(g, spans, 0, i, j);
    }
  }

  // Byte j of the span goes where byte o + at + j of file f belongs: `at` + j bytes into the buffer.
  predicate Lands(s: Span, f: nat, o: nat, j: nat)
  {
    s.file == f && s.off + j == o + s.at + j && s.at + j < 512
  }

  lemma {:induction false} SpanLands(g: Geometry, spans: seq<Span>, from: nat, i: nat, j: nat)
    requires Placed(g, spans, from) && i < |spans| && j < spans[i].n
    ensures from <= spans[i].at && spans[i].at - from + j < |Asked(spans)|
    ensures Asked(spans)[spans[i].at - from + j] == Place(spans[i].file, spans[i].off + j)
    decreases |spans|
  {
    if i < |spans| - 1 {
      SpanLands(g, spans[..|spans| - 1], from, i, j);
    }
  }

  lemma WholeSlots(g: Geometry)
    ensures RootLength(g) % 32 == 0
  {
    DivModIs(RootLength(g), 32, 16 * RootSectors(g), 0);
  }

  lemma Findable(g: Geometry, boot: seq<Byte>, fat: seq<Byte>, first: nat, f: nat, o: nat)
    requires |boot| == SECTOR && Sound(g) && HostFinds(g, boot, fat, first, f, o)
    requires f < g.files && o < FileSize(g) && o % SECTOR == 0
    ensures var layout, chain := ParseBoot(boot), Walk(fat, first, WALK_LIMIT);
            && layout.Some? && chain.Some? && SectorOf(layout.value, chain.value, o).Some?
            && var lba := SectorOf(layout.value, chain.value, o).value;
            && lba * SECTOR >= DataStart(g) && Wanted(g, lba * SECTOR, SECTOR) == SpanPlaces(Span(f, o, 512, 0))
  {
    hide DataStart, Sound, ParseBoot, Walk, SectorOf, FileSize, Wanted, PlaceOf;
    var lba := SectorOf(ParseBoot(boot).value, Walk(fat, first, WALK_LIMIT).value, o).value;
    assert o + 512 <= FileSize(g) by { WholeSectors(g, o); }
    assert lba * SECTOR < DataStart(g) + DataLength(g) by { InData(g, lba * SECTOR - DataStart(g), f, o); }
    WantedSpan(g, lba * SECTOR, Span(f, o, 512, 0));
  }

  lemma WholeSectors(g: Geometry, o: nat)
    requires o < FileSize(g) && o % SECTOR == 0
    ensures o + 512 <= FileSize(g)
  {
    assert FileSize(g) == (g.clusters * g.spc) * SECTOR;
    assert o == o / SECTOR * SECTOR;
  }

  lemma InData(g: Geometry, d: nat, f: nat, o: nat)
    requires Sound(g) && PlaceOf(FileSize(g), d) == Place(f, o) && f < g.files
    ensures d < DataLength(g)
  {
    hide FileSize;
    var size := FileSize(g);
    assert d == f * size + o && o < size;
    Scales(f + 1, g.files, size);
  }
}
