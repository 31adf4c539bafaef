// The volume as the host reads it: any byte range, cut into regions, the data area cut into files.
module DiskImage {
  import opened Bytes
  import opened Fat12
  import Memory

  // n bytes of a file's data from `off`, asked for at position `at` of the reader's buffer.
  datatype Span = Span(file: nat, off: nat, n: nat, at: nat)

  // A byte of a file.
  datatype Place = Place(file: nat, off: nat)

  function FatStart(g: Geometry): nat { SECTOR }
  function FatLength(g: Geometry): nat { FatSectors(g) * SECTOR }
  function RootStart(g: Geometry): nat { SECTOR + 2 * FatSectors(g) * SECTOR }
  function RootLength(g: Geometry): nat { RootSectors(g) * SECTOR }
  function DataStart(g: Geometry): nat { FirstDataLba(g) * SECTOR }
  function DataLength(g: Geometry): nat { g.files * FileSize(g) }

  lemma RegionsMeet(g: Geometry)
    ensures RootStart(g) == FatStart(g) + 2 * FatLength(g)
    ensures DataStart(g) == RootStart(g) + RootLength(g)
  {}

  function Wrapped(p: nat, m: nat): (r: nat)
    requires m > 0
    ensures r < m
  {
    p % m
  }

  // What lies before the data area: boot sector, two copies of the table, root directory.
  function Metadata(g: Geometry, boot: seq<Byte>, fat: seq<Byte>, root: seq<Byte>): (m: seq<Byte>)
    requires |boot| == SECTOR && |fat| == FatLength(g) && |root| == RootLength(g)
    ensures |m| == DataStart(g)
  {
    boot + fat + fat + root
  }

  // The region a position lies in, and the place in it.
  lemma MetadataAt(g: Geometry, boot: seq<Byte>, fat: seq<Byte>, root: seq<Byte>, p: nat)
    requires |boot| == SECTOR && |fat| == FatLength(g) > 0 && |root| == RootLength(g) && p < DataStart(g)
    ensures Metadata(g, boot, fat, root)[p]
            == if p < FatStart(g) then boot[p]
               else if p < RootStart(g) then fat[Wrapped(p - FatStart(g), FatLength(g))]
               else root[p - RootStart(g)]
  {
    hide FatLength, RootLength, RootStart, DataStart, Wrapped;
    RegionsMeet(g);
    if FatStart(g) <= p < RootStart(g) { InACopy(p - FatStart(g), FatLength(g)); }
  }

  // The place in the first or second of two copies.
  lemma InACopy(p: nat, m: nat)
    requires p < 2 * m
    ensures Wrapped(p, m) == if p < m then p else p - m
  {
    DivModIs(p, m, if p < m then 0 else 1, if p < m then p else p - m);
  }

  // The file and offset of a byte of the data area.
  function PlaceOf(size: nat, d: nat): (p: Place)
    requires size > 0
    ensures p.off < size
  {
    Place(d / size, d % size)
  }

  function Places(size: nat, d: nat, n: nat): (s: seq<Place>)
    requires size > 0
    ensures |s| == n && forall k :: 0 <= k < n ==> s[k] == PlaceOf(size, d + k)
    decreases n
  {
    if n == 0 then [] else Places(size, d, n - 1) + [PlaceOf(size, d + n - 1)]
  }

  function SpanPlaces(s: Span): (ps: seq<Place>)
    ensures |ps| == s.n && forall k :: 0 <= k < s.n ==> ps[k] == Place(s.file, s.off + k)
    decreases s.n
  {
    if s.n == 0 then [] else SpanPlaces(s.(n := s.n - 1)) + [Place(s.file, s.off + s.n - 1)]
  }

  // The bytes a list of spans asks for, in order.
  function Asked(spans: seq<Span>): seq<Place>
    decreases |spans|
  {
    if |spans| == 0 then [] else Asked(spans[..|spans| - 1]) + SpanPlaces(spans[|spans| - 1])
  }

  // The spans fill the buffer from `from` on without gaps, and none crosses into another file.
  predicate Placed(g: Geometry, spans: seq<Span>, from: nat)
    decreases |spans|
  {
    |spans| > 0 ==>
      var last := spans[|spans| - 1];
      && Placed(g, spans[..|spans| - 1], from)
      && last.at == from + |Asked(spans[..|spans| - 1])|
      && last.file < g.files && last.off + last.n <= FileSize(g)
  }

  lemma TableNotEmpty(g: Geometry)
    ensures FatLength(g) > 0
  {
    assert FatBytes(g) > 0;
    assert FatBytes(g) + SECTOR - 1 >= SECTOR;
  }

  lemma PlaceAlong(size: nat, d: nat, k: nat)
    requires size > 0 && d % size + k < size
    ensures PlaceOf(size, d + k) == Place(d / size, d % size + k)
  {
    DivModIs(d + k, size, d / size, d % size + k);
  }

  lemma Scales(a: nat, b: nat, m: nat)
    requires a <= b
    ensures a * m <= b * m
  {}

  // A place in the data area is in one of the files, and that file ends in the data area.
  lemma Inside(size: nat, files: nat, d: nat, p: Place)
    requires size > 0 && d < files * size && p == PlaceOf(size, d)
    ensures p.file < files && p.off < size && p.off <= d && d - p.off + size <= files * size
  {
    assert d == p.file * size + p.off;
    if p.file >= files { Scales(files, p.file, size); }
    Scales(p.file + 1, files, size);
  }

  // A stretch inside one file is a span.
  lemma OneSpan(size: nat, d: nat, s: Span)
    requires size > 0 && PlaceOf(size, d) == Place(s.file, s.off) && s.off + s.n <= size
    ensures SpanPlaces(s) == Places(size, d, s.n)
  {
    forall k | 0 <= k < s.n ensures SpanPlaces(s)[k] == Places(size, d, s.n)[k] {
      PlaceAlong(size, d, k);
    }
  }

  // At least 0, at most n.
  function Clip(x: int, n: nat): nat { if x < 0 then 0 else if x < n then x else n }

  // The file bytes a read of n bytes at `start` asks for.
  function Wanted(g: Geometry, start: nat, n: nat): seq<Place>
    requires Sound(g)
  {
    if start + n <= DataStart(g) then []
    else
      var d := Max(start - DataStart(g), 0);
      Places(FileSize(g), d, Clip(DataLength(g) - d, start + n - DataStart(g) - d))
  }

  // Where the data area begins in the buffer.
  function Lead(g: Geometry, start: nat): nat { Max(DataStart(g) - start, 0) }

  // A read cut in two asks for the same bytes.
  lemma WantedSplit(g: Geometry, start: nat, a: nat, b: nat)
    requires Sound(g)
    ensures Wanted(g, start, a + b) == Wanted(g, start, a) + Wanted(g, start + a, b)
  {
    hide DataStart, DataLength, Sound;
  }

  // A stretch that stays inside one file.
  lemma WantedSpan(g: Geometry, pos: nat, s: Span)
    requires Sound(g) && DataStart(g) <= pos < DataStart(g) + DataLength(g)
    requires PlaceOf(FileSize(g), pos - DataStart(g)) == Place(s.file, s.off) && s.off + s.n <= FileSize(g)
    ensures Wanted(g, pos, s.n) == SpanPlaces(s) && s.file < g.files
  {
    hide DataStart, FileSize, Sound, PlaceOf;
    var d := pos - DataStart(g);
    OneSpan(FileSize(g), d, s);
    Inside(FileSize(g), g.files, d, Place(s.file, s.off));
  }

  // Nothing is wanted past the end.
  lemma NothingPastEnd(g: Geometry, pos: nat, n: nat)
    requires Sound(g) && pos >= DataStart(g) + DataLength(g)
    ensures Wanted(g, pos, n) == []
  {}

  lemma NothingBefore(g: Geometry, start: nat, n: nat)
    requires Sound(g) && (start + n <= DataStart(g) || n == 0)
    ensures Wanted(g, start, n) == []
  {}

  lemma NoSpans(g: Geometry, from: nat)
    ensures Placed(g, [], from) && Asked([]) == []
  {}

  lemma SpanAdded(g: Geometry, spans: seq<Span>, s: Span, from: nat)
    ensures Asked(spans + [s]) == Asked(spans) + SpanPlaces(s)
    ensures Placed(g, spans, from) && s.at == from + |Asked(spans)| && s.file < g.files && s.off + s.n <= FileSize(g)
            ==> Placed(g, spans + [s], from)
  {
    assert (spans + [s])[..|spans|] == spans;
  }

  class Disk {
    const g: Geometry
    const boot: array<Byte>
    const fat: array<Byte>
    const root: array<Byte>

    ghost predicate Valid()
    {
      Sound(g) && boot.Length == SECTOR && fat.Length == FatLength(g) > 0 && root.Length == RootLength(g)
    }

    constructor (g: Geometry, serial: nat)
      requires Sound(g) && PackingFits(g) && serial < 0x1_0000_0000
      ensures Valid() && this.g == g && fresh(boot) && fresh(fat) && fresh(root)
      ensures fat[..] == Table(g) && HoldsFields(boot[..], g, serial)
    {
      this.g := g;
      boot := new Byte[SECTOR];
      TableNotEmpty(g);
      fat := new Byte[FatLength(g)];
      root := new Byte[RootLength(g)];
      new;
      BuildBootSector(g, serial, boot);
      BuildFat(g, fat);
    }

    // A read of any byte range. The bytes before the data area are copied into the buffer;
    // for the data area the spans say which bytes of which file are wanted where, and the rest
    // of the buffer is zero.
    method ReadAt(start: nat, buffer: array<Byte>) returns (spans: seq<Span>)
      requires Valid() && buffer != boot && buffer != fat && buffer != root
      modifies buffer
      ensures forall k :: 0 <= k < buffer.Length ==>
                buffer[k] == if start + k < DataStart(g) then Metadata(g, boot[..], fat[..], root[..])[start + k] else 0
      ensures Asked(spans) == Wanted(g, start, buffer.Length)
      ensures Placed(g, spans, Lead(g, start))
    {
      hide Metadata, Wanted, FileSize, DataStart, DataLength, RootLength, FatLength, Sound, PlaceOf, Placed, Asked;
      assert Placed(g, [], Lead(g, start)) && Asked([]) == [] by { NoSpans(g, Lead(g, start)); }
      TableNotEmpty(g);
      forall k | 0 <= k < buffer.Length { buffer[k] := 0; }
      var pos, out, remaining := start, 0, buffer.Length;
      spans := [];
      NothingBefore(g, start, 0);
      while remaining > 0
        invariant pos == start + out && 0 <= out <= out + remaining == buffer.Length
        invariant forall k :: 0 <= k < buffer.Length ==>
                    buffer[k] == if k < out && start + k < DataStart(g)
                                 then Metadata(g, boot[..], fat[..], root[..])[start + k] else 0
        invariant Asked(spans) == Wanted(g, start, out) && Placed(g, spans, Lead(g, start))
        invariant pos < DataStart(g) ==> spans == []
        invariant pos >= DataStart(g) ==> |Asked(spans)| == out - Lead(g, start)
        decreases remaining
      {
        var n: nat;
        if pos < DataStart(g) {
          n := CopyMeta(pos, buffer, out, remaining);
          NothingBefore(g, start, out + n);
        } else {
          var dataOff := pos - DataStart(g);
          if dataOff >= DataLength(g) {
            NothingPastEnd(g, pos, remaining);
            WantedSplit(g, start, out, remaining);
            assert Asked(spans) + [] == Asked(spans);
            break;
          }
          var at := PlaceOf(FileSize(g), dataOff);
          n := if remaining < FileSize(g) - at.off then remaining else FileSize(g) - at.off;
          var span := Span(at.file, at.off, n, out);
          WantedSpan(g, pos, span);
          WantedSplit(g, start, out, n);
          SpanAdded(g, spans, span, Lead(g, start));
          spans := spans + [span];
        }
        pos, out, remaining := pos + n, out + n, remaining - n;
      }
    }

    // One region's share of a read that starts before the data area. Both copies of the table
    // come from the same bytes.
    method CopyMeta(pos: nat, buffer: array<Byte>, at: nat, remaining: nat) returns (n: nat)
      requires Valid() && buffer != boot && buffer != fat && buffer != root
      requires pos < DataStart(g) && 0 < remaining && at + remaining <= buffer.Length
      modifies buffer
      ensures 0 < n <= remaining && pos + n <= DataStart(g)
      ensures forall k :: 0 <= k < buffer.Length ==>
                buffer[k] == if at <= k < at + n then Metadata(g, boot[..], fat[..], root[..])[pos + k - at]
                             else old(buffer[k])
    {
      hide FatLength, RootLength, RootStart, DataStart, Sound, Wrapped, Metadata;
      RegionsMeet(g);
      forall p | 0 <= p < DataStart(g)
        ensures Metadata(g, boot[..], fat[..], root[..])[p]
                == if p < FatStart(g) then boot[p]
                   else if p < RootStart(g) then fat[Wrapped(p - FatStart(g), FatLength(g))]
                   else root[p - RootStart(g)]
      {
        MetadataAt(g, boot[..], fat[..], root[..], p);
      }
      if pos < FatStart(g) {
        n := if remaining < FatStart(g) - pos then remaining else FatStart(g) - pos;
        Memory.Move(buffer, at, boot, pos, n);
      } else if pos < RootStart(g) {
        var rel := Wrapped(pos - FatStart(g), FatLength(g));
        n := if remaining < FatLength(g) - rel then remaining else FatLength(g) - rel;
        OneCopy(pos - FatStart(g), FatLength(g), n);
        Memory.Move(buffer, at, fat, rel, n);
      } else {
        var rel := pos - RootStart(g);
        n := if remaining < RootLength(g) - rel then remaining else RootLength(g) - rel;
        Memory.Move(buffer, at, root, rel, n);
      }
    }
  }

  // Within one copy of the table offsets run on, and a stretch that starts in one of the two
  // copies and stays within it ends there.
  lemma OneCopy(p: nat, m: nat, n: nat)
    requires m > 0 && Wrapped(p, m) + n <= m
    ensures forall k :: p <= k < p + n ==> Wrapped(k, m) == Wrapped(p, m) + (k - p)
    ensures p < 2 * m ==> p + n <= 2 * m
  {
    forall k | p <= k < p + n ensures Wrapped(k, m) == Wrapped(p, m) + (k - p) {
      DivModIs(k, m, p / m, p % m + (k - p));
    }
    if p < m { DivModIs(p, m, 0, p); } else if p < 2 * m { DivModIs(p, m, 1, p - m); }
  }

  // ---- The two ends together

  // The boot sector comes first, both copies of the table read the same, and the root directory
  // ends where the data area begins.
  lemma CopiesAgree(g: Geometry, boot: seq<Byte>, fat: seq<Byte>, root: seq<Byte>)
    requires |boot| == SECTOR && |fat| == FatLength(g) && |root| == RootLength(g)
    ensures var m, n := Metadata(g, boot, fat, root), |fat|;
            && |m| == 512 + n + n + |root| == DataStart(g)
            && m[..512] == boot && m[512..512 + n] == fat && m[512 + n..512 + n + n] == fat
            && m[512 + n + n..] == root
  {
    hide FatLength, RootLength, DataStart;
    var m := Metadata(g, boot, fat, root);
    assert m[512..512 + |fat|] == fat && m[512 + |fat|..512 + |fat| + |fat|] == fat;
  }

  // Where the host looks for offset o of a file: sector and cluster of its chain.
  function SectorOf(layout: Layout, chain: seq<nat>, o: nat): (lba: Option<int>)
  {
    var clusterBytes := layout.spc * SECTOR;
    if clusterBytes == 0 || o / clusterBytes >= |chain| then None
    else Some(layout.dataLba + (chain[o / clusterBytes] - 2) * layout.spc + o % clusterBytes / SECTOR)
  }

  // The sector the host reads for offset o is the disk's sector o of file f.
  predicate Addresses(g: Geometry, layout: Layout, chain: seq<nat>, f: nat, o: nat)
    requires Sound(g)
  {
    var lba := SectorOf(layout, chain, o);
    && lba.Some? && lba.value * SECTOR >= DataStart(g)
    && PlaceOf(FileSize(g), lba.value * SECTOR - DataStart(g)) == Place(f, o)
  }

  // With nothing but the boot sector and the first copy of the table, the host finds sector o of
  // the file whose chain starts at `first`, and the disk agrees that it is sector o of file f.
  predicate HostFinds(g: Geometry, boot: seq<Byte>, fat: seq<Byte>, first: nat, f: nat, o: nat)
    requires |boot| == SECTOR && Sound(g)
  {
    var layout := ParseBoot(boot);
    var chain := Walk(fat, first, WALK_LIMIT);
    && layout.Some? && layout.value.fat12
    && layout.value.reserved * SECTOR == FatStart(g)
    && layout.value.fatSectors * SECTOR == FatLength(g)
    && chain.Some? && Addresses(g, layout.value, chain.value, f, o)
  }

  // Mounting works: every sector of every file is found, for every geometry the build accepts.
  lemma MountRoundTrip(g: Geometry, boot: seq<Byte>, serial: nat, f: nat, o: nat)
    requires Sound(g) && serial < 0x1_0000_0000 && |boot| == SECTOR && HoldsFields(boot, g, serial)
    requires f < g.files && o < FileSize(g) && o % SECTOR == 0
    ensures HostFinds(g, boot, Table(g), FirstCluster(g, f), f, o)
  {
    hide ParseBoot, HoldsFields, Table, Walk, Sound, FatSectors, RootSectors, Addresses, FileSize;
    BootRoundTrip(boot, g, serial);
    FileChain(g, f);
    SoundSizes(g);
    HostAddress(g, ParseBoot(boot).value, f, o);
  }

  lemma HostAddress(g: Geometry, layout: Layout, f: nat, o: nat)
    requires Sound(g) && layout.spc == g.spc > 0 && layout.dataLba == FirstDataLba(g)
    requires o < FileSize(g) && o % SECTOR == 0
    ensures Addresses(g, layout, Run(2 + f * g.clusters, g.clusters), f, o)
  {
    hide Sound, FirstDataLba, PlaceOf, FileSize, SectorOf, Run;
    FileSizeIs(g);
    var n := ChainSector(layout, f, g.clusters, o);
    assert (FirstDataLba(g) + n) * SECTOR == FirstDataLba(g) * SECTOR + n * SECTOR;
    PlaceAt(f, FileSize(g), o);
  }

  lemma FileSizeIs(g: Geometry)
    ensures FileSize(g) == g.clusters * (g.spc * SECTOR)
  {}

  // Sector n of the data area, counted in bytes.
  lemma ChainSector(layout: Layout, f: nat, clusters: nat, o: nat) returns (n: nat)
    requires layout.spc > 0 && o < clusters * (layout.spc * SECTOR) && o % SECTOR == 0
    ensures SectorOf(layout, Run(2 + f * clusters, clusters), o) == Some(layout.dataLba + n)
    ensures n * SECTOR == f * (clusters * (layout.spc * SECTOR)) + o
  {
    hide SectorOf, Run;
    var q, r := Divide(o, layout.spc, clusters);
    n := SectorNumber(f, clusters, layout.spc, q, r, o);
    InChain(layout, f * clusters, clusters, o, q, r);
  }

  lemma Divide(o: nat, spc: nat, clusters: nat) returns (q: nat, r: nat)
    requires spc > 0 && o < clusters * (spc * SECTOR) && o % SECTOR == 0
    ensures q == o / (spc * SECTOR) < clusters && r == o % (spc * SECTOR)
    ensures o == q * (spc * SECTOR) + r && r / SECTOR * SECTOR == r
  {
    q, r := o / (spc * SECTOR), o % (spc * SECTOR);
    Quotient(o, spc * SECTOR, clusters);
    RemainderAligned(o, spc);
  }

  lemma SectorNumber(f: nat, clusters: nat, spc: nat, q: nat, r: nat, o: nat) returns (n: nat)
    requires o == q * (spc * SECTOR) + r && r / SECTOR * SECTOR == r
    ensures n == (f * clusters + q) * spc + r / SECTOR
    ensures n * SECTOR == f * (clusters * (spc * SECTOR)) + o
  {
    var m: nat := f * clusters + q;
    SectorBytes(m, spc, r);
    Regroup(f, clusters, spc * SECTOR, q);
    n := m * spc + r / SECTOR;
  }

  lemma InChain(layout: Layout, base: nat, clusters: nat, o: nat, q: nat, r: nat)
    requires layout.spc > 0 && q == o / (layout.spc * SECTOR) < clusters && r == o % (layout.spc * SECTOR)
    ensures SectorOf(layout, Run(2 + base, clusters), o) == Some(layout.dataLba + (base + q) * layout.spc + r / SECTOR)
  {
    assert Run(2 + base, clusters)[q] - 2 == base + q;
  }

  lemma PlaceAt(f: nat, size: nat, o: nat)
    requires o < size
    ensures PlaceOf(size, f * size + o) == Place(f, o)
  {
    DivModIs(f * size + o, size, f, o);
  }

  lemma Quotient(o: nat, b: nat, clusters: nat)
    requires b > 0 && o < clusters * b
    ensures o / b < clusters && o == o / b * b + o % b && 0 <= o % b
  {
    if o / b >= clusters { Scales(clusters, o / b, b); }
  }

  lemma RemainderAligned(o: nat, spc: nat)
    requires spc > 0 && o % SECTOR == 0
    ensures o % (spc * SECTOR) / SECTOR * SECTOR == o % (spc * SECTOR)
  {
    var b := spc * SECTOR;
    var q, r := o / b, o % b;
    assert q * b == q * spc * SECTOR;
    DivModIs(r, SECTOR, o / SECTOR - q * spc, 0);
  }

  lemma SectorBytes(n: nat, spc: nat, r: nat)
    requires r / SECTOR * SECTOR == r
    ensures (n * spc + r / SECTOR) * SECTOR == n * (spc * SECTOR) + r
  {}

  lemma Regroup(f: nat, clusters: nat, b: nat, q: nat)
    ensures (f * clusters + q) * b == f * (clusters * b) + q * b
  {}
}
