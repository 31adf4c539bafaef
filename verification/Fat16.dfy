// The fallback firmware's allocation table: flat 16-bit entries and one file's chain.
module Fat16 {
  import opened Bytes
  import Fat12

  const END_OF_CHAIN: nat := 0xFFF8
  // What the build accepts.
  const MIN_CLUSTERS: nat := 4083
  const MAX_CLUSTERS: nat := 65522

  // The entry of cluster c in a volume of one file.
  function Link(c: nat, clusters: nat): nat
  {
    if c == 0 then 0xFFF8 else if c == 1 then 0xFFFF else if c < clusters + 1 then c + 1 else 0xFFFF
  }

  // The reader takes what bytes there are at an entry's place, low byte first.
  function EntryAt(fat: seq<Byte>, c: nat): nat
  {
    if 2 * c + 1 < |fat| then Le2(fat[2 * c], fat[2 * c + 1])
    else if 2 * c < |fat| then fat[2 * c]
    else 0
  }

  ghost predicate IsTable(fat: seq<Byte>, clusters: nat)
  {
    && 2 * (clusters + 2) <= |fat|
    && (forall c :: 0 <= c < clusters + 2 ==> EntryAt(fat, c) == Link(c, clusters))
    && (forall i :: 2 * (clusters + 2) <= i < |fat| ==> fat[i] == 0)
  }

  method BuildFat(clusters: nat, fat: array<Byte>)
    requires 0 < clusters <= MAX_CLUSTERS && 2 * (clusters + 2) <= fat.Length
    modifies fat
    ensures IsTable(fat[..], clusters)
  {
    forall i | 0 <= i < fat.Length { fat[i] := 0; }
    Put(fat, 0, 0xFFF8);
    Put(fat, 1, 0xFFFF);
    var c := 2;
    while c < clusters + 2
      invariant 2 <= c <= clusters + 2
      invariant forall e :: 0 <= e < c ==> EntryAt(fat[..], e) == Link(e, clusters)
      invariant forall i :: 2 * c <= i < fat.Length ==> fat[i] == 0
    {
      Put(fat, c, if c < clusters + 1 then c + 1 else 0xFFFF);
      c := c + 1;
    }
  }

  method Put(fat: array<Byte>, c: nat, entry: nat)
    requires 2 * c + 1 < fat.Length && entry < 0x10000
    modifies fat
    ensures EntryAt(fat[..], c) == entry
    ensures forall e :: 0 <= e < c ==> EntryAt(fat[..], e) == old(EntryAt(fat[..], e))
    ensures forall i :: 2 * c + 2 <= i < fat.Length ==> fat[i] == old(fat[i])
  {
    fat[2 * c], fat[2 * c + 1] := entry % 256, entry / 256;
  }

  // The clusters from c on, until an end mark or the reader's limit.
  function Walk(fat: seq<Byte>, c: nat, budget: nat): seq<nat>
    decreases budget
  {
    if c >= END_OF_CHAIN || budget == 0 then [] else [c] + Walk(fat, EntryAt(fat, c), budget - 1)
  }

  method WalkChain(fat: seq<Byte>, first: nat) returns (chain: seq<nat>)
    ensures chain == Walk(fat, first, Fat12.WALK_LIMIT)
  {
    hide EntryAt, Walk;
    chain := [];
    var c: nat := first;
    ghost var budget: nat := Fat12.WALK_LIMIT;
    assert [] + Walk(fat, first, budget) == Walk(fat, first, budget);
    while c < END_OF_CHAIN && |chain| <= 65524
      invariant |chain| + budget == Fat12.WALK_LIMIT
      invariant chain + Walk(fat, c, budget) == Walk(fat, first, Fat12.WALK_LIMIT)
      decreases budget
    {
      WalkStep(fat, c, budget, chain);
      chain := chain + [c];
      c := EntryAt(fat, c);
      budget := budget - 1;
    }
    WalkEnds(fat, c, budget, chain);
  }

  lemma WalkStep(fat: seq<Byte>, c: nat, budget: nat, chain: seq<nat>)
    requires c < END_OF_CHAIN && budget > 0
    ensures chain + Walk(fat, c, budget) == chain + [c] + Walk(fat, EntryAt(fat, c), budget - 1)
  {
    hide EntryAt;
    var rest := Walk(fat, EntryAt(fat, c), budget - 1);
    assert chain + ([c] + rest) == chain + [c] + rest;
  }

  lemma WalkEnds(fat: seq<Byte>, c: nat, budget: nat, chain: seq<nat>)
    requires c >= END_OF_CHAIN || budget == 0
    ensures chain + Walk(fat, c, budget) == chain
  {}

  lemma {:induction false} WalkFrom(fat: seq<Byte>, clusters: nat, i: nat, budget: nat)
    requires clusters <= MAX_CLUSTERS && IsTable(fat, clusters) && i < clusters && budget >= clusters - i
    ensures Walk(fat, 2 + i, budget) == Fat12.Run(2 + i, clusters - i)
    decreases clusters - i
  {
    hide EntryAt;
    assert EntryAt(fat, 2 + i) == Link(2 + i, clusters);
    if i + 1 < clusters { WalkFrom(fat, clusters, i + 1, budget - 1); }
    assert [2 + i] + Fat12.Run(3 + i, clusters - i - 1) == Fat12.Run(2 + i, clusters - i);
  }

  // The reader's chain of the one file is all of its clusters in order, at any size the build accepts.
  lemma FileChain(fat: seq<Byte>, clusters: nat)
    requires 0 < clusters <= MAX_CLUSTERS && IsTable(fat, clusters)
    ensures Walk(fat, 2, Fat12.WALK_LIMIT) == Fat12.Run(2, clusters)
  {
    hide Walk;
    WalkFrom(fat, clusters, 0, Fat12.WALK_LIMIT);
  }

  // The first two entries are the media mark and all ones.
  lemma FirstEntries(fat: seq<Byte>, clusters: nat)
    requires IsTable(fat, clusters)
    ensures fat[..4] == [0xF8, 0xFF, 0xFF, 0xFF]
  {
    assert EntryAt(fat, 0) == Link(0, clusters) && EntryAt(fat, 1) == Link(1, clusters);
    assert fat[0] as int + 256 * (fat[1] as int) == 0xFFF8 && fat[2] as int + 256 * (fat[3] as int) == 0xFFFF;
  }

  // ---- What the reader takes the volume for

  function FatSectors(clusters: nat): nat { ((clusters + 2) * 2 + 511) / 512 }

  function TotalSectors(clusters: nat): nat { 1 + 2 * FatSectors(clusters) + 1 + clusters }

  // The numbers in the boot sector: one sector a cluster, one reserved, two tables, 16 root entries.
  ghost predicate HoldsFields(bs: seq<Byte>, clusters: nat)
  {
    && |bs| == 512
    && Le2(bs[11], bs[12]) == 512 && bs[13] == 1 && Le2(bs[14], bs[15]) == 1 && bs[16] == 2
    && Le2(bs[17], bs[18]) == 16 && Le2(bs[22], bs[23]) == FatSectors(clusters)
    && Le2(bs[19], bs[20]) == (if TotalSectors(clusters) < 0x10000 then TotalSectors(clusters) else 0)
    && Le4(bs[32], bs[33], bs[34], bs[35]) == (if TotalSectors(clusters) < 0x10000 then 0 else TotalSectors(clusters))
  }

  // The reader takes the volume for FAT16 exactly from 4085 clusters on; the build accepts 4083.
  lemma TypeRecognised(bs: seq<Byte>, clusters: nat)
    requires MIN_CLUSTERS <= clusters <= MAX_CLUSTERS && HoldsFields(bs, clusters)
    ensures var layout := Fat12.ParseBoot(bs);
            && layout.Some? && layout.value.dataLba == 2 + 2 * FatSectors(clusters)
            && (!layout.value.fat12 <==> clusters >= 4085)
  {
    hide FatSectors, Le2, Le4;
    assert (16 * 32 + 512 - 1) / 512 == 1;
    assert Fat12.Copies(2, FatSectors(clusters)) == 2 * FatSectors(clusters);
    assert Fat12.FloorDiv(clusters, 1) == clusters;
  }
}
