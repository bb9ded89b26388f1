/** Where clusters lie on the volume, and the page reader and truncation of a file. */
module FatReads {
  import opened Common
  import opened Sv39
  import opened Fat
  import opened FatFiles

  // ------------------------------------------------------------------ geometry

  /** The fields of the BIOS parameter block that the mount check reads. */
  datatype Bpb = Bpb(sectorSize: nat, sectorPerCluster: nat, reservedSectorCount: nat, fatCount: nat, rootEntryCount: nat,
                     sectorCount16: nat, fatLength16: nat, totalSectorCount: nat, fat32Length: nat, version: nat,
                     rootCluster: nat, infoSector: nat)

  /** Field widths on disk. */
  predicate Widths(b: Bpb) {
    && b.sectorSize < 0x1_0000 && b.sectorPerCluster < 0x100 && b.reservedSectorCount < 0x1_0000 && b.fatCount < 0x100
    && b.rootEntryCount < 0x1_0000 && b.sectorCount16 < 0x1_0000 && b.fatLength16 < 0x1_0000 && b.totalSectorCount < U32
    && b.fat32Length < U32 && b.version < 0x1_0000 && b.rootCluster < U32 && b.infoSector < 0x1_0000
  }

  function Wrap32(x: nat): nat { x % U32 }

  /** The first data sector, in 32-bit arithmetic. */
  function DataStart(b: Bpb): nat {
    Wrap32(b.reservedSectorCount + Wrap32(b.fatCount * b.fat32Length))
  }

  /** Where the tables really end. */
  function FatEnd(b: Bpb): nat { b.reservedSectorCount + b.fatCount * b.fat32Length }

  function DataClusters(b: Bpb): nat
    requires DataStart(b) <= b.totalSectorCount && b.sectorPerCluster > 0
  {
    (b.totalSectorCount - DataStart(b)) / b.sectorPerCluster
  }

  predicate IsValidFat32Bpb(b: Bpb) {
    if b.sectorSize != SECTOR_SIZE || b.sectorPerCluster == 0 || b.sectorPerCluster !in {1, 2, 4, 8, 16, 32, 64, 128}
       || b.reservedSectorCount == 0 || b.fatCount == 0 || b.fat32Length == 0 || b.totalSectorCount == 0
       || b.rootEntryCount != 0 || b.sectorCount16 != 0 || b.fatLength16 != 0 || b.version != 0
       || b.infoSector >= b.reservedSectorCount
    then false
    else if DataStart(b) >= b.totalSectorCount then false
    else if DataClusters(b) < 65_526 then false
    else RESERVED_FAT_ENTRY_COUNT <= b.rootCluster <= DataClusters(b) + 1
  }

  predicate IsCluster(b: Bpb, c: nat)
    requires IsValidFat32Bpb(b)
  {
    RESERVED_FAT_ENTRY_COUNT <= c < DataClusters(b) + RESERVED_FAT_ENTRY_COUNT
  }

  /** First sector of a cluster and the sector after its last, in 32-bit arithmetic. */
  function ClusterSectors(b: Bpb, c: nat): (nat, nat)
    requires c >= RESERVED_FAT_ENTRY_COUNT
  {
    var first := Wrap32(DataStart(b) + Wrap32((c - RESERVED_FAT_ENTRY_COUNT) * b.sectorPerCluster));
    (first, Wrap32(first + b.sectorPerCluster))
  }

  lemma Scaled(a: nat, b: nat, k: nat)
    requires a <= b
    ensures a * k <= b * k
  {
  }

  lemma Successor(a: nat, k: nat)
    ensures (a + 1) * k == a * k + k
  {
  }

  lemma NoWrap(x: nat)
    requires x < U32
    ensures Wrap32(x) == x
  {
  }

  lemma RoomFor(room: nat, spc: nat, i: nat)
    requires spc > 0 && i < room / spc
    ensures i * spc + spc <= room
  {
    Scaled(i + 1, room / spc, spc);
    Successor(i, spc);
  }

  /** A cluster's sectors are as many as a cluster has and lie inside the volume. */
  lemma ClusterInVolume(b: Bpb, c: nat)
    requires Widths(b) && IsValidFat32Bpb(b) && IsCluster(b, c)
    ensures ClusterSectors(b, c).0 == DataStart(b) + (c - RESERVED_FAT_ENTRY_COUNT) * b.sectorPerCluster
    ensures ClusterSectors(b, c).1 == ClusterSectors(b, c).0 + b.sectorPerCluster <= b.totalSectorCount
  {
    var spc, start, total := b.sectorPerCluster, DataStart(b), b.totalSectorCount;
    var at := (c - RESERVED_FAT_ENTRY_COUNT) * spc;
    RoomFor(total - start, spc, c - RESERVED_FAT_ENTRY_COUNT);
    hide *;
    assert start + at + spc <= total < U32;
    SectorsExact(b, c);
  }

  lemma SectorsExact(b: Bpb, c: nat)
    requires c >= RESERVED_FAT_ENTRY_COUNT
    requires DataStart(b) + (c - RESERVED_FAT_ENTRY_COUNT) * b.sectorPerCluster + b.sectorPerCluster < U32
    ensures ClusterSectors(b, c).0 == DataStart(b) + (c - RESERVED_FAT_ENTRY_COUNT) * b.sectorPerCluster
    ensures ClusterSectors(b, c).1 == ClusterSectors(b, c).0 + b.sectorPerCluster
  {
    var at := (c - RESERVED_FAT_ENTRY_COUNT) * b.sectorPerCluster;
    NoWrap(at);
    NoWrap(DataStart(b) + at);
    NoWrap(DataStart(b) + at + b.sectorPerCluster);
  }

  lemma ClusterLength(b: Bpb, c: nat)
    requires Widths(b) && IsValidFat32Bpb(b) && IsCluster(b, c)
    ensures c >= RESERVED_FAT_ENTRY_COUNT && ClusterSectors(b, c).1 == ClusterSectors(b, c).0 + b.sectorPerCluster
  {
    ClusterInVolume(b, c);
  }

  /** Distinct clusters own disjoint sectors. */
  lemma ClustersApart(b: Bpb, c: nat, d: nat)
    requires Widths(b) && IsValidFat32Bpb(b) && IsCluster(b, c) && IsCluster(b, d) && c < d
    ensures ClusterSectors(b, c).1 <= ClusterSectors(b, d).0
  {
    ClusterInVolume(b, c);
    ClusterInVolume(b, d);
    hide *;
    var k, l := c - RESERVED_FAT_ENTRY_COUNT, d - RESERVED_FAT_ENTRY_COUNT;
    Scaled(k + 1, l, b.sectorPerCluster);
    Successor(k, b.sectorPerCluster);
  }

  /** Every cluster lies behind the tables exactly when the end of the tables fits 32 bits. */
  lemma DataClearOfTables(b: Bpb)
    requires Widths(b) && IsValidFat32Bpb(b)
    ensures (forall c | IsCluster(b, c) :: FatEnd(b) <= ClusterSectors(b, c).0) <==> FatEnd(b) < U32
  {
    DataStartIs(b);
    assert IsCluster(b, RESERVED_FAT_ENTRY_COUNT);
    hide *;
    ClusterInVolume(b, RESERVED_FAT_ENTRY_COUNT);
    if FatEnd(b) < U32 {
      forall c | IsCluster(b, c) ensures FatEnd(b) <= ClusterSectors(b, c).0 { ClusterInVolume(b, c); }
    }
  }

  lemma DataStartIs(b: Bpb)
    ensures DataStart(b) < U32 && (FatEnd(b) < U32 ==> DataStart(b) == FatEnd(b))
  {
    var tables := b.fatCount * b.fat32Length;
    if FatEnd(b) < U32 {
      NoWrap(tables);
      NoWrap(b.reservedSectorCount + tables);
    }
  }

  /** The mount check accepts a block whose table size wraps around: its data area overlaps its tables. */
  lemma WrappedTablesAccepted() returns (b: Bpb)
    ensures Widths(b) && IsValidFat32Bpb(b) && FatEnd(b) >= U32
  {
    b := Bpb(512, 1, 32, 2, 0, 0, 0, 70_000, 0x8000_0000, 0, 2, 1);
  }

  // --------------------------------------------------------------- page reader

  type Sector = s: seq<Byte> | |s| == SECTOR_SIZE witness seq(SECTOR_SIZE, _ => 0)

  ghost predicate OnVolume(b: Bpb, chain: seq<nat>) {
    Widths(b) && IsValidFat32Bpb(b) && forall i | 0 <= i < |chain| :: IsCluster(b, chain[i])
  }

  /** The sectors of a cluster, in order. */
  ghost function SectorRun(b: Bpb, c: nat): seq<nat>
    requires c >= RESERVED_FAT_ENTRY_COUNT
  {
    var first := ClusterSectors(b, c).0;
    seq(b.sectorPerCluster, i requires 0 <= i < b.sectorPerCluster => first + i)
  }

  /** Where the `i`-th cluster of a chain begins, in sectors. */
  function Base(b: Bpb, i: nat): nat { i * b.sectorPerCluster }

  lemma BaseNext(b: Bpb, i: nat)
    ensures Base(b, i + 1) == Base(b, i) + b.sectorPerCluster
  {
    Successor(i, b.sectorPerCluster);
  }

  lemma BaseOrder(b: Bpb, i: nat, n: nat)
    requires i < n
    ensures Base(b, i) + b.sectorPerCluster <= Base(b, n)
  {
    Scaled(i + 1, n, b.sectorPerCluster);
    Successor(i, b.sectorPerCluster);
  }

  /** The sectors of a chain, cluster after cluster. */
  ghost function SectorsOf(b: Bpb, chain: seq<nat>): (r: seq<nat>)
    requires forall i | 0 <= i < |chain| :: chain[i] >= RESERVED_FAT_ENTRY_COUNT
    ensures |r| == Base(b, |chain|)
  {
    if chain == [] then [] else
      BaseNext(b, |chain| - 1);
      SectorsOf(b, chain[..|chain| - 1]) + SectorRun(b, chain[|chain| - 1])
  }

  /** The sectors of cluster `c` stand at `base` in `ids`. */
  ghost predicate RunAt(b: Bpb, c: nat, ids: seq<nat>, base: nat) {
    && c >= RESERVED_FAT_ENTRY_COUNT && base + b.sectorPerCluster <= |ids|
    && ids[base..base + b.sectorPerCluster] == SectorRun(b, c)
  }

  /** The sectors of the `i`-th cluster stand at their place. */
  lemma {:induction false} SectorsPlaced(b: Bpb, chain: seq<nat>, i: nat)
    requires forall i | 0 <= i < |chain| :: chain[i] >= RESERVED_FAT_ENTRY_COUNT
    requires i < |chain|
    ensures RunAt(b, chain[i], SectorsOf(b, chain), Base(b, i))
    decreases |chain|
  {
    var n := |chain| - 1;
    var at := Base(b, i);
    BaseOrder(b, i, |chain|);
    if i < n {
      SectorsPlaced(b, chain[..n], i);
      var front := SectorsOf(b, chain[..n]);
      assert SectorsOf(b, chain)[at..at + b.sectorPerCluster] == front[at..at + b.sectorPerCluster];
    }
  }

  /** The contents of the first `n` of these sectors, one after the other. */
  ghost function FirstSectors(disk: nat -> Sector, ids: seq<nat>, n: nat): (r: seq<Byte>)
    requires n <= |ids|
    ensures |r| == n * SECTOR_SIZE
    decreases n
  {
    if n == 0 then [] else FirstSectors(disk, ids, n - 1) + disk(ids[n - 1])
  }

  /** All the bytes behind a chain, in the order of its sectors. */
  ghost function ChainBytes(disk: nat -> Sector, b: Bpb, chain: seq<nat>): seq<Byte>
    requires forall i | 0 <= i < |chain| :: chain[i] >= RESERVED_FAT_ENTRY_COUNT
  {
    FirstSectors(disk, SectorsOf(b, chain), |SectorsOf(b, chain)|)
  }

  lemma {:induction false} FirstSectorsPrefix(disk: nat -> Sector, ids: seq<nat>, m: nat, n: nat)
    requires m <= n <= |ids|
    ensures FirstSectors(disk, ids, n)[..m * SECTOR_SIZE] == FirstSectors(disk, ids, m)
    decreases n
  {
    if m < n {
      FirstSectorsPrefix(disk, ids, m, n - 1);
    }
  }

  /** The 32-bit index of the first sector of a page, and where it is. */
  function SectorIndex(pageId: nat): nat { Wrap32(pageId * SECTOR_COUNT_PER_PAGE) }

  function PageIdToClusterPos(spc: nat, pageId: nat): (nat, nat)
    requires spc > 0
  {
    (SectorIndex(pageId) / spc, SectorIndex(pageId) % spc)
  }

  /** The page reader starts at the page's own byte exactly below page 2^29. */
  lemma SectorIndexExact(pageId: nat)
    ensures SectorIndex(pageId) == pageId * SECTOR_COUNT_PER_PAGE <==> pageId < 0x2000_0000
  {
  }

  function Clipped(k: nat, n: nat): nat {
    if k >= n then 0 else if n - k < SECTOR_COUNT_PER_PAGE then n - k else SECTOR_COUNT_PER_PAGE
  }

  /** What the reader has when it stands at sector `j` of the file. */
  ghost predicate PartRead(disk: nat -> Sector, ids: seq<nat>, k: nat, j: nat, page: seq<Byte>, before: seq<Byte>) {
    && k <= j <= |ids| && |page| == |before| == PAGE_SIZE && j - k <= SECTOR_COUNT_PER_PAGE
    && page[..(j - k) * SECTOR_SIZE] == FirstSectors(disk, ids, j)[k * SECTOR_SIZE..]
    && page[(j - k) * SECTOR_SIZE..] == before[(j - k) * SECTOR_SIZE..]
  }

  function WithSector(page: seq<Byte>, at: nat, sector: Sector): (r: seq<Byte>)
    requires at + SECTOR_SIZE <= |page|
    ensures |r| == |page|
  {
    page[..at] + sector + page[at + SECTOR_SIZE..]
  }

  lemma ReadNone(disk: nat -> Sector, ids: seq<nat>, k: nat, page: seq<Byte>)
    requires k <= |ids| && |page| == PAGE_SIZE
    ensures PartRead(disk, ids, k, k, page, page)
  {
  }

  lemma ReadOne(disk: nat -> Sector, ids: seq<nat>, k: nat, j: nat, page: seq<Byte>, before: seq<Byte>)
    requires PartRead(disk, ids, k, j, page, before) && j < |ids| && j - k < SECTOR_COUNT_PER_PAGE
    ensures PartRead(disk, ids, k, j + 1, WithSector(page, (j - k) * SECTOR_SIZE, disk(ids[j])), before)
  {
    var at := (j - k) * SECTOR_SIZE;
    var sector := disk(ids[j]);
    var page' := WithSector(page, at, sector);
    assert page'[..at + SECTOR_SIZE] == page[..at] + sector;
    assert page'[at + SECTOR_SIZE..] == page[at..][SECTOR_SIZE..];
    assert before[at + SECTOR_SIZE..] == before[at..][SECTOR_SIZE..];
    assert FirstSectors(disk, ids, j + 1)[k * SECTOR_SIZE..] == FirstSectors(disk, ids, j)[k * SECTOR_SIZE..] + sector;
  }

  /** The same, of the buffer as it is. */
  ghost predicate Reading(disk: nat -> Sector, ids: seq<nat>, k: nat, n: nat, page: array<Byte>, before: seq<Byte>)
    reads page
  {
    PartRead(disk, ids, k, k + n, page[..], before)
  }

  /** Read one sector into its place. */
  method ReadSector(disk: nat -> Sector, page: array<Byte>, sector: nat, n: nat, ghost ids: seq<nat>, ghost k: nat, ghost before: seq<Byte>)
    requires Reading(disk, ids, k, n, page, before) && n < SECTOR_COUNT_PER_PAGE && k + n < |ids| && ids[k + n] == sector
    modifies page
    ensures Reading(disk, ids, k, n + 1, page, before)
  {
    ReadOne(disk, ids, k, k + n, page[..], before);
    WriteSector(page, n * SECTOR_SIZE, disk(sector));
  }

  lemma ReadStarts(disk: nat -> Sector, ids: seq<nat>, k: nat, page: array<Byte>)
    requires k <= |ids| && page.Length == PAGE_SIZE
    ensures Reading(disk, ids, k, 0, page, page[..])
  {
    ReadNone(disk, ids, k, page[..]);
  }

  /** A finished read is a slice of all the bytes. */
  lemma ReadSlice(disk: nat -> Sector, ids: seq<nat>, k: nat, j: nat, page: seq<Byte>, before: seq<Byte>)
    requires PartRead(disk, ids, k, j, page, before)
    ensures page[..(j - k) * SECTOR_SIZE] == FirstSectors(disk, ids, |ids|)[k * SECTOR_SIZE..j * SECTOR_SIZE]
  {
    FirstSectorsPrefix(disk, ids, j, |ids|);
    var all := FirstSectors(disk, ids, |ids|);
    assert all[k * SECTOR_SIZE..j * SECTOR_SIZE] == all[..j * SECTOR_SIZE][k * SECTOR_SIZE..];
  }

  /** What a cut of a chain of the volume leaves, and what it may free. */
  lemma CutOff(b: Bpb, entries: seq<nat>, chain: seq<nat>, n: nat)
    requires OnVolume(b, chain) && IsChain(entries, chain) && n <= |chain| && |entries| <= CHAIN_STOP
    ensures OnVolume(b, chain[..n]) && InRange(entries, chain[n..]) && Distinct(chain[n..])
    ensures forall i | 0 <= i < |chain[n..]| :: !IsFree(entries, chain[n..][i])
    ensures n > 0 ==> RESERVED_FAT_ENTRY_COUNT <= chain[n - 1] < |entries| && !IsFree(entries, chain[n - 1]) && chain[n - 1] !in chain[n..]
    ensures n == |chain| ==> chain[n..] == [] && chain[..n] == chain
    ensures n < |chain| ==> IsChain(Freed(entries, chain[n..], Before(chain, n)), chain[..n])
  {
    if n < |chain| {
      CutChain(entries, chain, n);
      CutFree(entries, chain, n);
    } else if n > 0 {
      ChainBusy(entries, chain);
    }
  }

  lemma AllSectors(b: Bpb, chain: seq<nat>)
    requires OnVolume(b, chain)
    ensures |SectorsOf(b, chain)| == Base(b, |chain|)
  {
  }

  lemma ClusterAt(b: Bpb, chain: seq<nat>, i: nat)
    requires OnVolume(b, chain) && i < |chain|
    ensures Widths(b) && IsValidFat32Bpb(b) && IsCluster(b, chain[i])
    ensures RunAt(b, chain[i], SectorsOf(b, chain), Base(b, i)) && Base(b, i + 1) == Base(b, i) + b.sectorPerCluster
  {
    SectorsPlaced(b, chain, i);
    BaseNext(b, i);
  }

  class FatFile {
    const fat: FileAllocTable
    const bpb: Bpb
    var clusters: seq<nat>
    var dataLen: nat

    ghost predicate Valid()
      reads this, fat
    {
      && fat.Valid() && OnVolume(bpb, clusters) && IsChain(fat.entries, clusters)
      && dataLen <= |clusters| * BytesPerCluster()
    }

    constructor (fat: FileAllocTable, bpb: Bpb, clusters: seq<nat>, dataLen: nat)
      ensures this.fat == fat && this.bpb == bpb && this.clusters == clusters && this.dataLen == dataLen
    {
      this.fat, this.bpb, this.clusters, this.dataLen := fat, bpb, clusters, dataLen;
    }

    /** Open a file whose first cluster and size a directory entry gives. */
    static method FromDirEntry(fat: FileAllocTable, bpb: Bpb, first: nat, size: nat, ghost chain: seq<nat>) returns (f: FatFile)
      requires fat.Valid() && OnVolume(bpb, chain)
      requires if first < RESERVED_FAT_ENTRY_COUNT then chain == [] else IsChain(fat.entries, chain) && chain != [] && chain[0] == first
      requires size <= |chain| * bpb.sectorPerCluster * SECTOR_SIZE
      ensures fresh(f) && f.Valid() && f.fat == fat && f.bpb == bpb && f.clusters == chain && f.dataLen == size
    {
      var clusters := fat.ClusterChain(first, chain);
      f := new FatFile(fat, bpb, clusters, size);
      assert |chain| * bpb.sectorPerCluster * SECTOR_SIZE == |chain| * f.BytesPerCluster();
    }

    /** A new file has one cluster that was free; there is none exactly when the volume is full. */
    static method Create(fat: FileAllocTable, bpb: Bpb) returns (r: Option<FatFile>)
      requires fat.Valid() && Widths(bpb) && IsValidFat32Bpb(bpb) && fat.dataClusters == DataClusters(bpb)
      modifies fat
      ensures fat.Valid() && (old(fat.Exact()) ==> fat.Exact())
      ensures r.None? <==> FreeSet(old(fat.entries)) == {}
      ensures r.None? ==> fat.entries == old(fat.entries)
      ensures r.Some? ==>
                && fresh(r.value) && r.value.fat == fat && r.value.Valid() && r.value.dataLen == 0
                && |r.value.clusters| == 1 && IsFree(old(fat.entries), r.value.clusters[0])
                && fat.entries == Allocated(old(fat.entries), None, r.value.clusters[0])
    {
      var c := fat.AllocCluster(None);
      if c.None? {
        return None;
      }
      assert c.value in FreeSet(old(fat.entries));
      AllocatedChain(old(fat.entries), [], c.value);
      assert [] + [c.value] == [c.value];
      var f := new FatFile(fat, bpb, [c.value], 0);
      r := Some(f);
    }

    function BytesPerCluster(): nat { bpb.sectorPerCluster * SECTOR_SIZE }

    ghost function Sectors(): seq<nat>
      requires OnVolume(bpb, clusters)
      reads this
    {
      SectorsOf(bpb, clusters)
    }

    /** Read a page: the bytes of the chain's sectors from the page's first sector on, clipped to the
        end of the chain. The rest of the buffer stays. */
    method ReadPage(disk: nat -> Sector, page: array<Byte>, pageId: nat) returns (n: nat)
      requires Valid() && page.Length == PAGE_SIZE
      modifies page
      ensures n == Clipped(SectorIndex(pageId), |Sectors()|) * SECTOR_SIZE
      ensures n > 0 ==> SectorIndex(pageId) * SECTOR_SIZE + n <= |ChainBytes(disk, bpb, clusters)|
      ensures n > 0 ==> page[..n] == ChainBytes(disk, bpb, clusters)[SectorIndex(pageId) * SECTOR_SIZE..SectorIndex(pageId) * SECTOR_SIZE + n]
      ensures page[n..] == old(page[n..])
    {
      var (clusterIndex, sectorOffset) := PageIdToClusterPos(bpb.sectorPerCluster, pageId);
      ghost var k, ids := SectorIndex(pageId), Sectors();
      PositionOf(bpb.sectorPerCluster, k, |clusters|);
      n := 0;
      if clusterIndex < |clusters| {
        var sectorCount := ReadFrom(disk, page, clusterIndex, sectorOffset, ids, k);
        ReadSlice(disk, ids, k, k + sectorCount, page[..], old(page[..]));
        n := sectorCount * SECTOR_SIZE;
      }
    }

    /** From the `offset`-th sector of cluster `first` on, until the page is full or the chain ends. */
    method ReadFrom(disk: nat -> Sector, page: array<Byte>, first: nat, offset: nat, ghost ids: seq<nat>, ghost k: nat)
      returns (sectorCount: nat)
      requires OnVolume(bpb, clusters) && page.Length == PAGE_SIZE && first < |clusters| && offset < bpb.sectorPerCluster
      requires ids == Sectors() && k == Base(bpb, first) + offset && k < |ids|
      modifies page
      ensures sectorCount == Clipped(k, |ids|)
      ensures Reading(disk, ids, k, sectorCount, page, old(page[..]))
    {
      hide Reading, RunAt, SectorsOf, Base, IsValidFat32Bpb, Widths, IsCluster, OnVolume;
      AllSectors(bpb, clusters);
      var clusterIndex: nat, sectorOffset: nat := first, offset;
      sectorCount := 0;
      ReadStarts(disk, ids, k, page);
      while clusterIndex < |clusters|
        invariant clusterIndex <= |clusters| && sectorOffset < bpb.sectorPerCluster && sectorCount < SECTOR_COUNT_PER_PAGE
        invariant k + sectorCount == Base(bpb, clusterIndex) + sectorOffset
        invariant clusterIndex == |clusters| ==> sectorOffset == 0
        invariant Reading(disk, ids, k, sectorCount, page, old(page[..]))
        decreases |clusters| - clusterIndex
      {
        ClusterAt(bpb, clusters, clusterIndex);
        var full;
        sectorCount, full := ReadCluster(disk, page, clusters[clusterIndex], sectorOffset, sectorCount, ids,
                                         Base(bpb, clusterIndex), k, old(page[..]));
        if full {
          return;
        }
        clusterIndex := clusterIndex + 1;
        sectorOffset := 0;
      }
    }

    /** The sectors of one cluster, from `offset` on, until the page is full. */
    method ReadCluster(disk: nat -> Sector, page: array<Byte>, c: nat, offset: nat, have: nat, ghost ids: seq<nat>,
                       ghost base: nat, ghost k: nat, ghost before: seq<Byte>) returns (sectorCount: nat, full: bool)
      requires Widths(bpb) && IsValidFat32Bpb(bpb) && IsCluster(bpb, c) && page.Length == PAGE_SIZE
      requires RunAt(bpb, c, ids, base)
      requires offset < bpb.sectorPerCluster && have < SECTOR_COUNT_PER_PAGE && k + have == base + offset
      requires Reading(disk, ids, k, have, page, before)
      modifies page
      ensures Reading(disk, ids, k, sectorCount, page, before)
      ensures full ==> sectorCount == SECTOR_COUNT_PER_PAGE && k + sectorCount <= |ids|
      ensures !full ==> sectorCount < SECTOR_COUNT_PER_PAGE && k + sectorCount == base + bpb.sectorPerCluster
    {
      hide Reading, RunAt, Widths, IsValidFat32Bpb, IsCluster, ClusterSectors;
      ClusterLength(bpb, c);
      var (start, end) := ClusterSectors(bpb, c);
      var sector := start + offset;
      sectorCount := have;
      full := false;
      while sector < end
        invariant start + offset <= sector <= end && sectorCount < SECTOR_COUNT_PER_PAGE
        invariant k + sectorCount == base + (sector - start)
        invariant Reading(disk, ids, k, sectorCount, page, before)
      {
        SectorRunAt(bpb, c, ids, base, sector - start);
        ReadSector(disk, page, sector, sectorCount, ids, k, before);
        sectorCount := sectorCount + 1;
        if sectorCount >= SECTOR_COUNT_PER_PAGE {
          full := true;
          return;
        }
        sector := sector + 1;
      }
    }

    /** Drop the clusters behind the new end. The kernel stops when the link before them is not bare. */
    method Truncate(len: nat) returns (ok: bool)
      requires Valid() && len <= dataLen
      modifies this, fat
      ensures ok ==> Valid() && dataLen == len && clusters <= old(clusters)
      ensures ok && len < old(dataLen) ==> |clusters| == Ceil(len, BytesPerCluster())
      ensures ok && len == old(dataLen) ==> clusters == old(clusters)
      ensures ok && |clusters| == |old(clusters)| ==> fat.entries == old(fat.entries)
      ensures ok && |clusters| < |old(clusters)| ==>
                fat.entries == Freed(old(fat.entries), old(clusters)[|clusters|..], Before(old(clusters), |clusters|))
      ensures old(fat.Exact()) && ok ==> fat.Exact()
      ensures !ok ==> clusters == old(clusters) && dataLen == old(dataLen) && fat.entries == old(fat.entries)
      ensures ok <==> len == old(dataLen) || var n := Ceil(len, BytesPerCluster());
                                             n == 0 || n == |old(clusters)| || CleanLink(old(fat.entries), old(clusters), n - 1)
    {
      hide Ceil, IsValidFat32Bpb, Widths, OnVolume, IsChain, InRange, Distinct, IsFree, FreeSet, Zeroed;
      if len == dataLen {
        return true;
      }
      var n := Ceil(len, BytesPerCluster());
      CeilFits(len, dataLen, BytesPerCluster(), |clusters|);
      CutOff(bpb, fat.entries, clusters, n);
      ok := fat.FreeClusters(clusters[n..], Before(clusters, n));
      if ok {
        clusters := clusters[..n];
        dataLen := len;
      }
    }
  }

  lemma TopBitsChain(bpb: Bpb, entries: seq<nat>)
    requires bpb == Bpb(512, 1, 32, 1, 0, 0, 0, 70_000, 520, 0, 2, 1) && |entries| == 69_450
    requires entries[2] == 0x1000_0003 && entries[3] == END_OF_CHAIN
    ensures OnVolume(bpb, [2, 3]) && IsChain(entries, [2, 3]) && !CleanLink(entries, [2, 3], 0)
  {
  }

  /** A link whose top bits are set leads a reader on from cluster 2 to 3, and stops the truncation between them. */
  method TopBitsStopTruncate() returns (ok: bool)
    ensures !ok
  {
    var bpb := Bpb(512, 1, 32, 1, 0, 0, 0, 70_000, 520, 0, 2, 1);
    var entries := seq(69_450, i => if i == 2 then 0x1000_0003 else END_OF_CHAIN);
    TopBitsChain(bpb, entries);
    hide OnVolume, IsChain, CleanLink;
    var fat := new FileAllocTable(69_448, entries, 0, 2);
    var f := FatFile.FromDirEntry(fat, bpb, 2, 1000, [2, 3]);
    ok := f.Truncate(512);
  }

  function Ceil(x: nat, k: nat): nat
    requires k > 0
  {
    if x % k == 0 then x / k else x / k + 1
  }

  /** The clusters kept hold the new length, one fewer would not, and they were there. */
  lemma CeilFits(len: nat, old_len: nat, k: nat, n: nat)
    requires k > 0 && len <= old_len <= n * k
    ensures Ceil(len, k) <= n && len <= Ceil(len, k) * k
    ensures len > 0 ==> (Ceil(len, k) - 1) * k < len
  {
    var q := len / k;
    assert (q + 1) * k == q * k + k;
    if q >= n { Scaled(n, q, k); }
  }

  lemma SectorRunAt(b: Bpb, c: nat, ids: seq<nat>, base: nat, i: nat)
    requires RunAt(b, c, ids, base) && i < b.sectorPerCluster
    ensures base + i < |ids| && ids[base + i] == ClusterSectors(b, c).0 + i
  {
    assert ids[base..base + b.sectorPerCluster][i] == SectorRun(b, c)[i];
  }

  /** Sector `k` of a file lies in the cluster and at the offset the division gives. */
  lemma PositionOf(spc: nat, k: nat, n: nat)
    requires spc > 0
    ensures k == k / spc * spc + k % spc && (k / spc < n <==> k < n * spc)
  {
    InRow(spc, k, n, k / spc, k % spc);
  }

  lemma InRow(spc: nat, k: nat, n: nat, q: nat, r: nat)
    requires r < spc && k == q * spc + r
    ensures q < n <==> k < n * spc
  {
    Successor(q, spc);
    if q < n { Scaled(q + 1, n, spc); } else { Scaled(n, q, spc); }
  }

  /** The buffer with the sector written at `at`. */
  method WriteSector(page: array<Byte>, at: nat, sector: Sector)
    requires at + SECTOR_SIZE <= page.Length
    modifies page
    ensures page[..] == WithSector(old(page[..]), at, sector)
  {
    forall i | 0 <= i < SECTOR_SIZE {
      page[at + i] := sector[i];
    }
  }
}
