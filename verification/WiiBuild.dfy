/** Building a Wii disk from a library, and what a driver that follows its FAT reads back. */
module WiiBuild {
  import opened Basics
  import opened Bytes
  import opened WiiGeometry
  import opened WiiFat
  import opened WiiLayout
  import opened WiiDisk
  import opened FatBoot
  import opened FatDirectory
  import opened FatInfo
  import opened WiiRecords
  import L = LongNames

  /** The first sectors of the disk and of its partition, the information sector, and the two directories. */
  datatype Records = Records(mbr: seq<byte>, boot: seq<byte>, info: seq<byte>, root: seq<byte>, directory: seq<byte>)

  datatype Result =
    | Built(disk: Disk, geometry: Geometry, files: seq<VirtualFile>, records: Records)
    | CatalogRequired
    | Refused(choice: Choice)
    | AllocationMismatch
    | ExtentGap

  /** Sector `i` of a region, zero-filled beyond its data. */
  function SectorOf(data: seq<byte>, i: nat): (s: seq<byte>)
    ensures |s| == SECTOR_SIZE
  {
    seq<byte>(SECTOR_SIZE, k requires 0 <= k < SECTOR_SIZE =>
      if i * SECTOR_SIZE + k < |data| then data[i * SECTOR_SIZE + k] else 0)
  }

  function WbfsEntries(files: seq<VirtualFile>): int { 2 + 2 * |files| }

  // ---- Allocation ----

  /** Clusters of the first files, one by one. */
  lemma {:induction false} ClustersStep(files: seq<VirtualFile>, clusterSize: int, i: nat)
    requires clusterSize > 0 && i < |files|
    ensures ClustersOf(files[..i + 1], clusterSize)
      == ClustersOf(files[..i], clusterSize) + ClustersForBytes(files[i].length, clusterSize)
  {
    if i == 0 {
      assert files[..1] == [files[0]];
    } else {
      ClustersStep(files[1..], clusterSize, i - 1);
      assert files[..i + 1][1..] == files[1..][..i];
      assert files[..i][1..] == files[1..][..i - 1];
    }
  }

  /** Geometry selection and chain building count the same clusters. */
  lemma {:induction false} SameClusters(files: seq<VirtualFile>, clusterSize: int)
    requires clusterSize > 0
    ensures DataClusters(Lengths(files), clusterSize) == ClustersOf(files, clusterSize)
    decreases |files|
  {
    if files != [] {
      var n := |files| - 1;
      SameClusters(files[..n], clusterSize);
      assert Lengths(files)[..n] == Lengths(files[..n]);
      ClustersStep(files, clusterSize, n);
      assert files[..n + 1] == files;
    }
  }

  lemma {:induction false} ClustersGrow(files: seq<VirtualFile>, clusterSize: int, i: nat)
    requires clusterSize > 0 && i <= |files|
    ensures ClustersOf(files[..i], clusterSize) <= ClustersOf(files, clusterSize)
    decreases |files| - i
  {
    if i < |files| {
      ClustersStep(files, clusterSize, i);
      ClustersGrow(files, clusterSize, i + 1);
    } else {
      assert files[..i] == files;
    }
  }

  /** The first cluster of file `i`: after the reserved numbers, the root and the WBFS directory. */
  function FirstCluster(g: Geometry, files: seq<VirtualFile>, i: nat): (c: nat)
    requires g.clusterSize > 0 && g.wbfsDirClusters > 0 && i <= |files|
    ensures c >= 4
  {
    3 + g.wbfsDirClusters + ClustersOf(files[..i], g.clusterSize)
  }

  /** The run of table entry list position `i`: root, directory, then the files. */
  function Run(g: Geometry, files: seq<VirtualFile>, i: nat): Chain
    requires g.clusterSize > 0 && g.wbfsDirClusters > 0 && i < |files| + 2
  {
    if i == 0 then Chain(2, 1)
    else if i == 1 then Chain(3, g.wbfsDirClusters)
    else Chain(FirstCluster(g, files, i - 2), ClustersForBytes(files[i - 2].length, g.clusterSize))
  }

  /** The first `n` runs of the layout. */
  ghost predicate Runs(chains: seq<Chain>, g: Geometry, files: seq<VirtualFile>, n: nat)
    requires g.clusterSize > 0 && g.wbfsDirClusters > 0
  {
    |chains| == n <= |files| + 2 && forall i :: 0 <= i < n ==> chains[i] == Run(g, files, i)
  }

  /** Each run starts where the one before it ends. */
  lemma RunsAdjoin(g: Geometry, files: seq<VirtualFile>, i: nat)
    requires g.clusterSize > 0 && g.wbfsDirClusters > 0 && i + 1 < |files| + 2
    ensures Run(g, files, i).End() == Run(g, files, i + 1).first
  {
    if i >= 2 {
      ClustersStep(files, g.clusterSize, i - 2);
    } else if i == 1 {
      assert files[..0] == [];
    }
  }

  lemma {:induction false} RunsAscend(g: Geometry, files: seq<VirtualFile>, i: nat, j: nat)
    requires g.clusterSize > 0 && g.wbfsDirClusters > 0 && i < j < |files| + 2
    ensures Run(g, files, i).End() <= Run(g, files, j).first
    decreases j
  {
    RunsAdjoin(g, files, j - 1);
    if i < j - 1 {
      RunsAscend(g, files, i, j - 1);
    }
  }

  /** The last run ends with the allocated clusters. */
  lemma LastRunEnds(g: Geometry, files: seq<VirtualFile>, i: nat)
    requires g.clusterSize > 0 && g.wbfsDirClusters > 0 && i < |files| + 2
    ensures Run(g, files, i).End() <= FirstCluster(g, files, |files|)
  {
    assert files[..|files|] == files;
    if i >= 2 {
      ClustersStep(files, g.clusterSize, i - 2);
      ClustersGrow(files, g.clusterSize, i - 1);
    }
  }

  lemma FinalRun(g: Geometry, files: seq<VirtualFile>)
    requires g.clusterSize > 0 && g.wbfsDirClusters > 0
    ensures Run(g, files, |files| + 1).End() == FirstCluster(g, files, |files|)
  {
    if files != [] {
      ClustersStep(files, g.clusterSize, |files| - 1);
    }
  }

  ghost predicate FromCandidate(g: Geometry, files: seq<VirtualFile>) {
    && g.sectorsPerCluster in SECTORS_PER_CLUSTER
    && g == Candidate(Lengths(files), WbfsEntries(files), g.sectorsPerCluster) && Fits(g)
  }

  /** What the rest of the build relies on. */
  ghost predicate Regular(g: Geometry, files: seq<VirtualFile>) {
    && g.sectorsPerCluster in SECTORS_PER_CLUSTER && g.clusterSize == SECTOR_SIZE * g.sectorsPerCluster
    && g.wbfsDirClusters > 0 && g.fatSectors > 0 && g.firstData == RESERVED_SECTORS + 2 * g.fatSectors
    && g.allocatedClusters == 1 + g.wbfsDirClusters + ClustersOf(files, g.clusterSize)
    && g.freeClusters == g.totalClusters - g.allocatedClusters >= 1 && g.totalClusters <= 0x0fff_ffee
    && (g.totalClusters + 2) * 4 <= g.fatSectors * SECTOR_SIZE
  }

  /** The directory's clusters hold its entries, sizes in sectors fit 32 bits, and the last cluster ends the disk. */
  ghost predicate Sized(g: Geometry, files: seq<VirtualFile>) {
    && WbfsEntries(files) * 32 <= g.wbfsDirClusters * g.clusterSize
    && g.fatSectors < g.partSectors < 0x1_0000_0000 && g.diskSectors == PARTITION_START + g.partSectors
    && g.diskSectors * SECTOR_SIZE == FirstData(g) + g.totalClusters * g.clusterSize <= 0x1_0000_0000 * SECTOR_SIZE
  }

  lemma CandidateIsRegular(g: Geometry, files: seq<VirtualFile>)
    requires FromCandidate(g, files)
    ensures Regular(g, files) && Sized(g, files)
  {
    SameClusters(files, g.clusterSize);
    GeometrySound(Lengths(files), WbfsEntries(files), g.sectorsPerCluster);
  }

  lemma AllocationMatches(g: Geometry, files: seq<VirtualFile>)
    requires Regular(g, files)
    ensures FirstCluster(g, files, |files|) == 2 + g.allocatedClusters <= 0x0fff_fff0
  {
    assert files[..|files|] == files;
  }

  /** Runs of non-empty files are ordered and within the format's cluster numbers. */
  lemma RunsOrdered(chains: seq<Chain>, g: Geometry, files: seq<VirtualFile>)
    requires Regular(g, files) && Runs(chains, g, files, |files| + 2)
    requires forall i :: 0 <= i < |files| ==> GoodFile(files[i])
    ensures Ordered(chains)
  {
    AllocationMatches(g, files);
    forall i | 0 <= i < |chains| ensures chains[i].first >= 2 && chains[i].count > 0 && chains[i].End() <= 0x0fff_fff0 {
      LastRunEnds(g, files, i);
      assert i >= 2 ==> GoodFile(files[i - 2]);
    }
    forall i, j | 0 <= i < j < |chains| ensures chains[i].End() <= chains[j].first {
      RunsAscend(g, files, i, j);
    }
  }

  /** Hands out runs of clusters in order, and checks the total against the geometry. */
  method AllocateRuns(g: Geometry, files: seq<VirtualFile>) returns (chains: seq<Chain>, matches: bool)
    requires Regular(g, files) && forall i :: 0 <= i < |files| ==> GoodFile(files[i])
    ensures matches && Ordered(chains) && Runs(chains, g, files, |files| + 2)
  {
    chains := [Chain(2, 1)];
    var next := 3;
    chains := chains + [Chain(next, g.wbfsDirClusters)];
    next := next + g.wbfsDirClusters;
    var n := 0;
    assert files[..0] == [];
    while n < |files|
      invariant 0 <= n <= |files| && Runs(chains, g, files, n + 2)
      invariant next == FirstCluster(g, files, n)
    {
      var count := (files[n].length + g.clusterSize - 1) / g.clusterSize;
      assert GoodFile(files[n]);
      RoundUpAgrees(files[n].length, g.clusterSize);
      ClustersStep(files, g.clusterSize, n);
      if count > 0 { chains := chains + [Chain(next, count)]; }
      next, n := next + count, n + 1;
    }
    AllocationMatches(g, files);
    RunsOrdered(chains, g, files);
    matches := next == 2 + g.allocatedClusters;
  }

  // ---- Extents ----

  /** Maps one file, piece by piece, and pads it to the cluster boundary. */
  method MapFile(before: seq<Extent>, f: VirtualFile, fileStart: int, clusterSize: int) returns (r: Extents)
    requires clusterSize > 0 && GoodFile(f)
    ensures r == Append(before, FileExtents(f, fileStart, clusterSize))
  {
    var extents := before;
    var remaining, gameOffset := f.length, f.off;
    while remaining > 0
      invariant remaining >= 0 && gameOffset + remaining == f.off + f.length
      invariant Append(extents, Pieces(f.game.sources, gameOffset, remaining, fileStart + gameOffset - f.off))
        == Append(before, Pieces(f.game.sources, f.off, f.length, fileStart))
    {
      var i := Locate(f.game.sources, gameOffset);
      if i == |f.game.sources| { return Gap; }
      var source := f.game.sources[i];
      var sourceOffset := gameOffset - source.offset;
      var n := remaining;
      var available := source.length - sourceOffset;
      if n > available { n := available; }
      var piece := Mapped(fileStart + gameOffset - f.off, n, source, sourceOffset);
      AppendStep(extents, piece,
        Pieces(f.game.sources, gameOffset + n, remaining - n, fileStart + gameOffset + n - f.off));
      extents := extents + [piece];
      gameOffset, remaining := gameOffset + n, remaining - n;
    }
    var padding := (f.length + clusterSize - 1) / clusterSize * clusterSize - f.length;
    RoundUpAgrees(f.length, clusterSize);
    ghost var pieces := Pieces(f.game.sources, f.off, f.length, fileStart);
    assert extents + [] == extents == before + pieces.extents;
    AppendStepEnd(before, pieces.extents, Padding(f, fileStart, clusterSize));
    if padding > 0 { extents := extents + [Zero(fileStart + f.length, padding)]; }
    r := Laid(extents);
  }

  lemma AppendStep(extents: seq<Extent>, piece: Extent, rest: Extents)
    ensures Append(extents + [piece], rest) == Append(extents, Append([piece], rest))
  {
    if rest.Laid? {
      ConcatAssociates(extents, [piece], rest.extents);
    }
  }

  lemma AppendStepEnd(a: seq<Extent>, b: seq<Extent>, c: seq<Extent>)
    ensures (a + b) + c == a + (b + c)
    ensures (a + b) + [] == a + b
  {
  }

  lemma AppendTwice(a: seq<Extent>, b: seq<Extent>, rest: Extents)
    ensures Append(a, Append(b, rest)) == Append(a + b, rest)
  {
    if rest.Laid? {
      ConcatAssociates(a, b, rest.extents);
    }
  }

  /** Maps all files, each from the cluster after the one before. */
  method MapFiles(g: Geometry, files: seq<VirtualFile>, firstSector: int) returns (r: Extents)
    requires Regular(g, files) && forall i :: 0 <= i < |files| ==> GoodFile(files[i])
    ensures r == AllExtents(files, firstSector * SECTOR_SIZE, g.clusterSize)
  {
    var extents: seq<Extent> := [];
    var cursor, n := firstSector, 0;
    assert files[0..] == files;
    ghost var all := AllExtents(files, firstSector * SECTOR_SIZE, g.clusterSize);
    AppendNothing(all);
    while n < |files|
      invariant 0 <= n <= |files|
      invariant Append(extents, AllExtents(files[n..], cursor * SECTOR_SIZE, g.clusterSize)) == all
    {
      assert files[n..][0] == files[n] && files[n..][1..] == files[n + 1..];
      assert GoodFile(files[n]);
      ghost var rest := files[n + 1..];
      var count := (files[n].length + g.clusterSize - 1) / g.clusterSize;
      RoundUpAgrees(files[n].length, g.clusterSize);
      CursorAdvances(cursor, count, g);
      var fileStart := cursor * SECTOR_SIZE;
      cursor := cursor + count * g.sectorsPerCluster;
      AppendTwiceFile(extents, files[n], fileStart, g.clusterSize,
        AllExtents(rest, cursor * SECTOR_SIZE, g.clusterSize));
      var next := MapFile(extents, files[n], fileStart, g.clusterSize);
      if next == Gap { return Gap; }
      extents, n := next.extents, n + 1;
    }
    assert extents + [] == extents;
    r := Laid(extents);
  }

  lemma AppendNothing(all: Extents)
    ensures Append([], all) == all
  {
    if all.Laid? {
      assert [] + all.extents == all.extents;
    }
  }

  lemma CursorAdvances(cursor: int, count: int, g: Geometry)
    requires g.clusterSize == SECTOR_SIZE * g.sectorsPerCluster
    ensures (cursor + count * g.sectorsPerCluster) * SECTOR_SIZE == cursor * SECTOR_SIZE + count * g.clusterSize
  {
    assert count * (SECTOR_SIZE * g.sectorsPerCluster) == count * g.sectorsPerCluster * SECTOR_SIZE;
  }

  lemma AppendTwiceFile(extents: seq<Extent>, f: VirtualFile, fileStart: int, clusterSize: int, rest: Extents)
    requires clusterSize > 0
    ensures match FileExtents(f, fileStart, clusterSize)
      case Gap => Append(extents, FileExtents(f, fileStart, clusterSize)) == Gap
      case Laid(es) => Append(extents, Append(es, rest)) == Append(extents + es, rest)
  {
    if FileExtents(f, fileStart, clusterSize).Laid? {
      AppendTwice(extents, FileExtents(f, fileStart, clusterSize).extents, rest);
    }
  }

  // ---- Metadata ----

  function Region(first: int, count: int, data: seq<byte>): map<int, seq<byte>>
    decreases count
  {
    if count <= 0 then map[] else Region(first, count - 1, data)[first + count - 1 := SectorOf(data, count - 1)]
  }

  lemma {:induction false} RegionSectors(first: int, count: int, data: seq<byte>)
    ensures forall s :: s in Region(first, count, data) <==> first <= s < first + count
    ensures forall s :: s in Region(first, count, data) ==> Region(first, count, data)[s] == SectorOf(data, s - first)
    decreases count
  {
    if count > 0 {
      RegionSectors(first, count - 1, data);
    }
  }

  function BootSectors(r: Records): map<int, seq<byte>> {
    map[0 := SectorOf(r.mbr, 0), PARTITION_START := SectorOf(r.boot, 0), PARTITION_START + 6 := SectorOf(r.boot, 0),
        PARTITION_START + 1 := SectorOf(r.info, 0), PARTITION_START + 7 := SectorOf(r.info, 0)]
  }

  /** The information sector: how many clusters are free, and where the first of them is. */
  function Info(g: Geometry): (s: seq<byte>)
    ensures |s| == SECTOR_SIZE
  {
    if g.freeClusters < 0 || g.allocatedClusters < 0 then Zeros(SECTOR_SIZE)
    else FsInfo(g.freeClusters, 2 + g.allocatedClusters)
  }

  /** Conversion to an unsigned 32-bit number. */
  function Uint32(v: int): nat { v % 0x1_0000_0000 }

  /** The identity of the disk: the first word of its digest, and never zero. */
  function Signature(digest: nat): nat { if digest == 0 then 0x5742_4d53 else digest }

  /** What the WBFS directory lists. */
  function ListedFiles(g: Geometry, files: seq<VirtualFile>, hash: Name -> nat): (listed: seq<Listed>)
    requires g.clusterSize > 0 && g.wbfsDirClusters > 0
    ensures |listed| == |files|
  {
    seq(|files|, i requires 0 <= i < |files| =>
      Listed(NameOf(files[i]), AliasOf(files[i], hash), FirstCluster(g, files, i), Uint32(files[i].length)))
  }

  function BootOf(g: Geometry, signature: nat): Boot {
    Boot(Uint32(g.sectorsPerCluster), Uint32(g.partSectors), Uint32(g.fatSectors), 2, signature, VOLUME_NAME)
  }

  /** The records hold these bytes. */
  ghost predicate Rendered(r: Records, g: Geometry, listed: seq<Listed>, signature: nat) {
    && r.mbr == MbrSector(PARTITION_START, Uint32(g.partSectors), signature)
    && r.boot == BootSector(BootOf(g, signature)) && r.info == Info(g)
    && r.root == L.Flatten(RootEntries()) && r.directory == L.Flatten(DirectoryEntries(listed, |listed|))
  }

  method Render(g: Geometry, files: seq<VirtualFile>, hash: Name -> nat, signature: nat)
    returns (r: Records)
    requires g.clusterSize > 0 && g.wbfsDirClusters > 0
    ensures Rendered(r, g, ListedFiles(g, files, hash), signature)
  {
    var directory := MakeDirectory(ListedFiles(g, files, hash));
    r := Records(MbrSector(PARTITION_START, Uint32(g.partSectors), signature), BootSector(BootOf(g, signature)),
      Info(g), L.Flatten(RootEntries()), directory);
  }

  /** Boot records, their backups and the two directories. */
  function Metadata(g: Geometry, r: Records): map<int, seq<byte>> {
    BootSectors(r) + RootSectors(g, r) + DirectorySectors(g, r)
  }

  function RootSectors(g: Geometry, r: Records): map<int, seq<byte>> {
    Region(PARTITION_START + g.firstData, g.sectorsPerCluster, r.root)
  }

  function DirectorySectors(g: Geometry, r: Records): map<int, seq<byte>> {
    Region(PARTITION_START + g.firstData + g.sectorsPerCluster, g.wbfsDirClusters * g.sectorsPerCluster, r.directory)
  }

  method PutRegion(before: map<int, seq<byte>>, first: int, count: int, data: seq<byte>)
    returns (m: map<int, seq<byte>>)
    ensures m == before + Region(first, count, data)
  {
    m := before;
    var i := 0;
    while i < count
      invariant 0 <= i && (i <= count || i == 0)
      invariant m == before + Region(first, i, data)
    {
      m, i := m[first + i := SectorOf(data, i)], i + 1;
    }
  }

  method PutMetadata(g: Geometry, r: Records) returns (metadata: map<int, seq<byte>>)
    ensures metadata == Metadata(g, r)
  {
    metadata := map[0 := SectorOf(r.mbr, 0),
                    PARTITION_START := SectorOf(r.boot, 0), PARTITION_START + 6 := SectorOf(r.boot, 0),
                    PARTITION_START + 1 := SectorOf(r.info, 0), PARTITION_START + 7 := SectorOf(r.info, 0)];
    var data := PARTITION_START + g.firstData;
    metadata := PutRegion(metadata, data, g.sectorsPerCluster, r.root);
    metadata := PutRegion(metadata, data + g.sectorsPerCluster, g.wbfsDirClusters * g.sectorsPerCluster, r.directory);
  }

  function PayloadSector(g: Geometry): int {
    PARTITION_START + g.firstData + g.sectorsPerCluster + g.wbfsDirClusters * g.sectorsPerCluster
  }

  // ---- The disk ----

  /** The disk that the geometry, the runs, the extents and the records describe. */
  ghost predicate DiskFor(d: Disk, g: Geometry, files: seq<VirtualFile>, records: Records) {
    && Regular(g, files) && Sized(g, files) && (forall i :: 0 <= i < |files| ==> GoodFile(files[i]))
    && d.size == g.diskSectors * SECTOR_SIZE && d.sectorsPerCluster == g.sectorsPerCluster
    && d.fatStart == PARTITION_START + RESERVED_SECTORS && d.fatSectors == g.fatSectors
    && d.metadata == Metadata(g, records)
    && Ordered(d.chains) && Runs(d.chains, g, files, |files| + 2)
    && AllExtents(files, PayloadSector(g) * SECTOR_SIZE, g.clusterSize) == Laid(d.extents)
  }

  ghost predicate AllContiguous(games: seq<Game>) {
    forall i :: 0 <= i < |games| ==> Contiguous(games[i])
  }

  ghost predicate FirstFitting(g: Geometry, files: seq<VirtualFile>) {
    exists i :: FirstFit(Lengths(files), WbfsEntries(files), i, g)
  }

  ghost predicate NothingFits(files: seq<VirtualFile>) {
    var candidates := Candidates(Lengths(files));
    forall i :: 0 <= i < |candidates| ==> !Fits(Candidate(Lengths(files), WbfsEntries(files), candidates[i]))
  }

  method ChooseGeometry(files: seq<VirtualFile>) returns (choice: Choice)
    requires forall i :: 0 <= i < |files| ==> GoodFile(files[i])
    ensures choice.Chosen? ==> FirstFitting(choice.geometry, files)
    ensures choice.Chosen? ==> Regular(choice.geometry, files) && Sized(choice.geometry, files)
    ensures !choice.Chosen? ==> NothingFits(files)
  {
    LengthsNotNegative(files);
    choice := SelectDiskGeometry(Lengths(files), WbfsEntries(files));
    if choice.Chosen? {
      assert FirstFitting(choice.geometry, files);
      ChosenIsCandidate(choice.geometry, files);
      CandidateIsRegular(choice.geometry, files);
    }
  }

  /**
   * Builds the disk of a library. The allocation check never fails, and contiguous sources leave no gap.
   * `hash` gives the digits of each file's short name, and `digest` begins the hash of the layout.
   */
  method Build(catalog: string, games: seq<Game>, hash: Name -> nat, digest: nat) returns (r: Result)
    ensures r == CatalogRequired <==> catalog == ""
    ensures r.Built? ==> r.files == AllSegments(games) && FirstFitting(r.geometry, r.files)
    ensures r.Built? ==> DiskFor(r.disk, r.geometry, r.files, r.records)
    ensures r.Built? ==>
      Rendered(r.records, r.geometry, ListedFiles(r.geometry, r.files, hash), Signature(digest))
    ensures r.Refused? ==> NothingFits(AllSegments(games))
    ensures r != AllocationMismatch
    ensures AllContiguous(games) ==> r != ExtentGap
  {
    if catalog == "" { return CatalogRequired; }
    var files := SplitGames(games);
    SegmentsAreGood(games);
    var choice := ChooseGeometry(files);
    if !choice.Chosen? { return Refused(choice); }
    var g := choice.geometry;
    var chains, matches := AllocateRuns(g, files);
    if !matches { return AllocationMismatch; }
    var records := Render(g, files, hash, Signature(digest));
    var metadata := PutMetadata(g, records);
    var cursor := PayloadSector(g);
    var extents := MapFiles(g, files, cursor);
    if extents == Gap {
      if AllContiguous(games) {
        NeverGap(files, cursor * SECTOR_SIZE, g.clusterSize);
      }
      return ExtentGap;
    }
    var d := Disk(g.diskSectors * SECTOR_SIZE, g.sectorsPerCluster, metadata,
                  PARTITION_START + RESERVED_SECTORS, g.fatSectors, chains, extents.extents);
    r := Built(d, g, files, records);
  }

  lemma SegmentsAreGood(games: seq<Game>)
    ensures forall i :: 0 <= i < |AllSegments(games)| ==> GoodFile(AllSegments(games)[i])
    ensures AllContiguous(games) ==> GoodFiles(AllSegments(games))
  {
    AllSegmentsGood(games);
    var files := AllSegments(games);
    forall i | 0 <= i < |files| ensures GoodFile(files[i]) && (AllContiguous(games) ==> Contiguous(files[i].game)) {
      assert files[i] in files;
    }
  }

  lemma LengthsNotNegative(files: seq<VirtualFile>)
    requires forall i :: 0 <= i < |files| ==> GoodFile(files[i])
    ensures Classify(Lengths(files), 0) != Negative
  {
    var lengths := Lengths(files);
    forall i | 0 <= i < |lengths| ensures lengths[i] >= 0 {
      assert GoodFile(files[i]);
    }
    ClassifyMeaning(lengths, 0);
  }

  lemma ChosenIsCandidate(g: Geometry, files: seq<VirtualFile>)
    requires FirstFitting(g, files)
    ensures FromCandidate(g, files)
  {
    var i :| FirstFit(Lengths(files), WbfsEntries(files), i, g);
    assert Candidates(Lengths(files))[i] in SECTORS_PER_CLUSTER;
  }

  // ---- What holds of every built disk ----

  lemma {:induction false} TiledOrder(extents: seq<Extent>, lo: int, hi: int, i: nat)
    requires Tiled(extents, lo, hi) && i < |extents|
    ensures extents[i].length > 0 && lo <= extents[i].start
    ensures extents[i].start == if i == 0 then lo else extents[i - 1].End()
    ensures forall j :: 0 <= j < i ==> extents[j].End() <= extents[i].start
  {
    if i > 0 {
      TiledOrder(extents[1..], extents[0].End(), hi, i - 1);
      forall j | 0 <= j < i ensures extents[j].End() <= extents[i].start {
        assert j > 0 ==> extents[j] == extents[1..][j - 1];
      }
    }
  }

  lemma TiledAscends(extents: seq<Extent>, lo: int, hi: int)
    requires Tiled(extents, lo, hi)
    ensures Ascending(extents) && Consecutive(extents, lo)
    ensures forall i :: 0 <= i < |extents| ==> extents[i].start >= lo
  {
    forall i | 0 <= i < |extents|
      ensures extents[i].length > 0 && lo <= extents[i].start
      ensures extents[i].start == if i == 0 then lo else extents[i - 1].End()
      ensures forall j :: 0 <= j < i ==> extents[j].End() <= extents[i].start
    {
      TiledOrder(extents, lo, hi, i);
    }
  }

  ghost predicate InSourceBounds(e: Extent) {
    e.Mapped? ==> 0 <= e.sourceOffset && e.sourceOffset + e.length <= e.source.length
  }

  lemma {:induction false} PiecesInBounds(sources: seq<Source>, gameOffset: int, remaining: int, at: int)
    requires Pieces(sources, gameOffset, remaining, at).Laid?
    ensures forall e :: e in Pieces(sources, gameOffset, remaining, at).extents ==> InSourceBounds(e)
    decreases remaining
  {
    if remaining > 0 {
      var i := Locate(sources, gameOffset);
      var n := PieceLength(sources[i], gameOffset - sources[i].offset, remaining);
      PiecesInBounds(sources, gameOffset + n, remaining - n, at + n);
    }
  }

  lemma {:induction false} AllInBounds(files: seq<VirtualFile>, start: int, clusterSize: int)
    requires clusterSize > 0 && AllExtents(files, start, clusterSize).Laid?
    ensures forall e :: e in AllExtents(files, start, clusterSize).extents ==> InSourceBounds(e)
  {
    if files != [] {
      PiecesInBounds(files[0].game.sources, files[0].off, files[0].length, start);
      AllInBounds(files[1..], start + ClustersForBytes(files[0].length, clusterSize) * clusterSize, clusterSize);
    }
  }

  lemma BuiltExtents(d: Disk, g: Geometry, files: seq<VirtualFile>, records: Records)
    requires DiskFor(d, g, files, records)
    ensures var payload := PayloadSector(g) * SECTOR_SIZE;
      && Tiled(d.extents, payload, FirstData(g) + g.allocatedClusters * g.clusterSize)
      && Ascending(d.extents) && Consecutive(d.extents, payload)
      && forall i :: 0 <= i < |d.extents| ==> GoodExtent(d.extents[i], payload)
  {
    var start := PayloadSector(g) * SECTOR_SIZE;
    assert forall i :: 0 <= i < |files| ==> GoodFile(files[i]) && files[i].length > 0;
    AllTile(files, start, g.clusterSize);
    PayloadEnds(g, files);
    TiledAscends(d.extents, start, FirstData(g) + g.allocatedClusters * g.clusterSize);
    AllInBounds(files, start, g.clusterSize);
    forall i | 0 <= i < |d.extents| ensures GoodExtent(d.extents[i], start) {
      assert InSourceBounds(d.extents[i]);
    }
  }

  /** Every built disk meets what reading relies on, and its extents tile the file clusters. */
  lemma BuiltIsWellFormed(d: Disk, g: Geometry, files: seq<VirtualFile>, records: Records)
    requires DiskFor(d, g, files, records)
    ensures WellFormed(d, PayloadSector(g) * SECTOR_SIZE)
    ensures Tiled(d.extents, PayloadSector(g) * SECTOR_SIZE, FirstData(g) + g.allocatedClusters * g.clusterSize)
  {
    BuiltExtents(d, g, files, records);
    MetadataBelow(g, files, records);
  }

  function FirstData(g: Geometry): int { (PARTITION_START + g.firstData) * SECTOR_SIZE }

  lemma PayloadEnds(g: Geometry, files: seq<VirtualFile>)
    requires Regular(g, files)
    ensures PayloadSector(g) * SECTOR_SIZE + ClustersOf(files, g.clusterSize) * g.clusterSize
      == FirstData(g) + g.allocatedClusters * g.clusterSize
  {
    Spread(1 + g.wbfsDirClusters, ClustersOf(files, g.clusterSize), g.sectorsPerCluster);
  }

  /** Products with one of the four cluster sizes are sums. */
  lemma Spread(a: int, b: int, sectorsPerCluster: int)
    requires sectorsPerCluster in SECTORS_PER_CLUSTER
    ensures (a + b) * (SECTOR_SIZE * sectorsPerCluster)
      == a * sectorsPerCluster * SECTOR_SIZE + b * (SECTOR_SIZE * sectorsPerCluster)
  {
    assert sectorsPerCluster == 8 || sectorsPerCluster == 16 || sectorsPerCluster == 32 || sectorsPerCluster == 64;
  }

  ghost predicate SectorBelow(s: int, g: Geometry) {
    && s < PayloadSector(g)
    && (s < PARTITION_START + RESERVED_SECTORS || s >= PARTITION_START + RESERVED_SECTORS + 2 * g.fatSectors)
  }

  ghost predicate Below(m: map<int, seq<byte>>, g: Geometry) {
    forall s :: s in m ==> |m[s]| == SECTOR_SIZE && SectorBelow(s, g)
  }

  lemma BootBelow(records: Records, g: Geometry)
    requires PARTITION_START + RESERVED_SECTORS <= PayloadSector(g)
    ensures Below(BootSectors(records), g)
  {
  }

  lemma BelowBoth(a: map<int, seq<byte>>, b: map<int, seq<byte>>, g: Geometry)
    requires Below(a, g) && Below(b, g)
    ensures Below(a + b, g)
  {
  }

  lemma RegionBelow(g: Geometry, first: int, count: int, data: seq<byte>)
    requires first >= PARTITION_START + RESERVED_SECTORS + 2 * g.fatSectors && first + count <= PayloadSector(g)
    ensures Below(Region(first, count, data), g)
  {
    RegionSectors(first, count, data);
  }

  lemma DirectoriesBelow(g: Geometry, files: seq<VirtualFile>, records: Records)
    requires Regular(g, files)
    ensures Below(RootSectors(g, records), g) && Below(DirectorySectors(g, records), g)
    ensures PARTITION_START + RESERVED_SECTORS + 2 * g.fatSectors <= PayloadSector(g)
  {
    NotNegative(g.wbfsDirClusters, g.sectorsPerCluster);
    RegionBelow(g, PARTITION_START + g.firstData, g.sectorsPerCluster, records.root);
    RegionBelow(g, PARTITION_START + g.firstData + g.sectorsPerCluster, g.wbfsDirClusters * g.sectorsPerCluster,
      records.directory);
  }

  lemma MetadataBelow(g: Geometry, files: seq<VirtualFile>, records: Records)
    requires Regular(g, files)
    ensures Below(Metadata(g, records), g)
    ensures PARTITION_START + RESERVED_SECTORS + 2 * g.fatSectors <= PayloadSector(g)
  {
    DirectoriesBelow(g, files, records);
    BootBelow(records, g);
    BelowBoth(BootSectors(records), RootSectors(g, records), g);
    BelowBoth(BootSectors(records) + RootSectors(g, records), DirectorySectors(g, records), g);
  }

  // ---- What a driver reads ----

  /** Where a cluster lies on the disk. */
  function ClusterStart(g: Geometry, cluster: nat): int {
    FirstData(g) + (cluster - 2) * g.clusterSize
  }

  lemma FileStartsAtCluster(g: Geometry, files: seq<VirtualFile>, i: nat, j: nat, cluster: nat)
    requires Regular(g, files) && i < |files| && cluster == FirstCluster(g, files, i) + j
    ensures FileStart(files, PayloadSector(g) * SECTOR_SIZE, g.clusterSize, i) + j * g.clusterSize
      == ClusterStart(g, cluster)
  {
    var c := ClustersOf(files[..i], g.clusterSize);
    Spread(1 + g.wbfsDirClusters, c, g.sectorsPerCluster);
    Spread(1 + g.wbfsDirClusters + c, j, g.sectorsPerCluster);
  }

  lemma FileBehindPayload(g: Geometry, files: seq<VirtualFile>, i: nat)
    requires i <= |files| && 0 <= g.wbfsDirClusters && 0 <= g.sectorsPerCluster && 0 < g.clusterSize
    requires PayloadSector(g) >= 0
    ensures FileStart(files, PayloadSector(g) * SECTOR_SIZE, g.clusterSize, i) >= PayloadSector(g) * SECTOR_SIZE >= 0
  {
    NotNegative(ClustersOf(files[..i], g.clusterSize), g.clusterSize);
  }

  /** Position `k` of file `i` holds the game's byte, or zero padding, on the flat disk. */
  lemma FileOnDisk(d: Disk, g: Geometry, files: seq<VirtualFile>, records: Records, store: Store, i: nat, k: nat,
                   pos: int)
    requires DiskFor(d, g, files, records) && i < |files| && GoodFiles(files) && AllOnline(store, files[i].game.sources)
    requires k < ClustersForBytes(files[i].length, g.clusterSize) * g.clusterSize
    requires pos == FileStart(files, PayloadSector(g) * SECTOR_SIZE, g.clusterSize, i) + k
    ensures pos >= 0 && ImageByte(d, store, pos) == FileByte(files[i], store, k)
  {
    var start := PayloadSector(g) * SECTOR_SIZE;
    BuiltIsWellFormed(d, g, files, records);
    FileBehindPayload(g, files, i);
    LaidByte(d, files, store, start, g.clusterSize, i, k, pos);
  }

  /** Where the extents are those of the files, a position of a file shows that file's byte. */
  lemma LaidByte(d: Disk, files: seq<VirtualFile>, store: Store, start: int, clusterSize: int, i: nat, k: nat, pos: int)
    requires WellFormed(d, start) && 0 <= start <= pos && clusterSize > 0
    requires AllExtents(files, start, clusterSize) == Laid(d.extents)
    requires i < |files| && GoodFiles(files) && AllOnline(store, files[i].game.sources)
    requires k < ClustersForBytes(files[i].length, clusterSize) * clusterSize
    requires pos == FileStart(files, start, clusterSize, i) + k
    ensures ImageByte(d, store, pos) == FileByte(files[i], store, k)
  {
    BehindMetadata(d, store, start, pos);
    AllContent(files, store, start, clusterSize, i, k);
  }

  lemma BehindMetadata(d: Disk, store: Store, payload: int, pos: int)
    requires WellFormed(d, payload) && pos >= payload >= 0
    ensures ImageByte(d, store, pos) == Content(d.extents, store, pos)
  {
    var sector := pos / SECTOR_SIZE;
    assert sector * SECTOR_SIZE >= payload;
    assert sector !in d.metadata && FatSectorIndex(d, sector) == None;
  }

  /** Following the table from a file's first cluster reads exactly its clusters, then the end mark. */
  lemma FollowsFile(d: Disk, g: Geometry, files: seq<VirtualFile>, records: Records, i: nat, limit: nat)
    requires DiskFor(d, g, files, records) && i < |files|
    requires limit >= ClustersForBytes(files[i].length, g.clusterSize)
    ensures ReadsRun(d.chains, Follow(d.chains, FirstCluster(g, files, i), limit),
                     FirstCluster(g, files, i), ClustersForBytes(files[i].length, g.clusterSize))
  {
    assert d.chains[i + 2] == Run(g, files, i + 2) && GoodFile(files[i]);
    FollowReadsRun(d.chains, i + 2, FirstCluster(g, files, i), limit);
  }

  lemma ClusterHolds(d: Disk, g: Geometry, files: seq<VirtualFile>, records: Records, store: Store,
                     i: nat, j: nat, b: nat, cluster: nat) returns (pos: nat)
    requires DiskFor(d, g, files, records) && i < |files| && GoodFiles(files) && AllOnline(store, files[i].game.sources)
    requires j < ClustersForBytes(files[i].length, g.clusterSize) && b < g.clusterSize
    requires cluster == FirstCluster(g, files, i) + j
    ensures pos == ClusterStart(g, cluster) + b
    ensures ImageByte(d, store, pos) == FileByte(files[i], store, j * g.clusterSize + b)
  {
    var k, at := WithinFile(g, files, i, j, b, cluster);
    FileOnDisk(d, g, files, records, store, i, k, at);
    pos := at;
  }

  lemma WithinFile(g: Geometry, files: seq<VirtualFile>, i: nat, j: nat, b: nat, cluster: nat)
    returns (k: nat, pos: int)
    requires Regular(g, files) && i < |files|
    requires j < ClustersForBytes(files[i].length, g.clusterSize) && b < g.clusterSize
    requires cluster == FirstCluster(g, files, i) + j
    ensures k == j * g.clusterSize + b < ClustersForBytes(files[i].length, g.clusterSize) * g.clusterSize
    ensures pos == ClusterStart(g, cluster) + b
      == FileStart(files, PayloadSector(g) * SECTOR_SIZE, g.clusterSize, i) + k
  {
    WithinClusters(j, b, ClustersForBytes(files[i].length, g.clusterSize), g.clusterSize);
    FileStartsAtCluster(g, files, i, j, cluster);
    k, pos := j * g.clusterSize + b, ClusterStart(g, cluster) + b;
  }

  /** Byte `b` of the j-th cluster that a driver visits is byte j * size + b of the file. */
  lemma DriverReadsFile(d: Disk, g: Geometry, files: seq<VirtualFile>, records: Records, store: Store,
                        i: nat, limit: nat, j: nat, b: nat) returns (cluster: nat, pos: nat)
    requires DiskFor(d, g, files, records) && i < |files| && GoodFiles(files) && AllOnline(store, files[i].game.sources)
    requires limit >= ClustersForBytes(files[i].length, g.clusterSize)
    requires j < ClustersForBytes(files[i].length, g.clusterSize) && b < g.clusterSize
    ensures j < |Follow(d.chains, FirstCluster(g, files, i), limit)|
    ensures cluster == Follow(d.chains, FirstCluster(g, files, i), limit)[j] && pos == ClusterStart(g, cluster) + b
    ensures ImageByte(d, store, pos) == FileByte(files[i], store, j * g.clusterSize + b)
  {
    FollowsFile(d, g, files, records, i, limit);
    cluster := FirstCluster(g, files, i) + j;
    pos := ClusterHolds(d, g, files, records, store, i, j, b, cluster);
  }

  lemma WithinClusters(j: nat, b: nat, count: nat, clusterSize: nat)
    requires j < count && b < clusterSize
    ensures 0 <= j * clusterSize + b < count * clusterSize
  {
    Scaled(j + 1, count, clusterSize);
    NotNegative(j, clusterSize);
  }

  /** A cluster is free exactly when it lies behind the allocated ones. */
  lemma FreeClusters(d: Disk, g: Geometry, files: seq<VirtualFile>, records: Records, cluster: nat)
    requires DiskFor(d, g, files, records) && cluster >= 2
    ensures FatValue(d.chains, cluster) == 0 <==> cluster >= 2 + g.allocatedClusters
  {
    AllocationMatches(g, files);
    if cluster >= 2 + g.allocatedClusters {
      forall i | 0 <= i < |d.chains| ensures !Owns(d.chains[i], cluster) {
        LastRunEnds(g, files, i);
      }
      FreeEntry(d.chains, cluster);
    } else {
      FinalRun(g, files);
      var i := OwnerOf(g, files, cluster, |files| + 1);
      OwnedEntry(d.chains, i, cluster);
    }
  }

  lemma {:induction false} OwnerOf(g: Geometry, files: seq<VirtualFile>, cluster: nat, last: nat) returns (i: nat)
    requires g.clusterSize > 0 && g.wbfsDirClusters > 0 && last < |files| + 2
    requires 2 <= cluster < Run(g, files, last).End()
    ensures i <= last && Owns(Run(g, files, i), cluster)
    decreases last
  {
    if cluster >= Run(g, files, last).first {
      i := last;
    } else {
      RunsAdjoin(g, files, last - 1);
      i := OwnerOf(g, files, cluster, last - 1);
    }
  }

  /** The zero entries of the disk's clusters are exactly the free ones. */
  lemma {:induction false} FreeEntriesCounted(d: Disk, g: Geometry, files: seq<VirtualFile>, records: Records, hi: nat)
    requires DiskFor(d, g, files, records) && hi >= 2
    ensures ZeroEntries(d.chains, 2, hi) == if hi - 2 <= g.allocatedClusters then 0 else hi - 2 - g.allocatedClusters
    decreases hi
  {
    if hi > 2 {
      FreeEntriesCounted(d, g, files, records, hi - 1);
      FreeClusters(d, g, files, records, hi - 1);
    }
  }

  lemma BeforeRegions(g: Geometry, files: seq<VirtualFile>, records: Records, s: int)
    requires Regular(g, files) && s < PARTITION_START + g.firstData
    ensures s !in RootSectors(g, records) && s !in DirectorySectors(g, records)
  {
    RegionSectors(PARTITION_START + g.firstData, g.sectorsPerCluster, records.root);
    RegionSectors(PARTITION_START + g.firstData + g.sectorsPerCluster, g.wbfsDirClusters * g.sectorsPerCluster,
      records.directory);
  }

  lemma FirstOfThree<K, V>(a: map<K, V>, b: map<K, V>, c: map<K, V>, k: K)
    requires k in a && k !in b && k !in c
    ensures k in a + b + c && (a + b + c)[k] == a[k]
  {
  }

  lemma InfoSector(g: Geometry, files: seq<VirtualFile>, records: Records)
    requires Regular(g, files)
    ensures PARTITION_START + 1 in Metadata(g, records)
    ensures Metadata(g, records)[PARTITION_START + 1] == SectorOf(records.info, 0)
  {
    BeforeRegions(g, files, records, PARTITION_START + 1);
    FirstOfThree(BootSectors(records), RootSectors(g, records), DirectorySectors(g, records), PARTITION_START + 1);
  }

  /** What the builder puts into the information sector. */
  lemma InfoFree(g: Geometry, files: seq<VirtualFile>)
    requires Regular(g, files)
    ensures FromLittleEndian(Info(g)[488..492]) == g.freeClusters
  {
    FsInfoDecodes(g.freeClusters, 2 + g.allocatedClusters);
  }

  lemma InfoOnDisk(d: Disk, g: Geometry, files: seq<VirtualFile>, records: Records, store: Store)
    requires Ordered(d.chains) && Regular(g, files) && d.metadata == Metadata(g, records)
    requires |records.info| == SECTOR_SIZE
    ensures Image(d, store, (PARTITION_START + 1) * SECTOR_SIZE + 488, 4) == records.info[488..492]
  {
    InfoSector(g, files, records);
    assert SectorOf(records.info, 0) == records.info;
    InfoRead(d, store, records.info);
  }

  /** The published free count is exact, and never one of the values that make a driver walk the table. */
  lemma FreeCountOnDisk(d: Disk, g: Geometry, files: seq<VirtualFile>, records: Records, store: Store, read: seq<byte>)
    requires DiskFor(d, g, files, records)
    requires |records.info| == SECTOR_SIZE && FromLittleEndian(records.info[488..492]) == g.freeClusters
    requires read == Image(d, store, (PARTITION_START + 1) * SECTOR_SIZE + 488, 4)
    ensures FromLittleEndian(read) == ZeroEntries(d.chains, 2, g.totalClusters + 2)
    ensures 0 < FromLittleEndian(read) < 0xffff_ffff
  {
    StoredCount(d, g, files, records, store, read);
    CountedFree(d, g, files, records);
    FreeFits(g, files);
  }

  lemma StoredCount(d: Disk, g: Geometry, files: seq<VirtualFile>, records: Records, store: Store, read: seq<byte>)
    requires DiskFor(d, g, files, records)
    requires |records.info| == SECTOR_SIZE && FromLittleEndian(records.info[488..492]) == g.freeClusters
    requires read == Image(d, store, (PARTITION_START + 1) * SECTOR_SIZE + 488, 4)
    ensures FromLittleEndian(read) == g.freeClusters
  {
    InfoOnDisk(d, g, files, records, store);
  }

  lemma CountedFree(d: Disk, g: Geometry, files: seq<VirtualFile>, records: Records)
    requires DiskFor(d, g, files, records)
    ensures ZeroEntries(d.chains, 2, g.totalClusters + 2) == g.freeClusters
  {
    FreeFits(g, files);
    FreeEntriesCounted(d, g, files, records, g.totalClusters + 2);
  }

  lemma FreeFits(g: Geometry, files: seq<VirtualFile>)
    requires Regular(g, files)
    ensures 0 < g.freeClusters < 0xffff_ffff
    ensures g.totalClusters >= g.allocatedClusters && g.freeClusters == g.totalClusters - g.allocatedClusters
  {
    NotNegative(ClustersOf(files, g.clusterSize), 1);
  }

  lemma InfoRead(d: Disk, store: Store, info: seq<byte>)
    requires Ordered(d.chains) && PARTITION_START + 1 in d.metadata && d.metadata[PARTITION_START + 1] == info
    requires |info| == SECTOR_SIZE
    ensures Image(d, store, (PARTITION_START + 1) * SECTOR_SIZE + 488, 4) == info[488..492]
  {
    var start := (PARTITION_START + 1) * SECTOR_SIZE + 488;
    forall i | 0 <= i < 4 ensures info[488..492][i] == ImageByte(d, store, start + i) {
      InfoByte(d, store, info, 488 + i);
    }
    IsImage(d, store, start, info[488..492]);
  }

  lemma InfoByte(d: Disk, store: Store, info: seq<byte>, i: nat)
    requires Ordered(d.chains) && PARTITION_START + 1 in d.metadata && d.metadata[PARTITION_START + 1] == info
    requires i < |info| == SECTOR_SIZE
    ensures ImageByte(d, store, (PARTITION_START + 1) * SECTOR_SIZE + i) == info[i]
  {
    InSectors(PARTITION_START + 1, i);
  }
}
