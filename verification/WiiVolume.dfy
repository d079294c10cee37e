/** The Wii disk from its first sector on: records, directories, mounting, and the way to every file's bytes. */
module WiiVolume {
  import opened Basics
  import opened Bytes
  import opened WiiGeometry
  import opened WiiFat
  import opened WiiLayout
  import opened WiiDisk
  import opened WiiRecords
  import opened WiiBuild
  import opened WiiDriver
  import opened FatBoot
  import opened FatDirectory
  import opened FatDriver
  import opened FatInfo
  import L = LongNames

  // ---- What the metadata sectors show ----

  /** The data, then zeros up to `size` bytes. */
  ghost predicate Fills(read: seq<byte>, data: seq<byte>, size: nat) {
    && |read| == size >= |data| && read[..|data|] == data
    && forall k :: |data| <= k < size ==> read[k] == 0
  }

  /** The disk's metadata holds a region of sectors with this data. */
  ghost predicate HoldsRegion(d: Disk, first: nat, count: nat, data: seq<byte>) {
    forall s :: first <= s < first + count ==> s in d.metadata && d.metadata[s] == SectorOf(data, s - first)
  }

  lemma RegionByte(d: Disk, store: Store, first: nat, count: nat, data: seq<byte>, k: nat)
    requires Ordered(d.chains) && HoldsRegion(d, first, count, data) && k < count * SECTOR_SIZE
    ensures ImageByte(d, store, first * SECTOR_SIZE + k) == if k < |data| then data[k] else 0
  {
    InSectors(first, k);
    var i := k / SECTOR_SIZE;
    assert i * SECTOR_SIZE <= k < count * SECTOR_SIZE;
    assert first + i in d.metadata && d.metadata[first + i] == SectorOf(data, i);
  }

  lemma RegionRead(d: Disk, store: Store, first: nat, count: nat, data: seq<byte>)
    requires Ordered(d.chains) && HoldsRegion(d, first, count, data) && |data| <= count * SECTOR_SIZE
    ensures Fills(Image(d, store, first * SECTOR_SIZE, count * SECTOR_SIZE), data, count * SECTOR_SIZE)
  {
    var read := Image(d, store, first * SECTOR_SIZE, count * SECTOR_SIZE);
    forall k | 0 <= k < |read| ensures read[k] == if k < |data| then data[k] else 0 {
      RegionByte(d, store, first, count, data, k);
    }
  }

  lemma RegionAt(d: Disk, store: Store, first: nat, count: nat, data: seq<byte>, start: int, size: int)
    requires Ordered(d.chains) && HoldsRegion(d, first, count, data)
    requires start == first * SECTOR_SIZE && size == count * SECTOR_SIZE >= |data|
    ensures Fills(Image(d, store, start, size), data, size)
  {
    RegionRead(d, store, first, count, data);
  }

  lemma SectorRead(d: Disk, store: Store, sector: nat, data: seq<byte>)
    requires Ordered(d.chains) && HoldsRegion(d, sector, 1, data) && |data| == 512
    ensures Image(d, store, sector * 512, 512) == data
  {
    RegionRead(d, store, sector, 1, data);
  }

  lemma HeldByFirst(d: Disk, a: map<int, seq<byte>>, b: map<int, seq<byte>>, c: map<int, seq<byte>>, sector: nat,
                    data: seq<byte>)
    requires d.metadata == a + b + c && sector in a && a[sector] == SectorOf(data, 0)
    requires sector !in b && sector !in c
    ensures HoldsRegion(d, sector, 1, data)
  {
    FirstOfThree(a, b, c, sector);
  }

  lemma HeldBySecond(d: Disk, a: map<int, seq<byte>>, b: map<int, seq<byte>>, c: map<int, seq<byte>>, first: nat,
                     count: nat, data: seq<byte>)
    requires d.metadata == a + b + c
    requires forall s :: first <= s < first + count ==> s in b && s !in c && b[s] == SectorOf(data, s - first)
    ensures HoldsRegion(d, first, count, data)
  {
    forall s | first <= s < first + count ensures s in d.metadata && d.metadata[s] == SectorOf(data, s - first) {
      assert s in b && s !in c;
    }
  }

  lemma HeldByThird(d: Disk, a: map<int, seq<byte>>, b: map<int, seq<byte>>, c: map<int, seq<byte>>, first: nat,
                    count: nat, data: seq<byte>)
    requires d.metadata == a + b + c
    requires forall s :: first <= s < first + count ==> s in c && c[s] == SectorOf(data, s - first)
    ensures HoldsRegion(d, first, count, data)
  {
    forall s | first <= s < first + count ensures s in d.metadata && d.metadata[s] == SectorOf(data, s - first) {
      assert s in c;
    }
  }

  lemma BootHeld(d: Disk, g: Geometry, files: seq<VirtualFile>, r: Records, sector: nat, data: seq<byte>)
    requires Regular(g, files) && d.metadata == Metadata(g, r)
    requires sector in BootSectors(r) && BootSectors(r)[sector] == SectorOf(data, 0) && sector < 2056
    ensures HoldsRegion(d, sector, 1, data)
  {
    BeforeRegions(g, files, r, sector);
    HeldByFirst(d, BootSectors(r), RootSectors(g, r), DirectorySectors(g, r), sector, data);
  }

  lemma BootSectorsAre(r: Records)
    ensures var m := BootSectors(r);
      && 0 in m && m[0] == SectorOf(r.mbr, 0) && 2048 in m && m[2048] == SectorOf(r.boot, 0)
      && 2054 in m && m[2054] == SectorOf(r.boot, 0) && 2049 in m && m[2049] == SectorOf(r.info, 0)
      && 2055 in m && m[2055] == SectorOf(r.info, 0)
  {
  }

  /** The partition table, the boot sector and the information sector read back, the latter two with their backups. */
  lemma RecordsOnDisk(d: Disk, g: Geometry, files: seq<VirtualFile>, r: Records, store: Store)
    requires Ordered(d.chains) && Regular(g, files) && d.metadata == Metadata(g, r)
    requires |r.mbr| == |r.boot| == |r.info| == 512
    ensures Image(d, store, 0, 512) == r.mbr
    ensures Image(d, store, 2048 * 512, 512) == r.boot == Image(d, store, 2054 * 512, 512)
    ensures Image(d, store, 2049 * 512, 512) == r.info == Image(d, store, 2055 * 512, 512)
  {
    BootSectorsAre(r);
    BootHeld(d, g, files, r, 0, r.mbr);
    BootHeld(d, g, files, r, 2048, r.boot);
    BootHeld(d, g, files, r, 2054, r.boot);
    BootHeld(d, g, files, r, 2049, r.info);
    BootHeld(d, g, files, r, 2055, r.info);
    SectorRead(d, store, 0, r.mbr);
    SectorRead(d, store, 2048, r.boot);
    SectorRead(d, store, 2054, r.boot);
    SectorRead(d, store, 2049, r.info);
    SectorRead(d, store, 2055, r.info);
  }

  /** Two regions, one behind the other, over some sectors before them. */
  lemma TwoRegions(d: Disk, boot: map<int, seq<byte>>, root: nat, size: nat, count: nat, a: seq<byte>, b: seq<byte>)
    requires d.metadata == boot + Region(root, size, a) + Region(root + size, count, b)
    ensures HoldsRegion(d, root, size, a) && HoldsRegion(d, root + size, count, b)
  {
    RegionSectors(root, size, a);
    RegionSectors(root + size, count, b);
    HeldBySecond(d, boot, Region(root, size, a), Region(root + size, count, b), root, size, a);
    HeldByThird(d, boot, Region(root, size, a), Region(root + size, count, b), root + size, count, b);
  }

  lemma DirectoriesHeld(d: Disk, g: Geometry, r: Records, root: nat, size: nat, count: nat)
    requires d.metadata == Metadata(g, r)
    requires root == 2048 + g.firstData && size == g.sectorsPerCluster
    requires count == g.wbfsDirClusters * g.sectorsPerCluster
    ensures HoldsRegion(d, root, size, r.root) && HoldsRegion(d, root + size, count, r.directory)
  {
    assert RootSectors(g, r) == Region(root, size, r.root);
    assert DirectorySectors(g, r) == Region(root + size, count, r.directory);
    TwoRegions(d, BootSectors(r), root, size, count, r.root, r.directory);
  }

  /** Where the directories lie, in sectors. */
  lemma DirectoryPlaces(g: Geometry, files: seq<VirtualFile>) returns (root: nat, size: nat, count: nat)
    requires Regular(g, files)
    ensures root == 2048 + g.firstData && size == g.sectorsPerCluster
    ensures count == g.wbfsDirClusters * g.sectorsPerCluster
    ensures g.clusterSize == size * 512 >= 4096 && g.wbfsDirClusters * g.clusterSize == count * 512
    ensures ClusterStart(g, 2) == root * 512 && ClusterStart(g, 3) == (root + size) * 512
  {
    NotNegative(g.wbfsDirClusters, g.sectorsPerCluster);
    root, size, count := 2048 + g.firstData, g.sectorsPerCluster, g.wbfsDirClusters * g.sectorsPerCluster;
    Spread(0, g.wbfsDirClusters, g.sectorsPerCluster);
    assert size == 8 || size == 16 || size == 32 || size == 64;
  }

  /** Cluster 2 shows the root directory, with zeros behind it. */
  lemma RootOnDisk(d: Disk, g: Geometry, files: seq<VirtualFile>, r: Records, store: Store)
    requires Ordered(d.chains) && Regular(g, files) && d.metadata == Metadata(g, r)
    requires |r.root| <= g.clusterSize
    ensures ClusterStart(g, 2) >= 0
    ensures Fills(Image(d, store, ClusterStart(g, 2), g.clusterSize), r.root, g.clusterSize)
  {
    var root, size, count := DirectoryPlaces(g, files);
    DirectoriesHeld(d, g, r, root, size, count);
    RegionAt(d, store, root, size, r.root, ClusterStart(g, 2), g.clusterSize);
  }

  /** The clusters from 3 on show the WBFS directory, with zeros behind it. */
  lemma DirectoryOnDisk(d: Disk, g: Geometry, files: seq<VirtualFile>, r: Records, store: Store, sectors: nat)
    requires Ordered(d.chains) && Regular(g, files) && d.metadata == Metadata(g, r)
    requires sectors == g.wbfsDirClusters * g.sectorsPerCluster && |r.directory| <= sectors * 512
    ensures ClusterStart(g, 3) >= 0
    ensures Fills(Image(d, store, ClusterStart(g, 3), sectors * 512), r.directory, sectors * 512)
  {
    var root, size, count := DirectoryPlaces(g, files);
    ShownBehindRoot(d, g, r, store, root, size, count, ClusterStart(g, 3));
  }

  lemma ShownBehindRoot(d: Disk, g: Geometry, r: Records, store: Store, root: nat, size: nat, count: nat, start: int)
    requires Ordered(d.chains) && d.metadata == Metadata(g, r) && |r.directory| <= count * 512
    requires root == 2048 + g.firstData && size == g.sectorsPerCluster && start == (root + size) * 512
    requires count == g.wbfsDirClusters * g.sectorsPerCluster
    ensures Fills(Image(d, store, start, count * 512), r.directory, count * 512)
  {
    DirectoriesHeld(d, g, r, root, size, count);
    var first := root + size;
    RegionRead(d, store, first, count, r.directory);
  }

  /** Two entries for each file and two more: the clusters reserved for the directory hold them. */
  lemma DirectoryFits(g: Geometry, files: seq<VirtualFile>, r: Records, listed: seq<Listed>, signature: nat)
    requires Regular(g, files) && Sized(g, files) && |listed| == |files| && Rendered(r, g, listed, signature)
    ensures |r.directory| == 32 * (2 + 2 * |files|) <= g.wbfsDirClusters * g.sectorsPerCluster * 512
    ensures |r.root| == 64 <= g.clusterSize
  {
    var root, size, count := DirectoryPlaces(g, files);
  }

  // ---- Mounting ----

  /** What a driver mounts that reads the first sector of the disk and the first one of its partition. */
  ghost function DiskVolume(d: Disk, store: Store): Option<Volume>
    requires Ordered(d.chains)
  {
    var mbr := Image(d, store, 0, 512);
    if PartitionOf(mbr) == None then None
    else MountFrom(mbr, Image(d, store, PartitionOf(mbr).value * 512, 512))
  }

  function VolumeOf(g: Geometry): Volume
    requires g.partSectors >= 0 && g.sectorsPerCluster >= 0 && g.fatSectors >= 0
  {
    Volume(2048, g.partSectors, g.sectorsPerCluster, 32, 2, g.fatSectors, 2, 1, 6)
  }

  /** The volume has its clusters and both copies of its table where the disk has them. */
  ghost predicate Agrees(v: Volume, d: Disk, g: Geometry) {
    && v.start + v.reserved + v.tables * v.tableSectors == PARTITION_START + g.firstData
    && v.sectorsPerCluster == g.sectorsPerCluster && v.root == 2 && v.tableSectors == d.fatSectors
    && v.TableByte(0) == d.fatStart * 512 && v.TableByte(1) == (d.fatStart + d.fatSectors) * 512
  }

  lemma Uint32Same(v: int)
    requires 0 <= v < 0x1_0000_0000
    ensures Uint32(v) == v
  {
  }

  lemma RecordsMount(mbr: seq<byte>, boot: seq<byte>, g: Geometry, files: seq<VirtualFile>, signature: nat)
    requires Regular(g, files) && Sized(g, files) && mbr == MbrSector(2048, Uint32(g.partSectors), signature)
    requires boot == BootSector(BootOf(g, signature))
    ensures PartitionOf(mbr) == Some(2048) && MountFrom(mbr, boot) == Some(VolumeOf(g))
  {
    Uint32Same(g.partSectors);
    Uint32Same(g.fatSectors);
    Uint32Same(g.sectorsPerCluster);
    Mounts(2048, signature, BootOf(g, signature));
    MbrDecodes(2048, Uint32(g.partSectors), signature);
  }

  lemma VolumeAgrees(d: Disk, g: Geometry, files: seq<VirtualFile>, r: Records)
    requires DiskFor(d, g, files, r)
    ensures Agrees(VolumeOf(g), d, g) && (2048 + g.partSectors) * 512 == d.size
  {
  }

  /**
   * From its first sector on, a driver finds the volume of every built disk. It reaches to the disk's last
   * byte, its clusters and tables lie where the disk has them, and the backups hold the same bytes.
   */
  lemma DiskMounts(d: Disk, g: Geometry, files: seq<VirtualFile>, r: Records, listed: seq<Listed>, signature: nat,
                   store: Store) returns (v: Volume)
    requires DiskFor(d, g, files, r) && Rendered(r, g, listed, signature)
    ensures DiskVolume(d, store) == Some(v) && Agrees(v, d, g) && (v.start + v.sectors) * 512 == d.size
    ensures v.start == 2048 && v.info == 1 && v.backup == 6
    ensures Image(d, store, 2054 * 512, 512) == Image(d, store, 2048 * 512, 512)
    ensures Image(d, store, 2055 * 512, 512) == Image(d, store, 2049 * 512, 512)
  {
    RecordsMount(r.mbr, r.boot, g, files, signature);
    RecordsOnDisk(d, g, files, r, store);
    VolumeAgrees(d, g, files, r);
    v := VolumeOf(g);
  }

  /** The disk and its volume carry the same signature, never zero, and the volume is called WIIBRIDGE. */
  lemma DiskIdentity(d: Disk, g: Geometry, files: seq<VirtualFile>, r: Records, listed: seq<Listed>, digest: nat,
                     store: Store)
    requires DiskFor(d, g, files, r) && Rendered(r, g, listed, Signature(digest)) && digest < 0x1_0000_0000
    ensures var mbr, boot := Image(d, store, 0, 512), Image(d, store, 2048 * 512, 512);
      && FromLittleEndian(mbr[440..444]) == FromLittleEndian(boot[67..71])
      && FromLittleEndian(mbr[440..444]) == (if digest == 0 then 0x5742_4d53 else digest)
      && boot[71..82] == [0x57, 0x49, 0x49, 0x42, 0x52, 0x49, 0x44, 0x47, 0x45, 0x20, 0x20]
      && boot[21] == 0xf8 && FromLittleEndian(boot[28..32]) == 2048
  {
    RecordsMount(r.mbr, r.boot, g, files, Signature(digest));
    RecordsOnDisk(d, g, files, r, store);
    Uint32Same(g.partSectors);
    MbrDecodes(2048, Uint32(g.partSectors), Signature(digest));
    BootIdentity(BootOf(g, Signature(digest)));
  }

  /** The information sector of a disk is marked as one, and its hint is the first free cluster of the table. */
  lemma HintOnDisk(d: Disk, g: Geometry, files: seq<VirtualFile>, r: Records, listed: seq<Listed>, signature: nat,
                   store: Store) returns (hint: nat)
    requires DiskFor(d, g, files, r) && Rendered(r, g, listed, signature)
    ensures var info := Image(d, store, 2049 * 512, 512);
      && info[0..4] == [0x52, 0x52, 0x61, 0x41] && info[484..488] == [0x72, 0x72, 0x41, 0x61]
      && info[510..512] == [0x55, 0xaa] && FromLittleEndian(info[492..496]) == hint
    ensures 2 <= hint < g.totalClusters + 2 && FatValue(d.chains, hint) == 0
    ensures forall c :: 2 <= c < hint ==> FatValue(d.chains, c) != 0
  {
    RecordsMount(r.mbr, r.boot, g, files, signature);
    RecordsOnDisk(d, g, files, r, store);
    AllocationMatches(g, files);
    hint := 2 + g.allocatedClusters;
    FsInfoMarks(g.freeClusters, hint);
    FsInfoDecodes(g.freeClusters, hint);
    FreeClusters(d, g, files, r, hint);
    forall c | 2 <= c < hint ensures FatValue(d.chains, c) != 0 {
      FreeClusters(d, g, files, r, c);
    }
  }

  /** The root directory begins with the volume's name. */
  lemma RootLabelled(d: Disk, g: Geometry, files: seq<VirtualFile>, r: Records, store: Store)
    requires DiskFor(d, g, files, r) && r.root == L.Flatten(RootEntries())
    ensures ClusterStart(g, 2) >= 0 && g.clusterSize >= 64
    ensures L.EntryAt(Image(d, store, ClusterStart(g, 2), g.clusterSize), 0,
      [0x57, 0x49, 0x49, 0x42, 0x52, 0x49, 0x44, 0x47, 0x45, 0x20, 0x20], 8, 0)
  {
    var root, size, count := DirectoryPlaces(g, files);
    RootOnDisk(d, g, files, r, store);
    RootBegins(Image(d, store, ClusterStart(g, 2), g.clusterSize), g.clusterSize);
  }

  lemma RootBegins(read: seq<byte>, size: nat)
    requires Fills(read, L.Flatten(RootEntries()), size)
    ensures L.EntryAt(read, 0, [0x57, 0x49, 0x49, 0x42, 0x52, 0x49, 0x44, 0x47, 0x45, 0x20, 0x20], 8, 0)
  {
    var flat := L.Flatten(RootEntries());
    L.FlattenedAt(RootEntries(), 0);
    assert read[0..32] == flat[0..32] == RootEntries()[0];
    L.ShortEntryAt(read, 0, VOLUME_NAME, 8, 0);
  }

  // ---- Reading clusters ----

  ghost function Read(d: Disk, store: Store, off: int, n: nat): (s: seq<byte>)
    requires Ordered(d.chains)
    ensures |s| == n
  {
    if off < 0 then seq<byte>(n, _ => 0) else Image(d, store, off, n)
  }

  /** The bytes of these clusters, one after another. */
  ghost function Gather(d: Disk, store: Store, v: Volume, clusters: seq<nat>): seq<byte>
    requires Ordered(d.chains)
  {
    if clusters == [] then []
    else Read(d, store, v.ClusterByte(clusters[0]), v.ClusterBytes()) + Gather(d, store, v, clusters[1..])
  }

  lemma {:induction false} GatherRun(d: Disk, store: Store, v: Volume, clusters: seq<nat>, first: nat, total: nat)
    requires Ordered(d.chains) && Successive(clusters, first, |clusters|) && v.ClusterByte(first) >= 0
    requires total == |clusters| * v.ClusterBytes()
    ensures Gather(d, store, v, clusters) == Image(d, store, v.ClusterByte(first), total)
    decreases |clusters|
  {
    if clusters != [] {
      var size, rest := v.ClusterBytes(), (|clusters| - 1) * v.ClusterBytes();
      NextCluster(v, first, |clusters|);
      GatherRun(d, store, v, clusters[1..], first + 1, rest);
      ImageSplit(d, store, v.ClusterByte(first), size, rest);
    }
  }

  lemma NextCluster(v: Volume, cluster: nat, count: nat)
    requires count > 0
    ensures v.ClusterByte(cluster + 1) == v.ClusterByte(cluster) + v.ClusterBytes()
    ensures count * v.ClusterBytes() == v.ClusterBytes() + (count - 1) * v.ClusterBytes() && v.ClusterBytes() >= 0
    ensures (count - 1) * v.ClusterBytes() >= 0
  {
    var s := v.sectorsPerCluster;
    assert (cluster + 1 - 2) * s == (cluster - 2) * s + s;
    NotNegative(count - 1, v.ClusterBytes());
  }

  lemma ClusterAgrees(v: Volume, d: Disk, g: Geometry, files: seq<VirtualFile>, cluster: nat)
    requires Agrees(v, d, g) && Regular(g, files)
    ensures v.ClusterByte(cluster) == ClusterStart(g, cluster) && v.ClusterBytes() == g.clusterSize
  {
    var s := g.sectorsPerCluster;
    assert s == 8 || s == 16 || s == 32 || s == 64;
  }

  /** What a driver reads that chases the links from a cluster. */
  ghost function ReadChain(d: Disk, store: Store, v: Volume, links: seq<nat>, cluster: nat, limit: nat): seq<byte>
    requires Ordered(d.chains)
  {
    Gather(d, store, v, Chase(links, cluster, limit))
  }

  /** The table's bytes give the links. */
  ghost function LinksAt(d: Disk, store: Store, v: Volume, copy: nat): seq<nat>
    requires Ordered(d.chains)
  {
    Links(Image(d, store, v.TableByte(copy), v.tableSectors * 512))
  }

  lemma LinksDecoded(d: Disk, g: Geometry, files: seq<VirtualFile>, r: Records, store: Store, v: Volume, copy: nat)
    requires DiskFor(d, g, files, r) && Agrees(v, d, g) && copy <= 1
    ensures LinksOf(LinksAt(d, store, v, copy), d.chains) && |LinksAt(d, store, v, copy)| == d.fatSectors * 128
  {
    BuiltIsWellFormed(d, g, files, r);
    LinksOfTable(d, store, v, copy, if copy == 0 then d.fatStart else d.fatStart + d.fatSectors);
  }

  lemma LinksOfTable(d: Disk, store: Store, v: Volume, copy: nat, sector: nat)
    requires TableClear(d) && IsCopy(d, sector)
    requires v.TableByte(copy) == sector * 512 && v.tableSectors == d.fatSectors
    ensures LinksOf(LinksAt(d, store, v, copy), d.chains) && |LinksAt(d, store, v, copy)| == d.fatSectors * 128
  {
    TableRead(d, store, sector);
    LinksDecode(TableBytes(d, store, sector), d.chains);
  }

  /** Every run of the disk lies within the table. */
  lemma RunCovered(d: Disk, g: Geometry, files: seq<VirtualFile>, r: Records, i: nat)
    requires DiskFor(d, g, files, r) && i < |files| + 2
    ensures i < |d.chains| && d.chains[i] == Run(g, files, i) && d.chains[i].End() <= d.fatSectors * 128
  {
    LastRunEnds(g, files, i);
    AllocationMatches(g, files);
  }

  /** Chasing the links from the first cluster of a run visits exactly this run. */
  lemma RunVisited(d: Disk, g: Geometry, files: seq<VirtualFile>, r: Records, store: Store, v: Volume, copy: nat,
                   i: nat, limit: nat)
    requires DiskFor(d, g, files, r) && Agrees(v, d, g) && copy <= 1
    requires i < |files| + 2 && Run(g, files, i).count <= limit
    ensures Successive(Chase(LinksAt(d, store, v, copy), Run(g, files, i).first, limit),
      Run(g, files, i).first, Run(g, files, i).count)
  {
    LinksDecoded(d, g, files, r, store, v, copy);
    RunCovered(d, g, files, r, i);
    ChaseVisitsRun(LinksAt(d, store, v, copy), d.chains, i, limit);
  }

  // ---- From the root to a file ----

  lemma FilledHolds(read: seq<byte>, entries: seq<L.entry>, size: nat)
    requires Fills(read, L.Flatten(entries), size)
    ensures L.Holds(read, entries)
  {
    assert read == L.Padded(L.Flatten(entries), |read|);
  }

  /** Reading the root cluster finds the WBFS directory, at cluster 3, and nothing else. */
  lemma RootSeen(d: Disk, g: Geometry, files: seq<VirtualFile>, r: Records, store: Store, v: Volume, copy: nat,
                 limit: nat)
    requires DiskFor(d, g, files, r) && Agrees(v, d, g) && copy <= 1 && limit >= 1
    requires r.root == L.Flatten(RootEntries())
    ensures Scan(Chunks(ReadChain(d, store, v, LinksAt(d, store, v, copy), v.root, limit)), []) ==
      [Found(None, [0x57, 0x42, 0x46, 0x53, 0x20, 0x20, 0x20, 0x20, 0x20, 0x20, 0x20], 3, 0, 0x10)]
  {
    var links := LinksAt(d, store, v, copy);
    var read := ReadChain(d, store, v, links, v.root, limit);
    RunVisited(d, g, files, r, store, v, copy, 0, limit);
    ClusterAgrees(v, d, g, files, 2);
    var root, size, count := DirectoryPlaces(g, files);
    RootOnDisk(d, g, files, r, store);
    GatherRun(d, store, v, Chase(links, 2, limit), 2, g.clusterSize);
    FilledHolds(read, RootEntries(), g.clusterSize);
    var rest := SlotsOf(read, RootEntries());
    RootScan(rest);
  }

  /** Reading the WBFS directory's clusters finds its files, behind the dot entries. */
  lemma DirectorySeen(d: Disk, g: Geometry, files: seq<VirtualFile>, r: Records, store: Store, v: Volume, copy: nat,
                      listed: seq<Listed>, signature: nat, limit: nat)
    requires DiskFor(d, g, files, r) && Agrees(v, d, g) && copy <= 1 && limit >= g.wbfsDirClusters
    requires |listed| == |files| && Rendered(r, g, listed, signature) && AllPresentable(listed)
    ensures Scan(Chunks(ReadChain(d, store, v, LinksAt(d, store, v, copy), 3, limit)), [])
      == TwoDots() + FilesFound(listed)
  {
    var read := ReadChain(d, store, v, LinksAt(d, store, v, copy), 3, limit);
    DirectoryGathered(d, g, files, r, store, v, copy, listed, signature, limit);
    var rest := SlotsOf(read, DirectoryEntries(listed, |listed|));
    FilesScan(listed, rest);
  }

  lemma DirectoryGathered(d: Disk, g: Geometry, files: seq<VirtualFile>, r: Records, store: Store, v: Volume,
                          copy: nat, listed: seq<Listed>, signature: nat, limit: nat)
    requires DiskFor(d, g, files, r) && Agrees(v, d, g) && copy <= 1 && limit >= g.wbfsDirClusters
    requires |listed| == |files| && Rendered(r, g, listed, signature)
    ensures L.Holds(ReadChain(d, store, v, LinksAt(d, store, v, copy), 3, limit),
      DirectoryEntries(listed, |listed|))
  {
    var links := LinksAt(d, store, v, copy);
    RunVisited(d, g, files, r, store, v, copy, 1, limit);
    ClusterAgrees(v, d, g, files, 3);
    var root, size, count := DirectoryPlaces(g, files);
    DirectoryFits(g, files, r, listed, signature);
    DirectoryOnDisk(d, g, files, r, store, count);
    GatherRun(d, store, v, Chase(links, 3, limit), 3, count * 512);
    FilledHolds(Image(d, store, ClusterStart(g, 3), count * 512), DirectoryEntries(listed, |listed|), count * 512);
  }

  /** No file before it in the directory has this file's name. */
  ghost predicate FirstOfName(listed: seq<Listed>, i: nat) {
    i < |listed| && forall k :: 0 <= k < i ==> listed[k].name != listed[i].name
  }

  lemma FilePicked(listed: seq<Listed>, i: nat)
    requires FirstOfName(listed, i)
    ensures Pick(TwoDots() + FilesFound(listed), listed[i].name) == Some(ListedFound(listed[i]))
  {
    var dots, found := TwoDots(), TwoDots() + FilesFound(listed);
    var names := NamesFound(found);
    forall k | 0 <= k < |found| ensures names[k] == if k < |dots| then None else Some(listed[k - |dots|].name) {
    }
    FirstPlaceIs(names, listed[i].name, |dots| + i);
  }

  /** What a driver finds that looks for a file by name, from the root on. */
  ghost function Lookup(d: Disk, store: Store, v: Volume, links: seq<nat>, name: Name, limit: nat): Option<Found>
    requires Ordered(d.chains)
  {
    var root := Scan(Chunks(ReadChain(d, store, v, links, v.root, limit)), []);
    var wbfs := PickShort(root, [0x57, 0x42, 0x46, 0x53, 0x20, 0x20, 0x20, 0x20, 0x20, 0x20, 0x20]);
    if wbfs == None || !wbfs.value.IsDirectory() then None
    else Pick(Scan(Chunks(ReadChain(d, store, v, links, wbfs.value.cluster, limit)), []), name)
  }

  /** A file is found under its name in WBFS, with its first cluster and its size. */
  lemma FileFound(d: Disk, g: Geometry, files: seq<VirtualFile>, r: Records, store: Store, v: Volume, copy: nat,
                  listed: seq<Listed>, signature: nat, limit: nat, i: nat)
    requires DiskFor(d, g, files, r) && Agrees(v, d, g) && copy <= 1 && limit >= g.wbfsDirClusters
    requires |listed| == |files| && Rendered(r, g, listed, signature) && AllPresentable(listed)
    requires FirstOfName(listed, i)
    ensures Lookup(d, store, v, LinksAt(d, store, v, copy), listed[i].name, limit) == Some(ListedFound(listed[i]))
  {
    RootSeen(d, g, files, r, store, v, copy, limit);
    DirectorySeen(d, g, files, r, store, v, copy, listed, signature, limit);
    FilePicked(listed, i);
    var w := Found(None, [0x57, 0x42, 0x46, 0x53, 0x20, 0x20, 0x20, 0x20, 0x20, 0x20, 0x20], 3, 0, 0x10);
    WbfsPicked(w);
    LookedUp(d, store, v, LinksAt(d, store, v, copy), listed[i].name, limit, w, TwoDots() + FilesFound(listed));
  }

  lemma WbfsPicked(w: Found)
    requires w == Found(None, [0x57, 0x42, 0x46, 0x53, 0x20, 0x20, 0x20, 0x20, 0x20, 0x20, 0x20], 3, 0, 0x10)
    ensures PickShort([w], [0x57, 0x42, 0x46, 0x53, 0x20, 0x20, 0x20, 0x20, 0x20, 0x20, 0x20]) == Some(w)
    ensures w.IsDirectory() && w.cluster == 3
  {
  }

  lemma LookedUp(d: Disk, store: Store, v: Volume, links: seq<nat>, name: Name, limit: nat, w: Found, found: seq<Found>)
    requires Ordered(d.chains)
    requires Scan(Chunks(ReadChain(d, store, v, links, v.root, limit)), []) == [w]
    requires PickShort([w], [0x57, 0x42, 0x46, 0x53, 0x20, 0x20, 0x20, 0x20, 0x20, 0x20, 0x20]) == Some(w)
    requires w.IsDirectory() && w.cluster == 3
    requires Scan(Chunks(ReadChain(d, store, v, links, 3, limit)), []) == found
    ensures Lookup(d, store, v, links, name, limit) == Pick(found, name)
  {
  }

  /**
   * From the first sector to a file's bytes, through nothing but the disk. The driver mounts the volume,
   * reads either copy of the table, finds WBFS in the root and the file under its name there, and meets,
   * cluster after cluster, the file's bytes with zeros behind its end.
   */
  lemma DiskToBytes(d: Disk, g: Geometry, files: seq<VirtualFile>, r: Records, hash: Name -> nat,
                    signature: nat, store: Store, copy: nat, i: nat, limit: nat, j: nat, b: nat)
    returns (v: Volume, found: Found, cluster: nat, pos: nat)
    requires DiskFor(d, g, files, r) && Rendered(r, g, ListedFiles(g, files, hash), signature)
    requires AllPresentable(ListedFiles(g, files, hash)) && FirstOfName(ListedFiles(g, files, hash), i)
    requires GoodFiles(files) && AllOnline(store, files[i].game.sources) && copy <= 1
    requires j < ClustersForBytes(files[i].length, g.clusterSize) <= limit && g.wbfsDirClusters <= limit
    requires b < g.clusterSize
    ensures DiskVolume(d, store) == Some(v)
    ensures var links := LinksAt(d, store, v, copy);
      var visited := Chase(links, found.cluster, limit);
      && Lookup(d, store, v, links, NameOf(files[i]), limit) == Some(found)
      && found.attribute == 0x20 && found.size == files[i].length
      && |visited| == ClustersForBytes(files[i].length, g.clusterSize) && visited[j] == cluster
    ensures pos == v.ClusterByte(cluster) + b
    ensures ImageByte(d, store, pos) == FileByte(files[i], store, j * g.clusterSize + b)
  {
    var listed := ListedFiles(g, files, hash);
    v := DiskMounts(d, g, files, r, listed, signature, store);
    FileFound(d, g, files, r, store, v, copy, listed, signature, limit, i);
    found := ListedFound(listed[i]);
    LengthKept(files, i);
    cluster, pos := FileVisited(d, g, files, r, store, v, copy, i, limit, j, b);
  }

  lemma FileVisited(d: Disk, g: Geometry, files: seq<VirtualFile>, r: Records, store: Store, v: Volume, copy: nat,
                    i: nat, limit: nat, j: nat, b: nat) returns (cluster: nat, pos: nat)
    requires DiskFor(d, g, files, r) && Agrees(v, d, g) && copy <= 1
    requires i < |files| && GoodFiles(files) && AllOnline(store, files[i].game.sources)
    requires j < ClustersForBytes(files[i].length, g.clusterSize) <= limit && b < g.clusterSize
    ensures var visited := Chase(LinksAt(d, store, v, copy), FirstCluster(g, files, i), limit);
      |visited| == ClustersForBytes(files[i].length, g.clusterSize) && visited[j] == cluster
    ensures pos == v.ClusterByte(cluster) + b
    ensures ImageByte(d, store, pos) == FileByte(files[i], store, j * g.clusterSize + b)
  {
    RunVisited(d, g, files, r, store, v, copy, i + 2, limit);
    cluster := FirstCluster(g, files, i) + j;
    pos := ClusterShown(d, g, files, r, store, v, i, j, b, cluster);
  }

  lemma ClusterShown(d: Disk, g: Geometry, files: seq<VirtualFile>, r: Records, store: Store, v: Volume,
                     i: nat, j: nat, b: nat, cluster: nat) returns (pos: nat)
    requires DiskFor(d, g, files, r) && Agrees(v, d, g)
    requires i < |files| && GoodFiles(files) && AllOnline(store, files[i].game.sources)
    requires j < ClustersForBytes(files[i].length, g.clusterSize) && b < g.clusterSize
    requires cluster == FirstCluster(g, files, i) + j
    ensures pos == v.ClusterByte(cluster) + b
    ensures ImageByte(d, store, pos) == FileByte(files[i], store, j * g.clusterSize + b)
  {
    ClusterAgrees(v, d, g, files, cluster);
    pos := ClusterHolds(d, g, files, r, store, i, j, b, cluster);
  }

  lemma LengthKept(files: seq<VirtualFile>, i: nat)
    requires GoodFiles(files) && i < |files|
    ensures Uint32(files[i].length) == files[i].length
  {
    assert GoodFile(files[i]);
  }
}
