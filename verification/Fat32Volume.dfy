/** The GameCube disk from its first sector on: mounting the volume, and from there to every file's bytes. */
module Fat32Volume {
  import opened Basics
  import opened Bytes
  import opened VirtualExtents
  import opened FatBoot
  import opened FatDirectory
  import opened FatDriver
  import opened FatInfo
  import opened Fat32Build
  import opened Fat32Theorems
  import opened Fat32Driver
  import opened Fat32Lookup
  import F = Fat32Geometry
  import W = WiiFat
  import B = Fat32Backend
  import L = LongNames

  /** What a driver mounts that reads the first sector of the disk and the first one of its partition. */
  ghost function DiskVolume(l: Layout, cards: B.Cards, files: B.Files): Option<Volume> {
    var mbr := B.Image(l, cards, files, 0, 512);
    if PartitionOf(mbr) == None then None
    else MountFrom(mbr, B.Image(l, cards, files, PartitionOf(mbr).value * 512, 512))
  }

  lemma SectorRead(l: Layout, cards: B.Cards, files: B.Files, offset: int, data: seq<byte>)
    requires Readable(l) && |data| == 512 && ShownBy(l.meta, l.metadata, Placement(offset, data))
    ensures B.Image(l, cards, files, offset, 512) == data
  {
    PlacementRead(l, Placement(offset, data), cards, files);
  }

  /** The partition table and the boot sector read back, and both backups with them. */
  lemma RecordsOnDisk(l: Layout, r: Records, info: seq<byte>, cards: B.Cards, files: B.Files)
    requires Readable(l) && RecordsLaid(l, r, info) && |r.mbr| == |r.boot| == |info| == 512
    ensures B.Image(l, cards, files, 0, 512) == r.mbr
    ensures B.Image(l, cards, files, 2048 * 512, 512) == r.boot == B.Image(l, cards, files, 2054 * 512, 512)
    ensures B.Image(l, cards, files, 2049 * 512, 512) == info == B.Image(l, cards, files, 2055 * 512, 512)
  {
    assert Sector(r.mbr) == r.mbr && Sector(r.boot) == r.boot;
    SectorRead(l, cards, files, 0, r.mbr);
    SectorRead(l, cards, files, 2048 * 512, r.boot);
    SectorRead(l, cards, files, 2054 * 512, r.boot);
    SectorRead(l, cards, files, 2049 * 512, info);
    SectorRead(l, cards, files, 2055 * 512, info);
  }

  lemma RecordsShown(l: Layout, t: Tree, g: F.Geometry, counts: seq<nat>, r: Records, fat: seq<byte>)
    requires Assembled(l, t, g, counts, r, fat)
    ensures RecordsLaid(l, r, Info(g, counts))
  {
    BuiltMetadataLaid(l, g, r, Info(g, counts), fat, DirectoryPlacements(t, g, counts, |t.directories|));
  }

  /** The sizes in the boot sector fit their fields, and the partition reaches to the end of the disk. */
  lemma SizesFit(l: Layout, t: Tree, g: F.Geometry, counts: seq<nat>, r: Records, fat: seq<byte>)
    requires Assembled(l, t, g, counts, r, fat)
    ensures 0 <= g.partitionSectors < 0x1_0000_0000 && (2048 + g.partitionSectors) * 512 == l.size
    ensures 0 <= g.fatSectors < 0x1_0000_0000 && g.firstData == 32 + 2 * g.fatSectors && |fat| == g.fatSectors * 512
  {
    HasNodes(t, counts);
    F.GeometryHolds(l.size, F.Sum(counts, |counts|));
  }

  /** The volume of a geometry: 32 reserved sectors, two tables, clusters of 64 sectors, the root in cluster 2. */
  function VolumeOf(g: F.Geometry): Volume
    requires g.partitionSectors >= 0 && g.fatSectors >= 0
  {
    Volume(2048, g.partitionSectors, 64, 32, 2, g.fatSectors, 2, 1, 6)
  }

  /** The volume has its clusters and both copies of its table where the builder has laid them. */
  ghost predicate MountedAs(l: Layout, t: Tree, g: F.Geometry, counts: seq<nat>, fat: seq<byte>, v: Volume) {
    && Agrees(v, g) && |fat| == v.tableSectors * 512
    && Mounted(l, t, g, counts, v.TableByte(0), fat) && Mounted(l, t, g, counts, v.TableByte(1), fat)
  }

  /**
   * From its first sector on, a driver finds the volume of every built disk. It reaches to the disk's last
   * byte, its clusters and tables lie where the builder has put them, and the backups hold the same bytes.
   */
  lemma DiskMounts(l: Layout, t: Tree, g: F.Geometry, counts: seq<nat>, r: Records, id: nat, fat: seq<byte>,
                   cards: B.Cards, files: B.Files) returns (v: Volume)
    requires B.WellFormed(l) && ValidTree(t) && Assembled(l, t, g, counts, r, fat) && r == RecordsOf(t, g, id)
    ensures DiskVolume(l, cards, files) == Some(v) && MountedAs(l, t, g, counts, fat, v)
    ensures (v.start + v.sectors) * 512 == l.size && v.start == 2048 && v.info == 1 && v.backup == 6
    ensures B.Image(l, cards, files, 2054 * 512, 512) == B.Image(l, cards, files, 2048 * 512, 512)
    ensures B.Image(l, cards, files, 2055 * 512, 512) == B.Image(l, cards, files, 2049 * 512, 512)
  {
    SizesFit(l, t, g, counts, r, fat);
    v := VolumeOf(g);
    RecordsShown(l, t, g, counts, r, fat);
    RecordsRead(l, t, g, r, id, Info(g, counts), cards, files);
    MountedByBoth(l, t, g, counts, r, fat);
  }

  lemma MountedByBoth(l: Layout, t: Tree, g: F.Geometry, counts: seq<nat>, r: Records, fat: seq<byte>)
    requires B.WellFormed(l) && Assembled(l, t, g, counts, r, fat) && |fat| == g.fatSectors * 512
    requires g.partitionSectors >= 0 && g.fatSectors >= 0 && g.firstData == 32 + 2 * g.fatSectors
    ensures MountedAs(l, t, g, counts, fat, VolumeOf(g))
  {
    VolumeAgrees(g);
    BuiltMounts(l, t, g, counts, r, fat, 0);
    BuiltMounts(l, t, g, counts, r, fat, 1);
  }

  lemma RecordsRead(l: Layout, t: Tree, g: F.Geometry, r: Records, id: nat, info: seq<byte>, cards: B.Cards,
                    files: B.Files)
    requires Readable(l) && RecordsLaid(l, r, info) && |info| == 512 && |t.volume| == 11 && r == RecordsOf(t, g, id)
    requires 0 <= g.partitionSectors < 0x1_0000_0000 && 0 <= g.fatSectors < 0x1_0000_0000
    ensures DiskVolume(l, cards, files) == Some(VolumeOf(g))
    ensures B.Image(l, cards, files, 2054 * 512, 512) == B.Image(l, cards, files, 2048 * 512, 512)
    ensures B.Image(l, cards, files, 2055 * 512, 512) == B.Image(l, cards, files, 2049 * 512, 512)
  {
    RecordsMount(t, g, id);
    RecordsOnDisk(l, r, info, cards, files);
  }

  lemma VolumeAgrees(g: F.Geometry)
    requires g.partitionSectors >= 0 && g.fatSectors >= 0 && g.firstData == 32 + 2 * g.fatSectors
    ensures var v := VolumeOf(g);
      Agrees(v, g) && v.TableByte(0) == TableStart(g, 0) && v.TableByte(1) == TableStart(g, 1)
  {
  }

  lemma RecordsMount(t: Tree, g: F.Geometry, id: nat)
    requires |t.volume| == 11 && 0 <= g.partitionSectors < 0x1_0000_0000 && 0 <= g.fatSectors < 0x1_0000_0000
    ensures var r := RecordsOf(t, g, id);
      |r.mbr| == |r.boot| == 512 && PartitionOf(r.mbr) == Some(2048) && MountFrom(r.mbr, r.boot) == Some(VolumeOf(g))
  {
    var p, s := Uint32(g.partitionSectors), Uint32(g.fatSectors);
    Uint32Same(g.partitionSectors);
    Uint32Same(g.fatSectors);
    Mounts(2048, id, Boot(64, p, s, 2, id, t.volume));
    MbrDecodes(2048, p, id);
  }

  lemma Uint32Same(v: int)
    requires 0 <= v < 0x1_0000_0000
    ensures Uint32(v) == v
  {
  }

  /**
   * The information sector of a disk is marked as one, and its hint is the first free cluster of the
   * table, or 0xffffffff if every cluster is allocated.
   */
  lemma HintOnDisk(l: Layout, t: Tree, g: F.Geometry, counts: seq<nat>, r: Records, id: nat, fat: seq<byte>,
                   cards: B.Cards, files: B.Files) returns (hint: nat)
    requires B.WellFormed(l) && ValidTree(t) && Assembled(l, t, g, counts, r, fat) && r == RecordsOf(t, g, id)
    ensures var info := B.Image(l, cards, files, 2049 * 512, 512);
      && info[0..4] == [0x52, 0x52, 0x61, 0x41] && info[484..488] == [0x72, 0x72, 0x41, 0x61]
      && info[510..512] == [0x55, 0xaa] && FromLittleEndian(info[492..496]) == hint
    ensures W.Ordered(F.Runs(counts))
    ensures hint < g.available + 2 ==> W.FatValue(F.Runs(counts), hint) == 0
    ensures hint >= g.available + 2 ==> hint == 0xffff_ffff
    ensures forall c :: 2 <= c < g.available + 2 && c < hint ==> W.FatValue(F.Runs(counts), c) != 0
  {
    SizesFit(l, t, g, counts, r, fat);
    RecordsShown(l, t, g, counts, r, fat);
    RecordsMount(t, g, id);
    RecordsOnDisk(l, r, Info(g, counts), cards, files);
    BuiltFilesLaid(l, t, g, counts, r, fat);
    HasNodes(t, counts);
    hint := HintIs(g, counts);
  }

  lemma HintIs(g: F.Geometry, counts: seq<nat>) returns (hint: nat)
    requires F.Allocatable(counts) && W.Ordered(F.Runs(counts)) && F.Sum(counts, |counts|) <= g.available < 0x1000_0000
    ensures var info := Info(g, counts);
      && |info| == 512 && info[0..4] == [0x52, 0x52, 0x61, 0x41] && info[484..488] == [0x72, 0x72, 0x41, 0x61]
      && info[510..512] == [0x55, 0xaa] && FromLittleEndian(info[492..496]) == hint
    ensures hint < g.available + 2 ==> W.FatValue(F.Runs(counts), hint) == 0
    ensures hint >= g.available + 2 ==> hint == 0xffff_ffff
    ensures forall c :: 2 <= c < g.available + 2 && c < hint ==> W.FatValue(F.Runs(counts), c) != 0
  {
    var free := g.available - F.Sum(counts, |counts|);
    hint := if free == 0 then 0xffff_ffff else 2 + F.Sum(counts, |counts|);
    FsInfoMarks(free, hint);
    FsInfoDecodes(free, hint);
    forall c | 2 <= c < g.available + 2
      ensures W.FatValue(F.Runs(counts), c) == 0 <==> c >= 2 + F.Sum(counts, |counts|)
    {
      F.FreeBeyond(counts, c);
    }
  }

  /** The disk and its volume carry the same identity, never zero, and the volume its name. */
  lemma DiskIdentity(l: Layout, t: Tree, g: F.Geometry, counts: seq<nat>, r: Records, digest: nat, fat: seq<byte>,
                     cards: B.Cards, files: B.Files)
    requires B.WellFormed(l) && ValidTree(t) && Assembled(l, t, g, counts, r, fat) && digest < 0x1_0000_0000
    requires r == RecordsOf(t, g, VolumeId(digest))
    ensures var mbr, boot := B.Image(l, cards, files, 0, 512), B.Image(l, cards, files, 2048 * 512, 512);
      && FromLittleEndian(mbr[440..444]) == FromLittleEndian(boot[67..71])
      && FromLittleEndian(mbr[440..444]) == (if digest == 0 then 0x5742_4743 else digest)
      && boot[71..82] == t.volume && boot[21] == 0xf8 && FromLittleEndian(boot[28..32]) == 2048
  {
    SizesFit(l, t, g, counts, r, fat);
    RecordsShown(l, t, g, counts, r, fat);
    var id := VolumeId(digest);
    RecordsMount(t, g, id);
    RecordsOnDisk(l, r, Info(g, counts), cards, files);
    RecordsIdentity(t, g, r, id);
  }

  lemma RecordsIdentity(t: Tree, g: F.Geometry, r: Records, id: nat)
    requires |t.volume| == 11 && r == RecordsOf(t, g, id) && |r.mbr| == |r.boot| == 512 && id < 0x1_0000_0000
    ensures FromLittleEndian(r.mbr[440..444]) == id == FromLittleEndian(r.boot[67..71])
    ensures r.boot[71..82] == t.volume && r.boot[21] == 0xf8 && FromLittleEndian(r.boot[28..32]) == 2048
  {
    MbrDecodes(2048, Uint32(g.partitionSectors), id);
    BootIdentity(Boot(64, Uint32(g.partitionSectors), Uint32(g.fatSectors), 2, id, t.volume));
  }

  /**
   * From the first sector to a file's bytes, through nothing but the disk. The driver mounts the volume,
   * reads either copy of the table, follows a path from the root cluster, and finds the file's size and,
   * cluster after cluster, the file's bytes with zeros behind its end.
   */
  lemma DiskToBytes(l: Layout, t: Tree, g: F.Geometry, counts: seq<nat>, fat: seq<byte>, v: Volume, cards: B.Cards,
                    files: B.Files, copy: nat, path: seq<Name>, file: nat, limit: nat, j: nat, b: nat)
    returns (found: Found, cluster: nat)
    requires MountedAs(l, t, g, counts, fat, v)
    requires copy <= 1 && Storable(t) && path != [] && WithinLimit(t, counts, limit) && file < |t.files|
    requires NodeAt(t, 0, path).Some? && NodeAt(t, 0, path).value.target == ToFile(file)
    requires j < counts[|t.directories| + file] <= limit && b < 32768
    ensures var links := Links(B.Image(l, cards, files, v.TableByte(copy), v.tableSectors * 512));
      var visited := Chase(links, found.cluster, limit);
      && Follow(l, v, cards, files, links, v.root, path, limit) == Some(found)
      && found.attribute == 0x20 && found.size == t.files[file].size && j < |visited| && visited[j] == cluster
    ensures B.ImageByte(l, cards, files, v.ClusterByte(cluster) + b)
      == FileByte(t.files[file], cards, files, j * 32768 + b)
  {
    found, cluster := PathToBytes(l, v, t, g, counts, v.TableByte(copy), fat, cards, files, path, file, limit, j, b);
  }
}
