/** What a driver reads from every built GameCube disk. */
module Fat32Theorems {
  import opened Basics
  import opened Bytes
  import opened VirtualExtents
  import opened Fat32Build
  import F = Fat32Geometry
  import W = WiiFat
  import B = Fat32Backend
  import L = LongNames
  import opened FatInfo

  /** What reading metadata relies on: its ranges in order and apart from the save extents. */
  ghost predicate Readable(l: Layout) {
    InOrder(MetaSpans(l.meta)) && B.Separate(SaveSpans(l.saves), MetaSpans(l.meta))
  }

  /** Every byte of a placement is on the disk at its offset. */
  lemma PlacementOnDisk(l: Layout, cards: B.Cards, files: B.Files, p: Placement, i: nat)
    requires Readable(l) && ShownBy(l.meta, l.metadata, p) && i < |p.data|
    ensures B.ImageByte(l, cards, files, p.offset + i) == p.data[i]
  {
    var j :| 0 <= j < |l.meta| && ShowsOne(l.meta[j], l.metadata, p);
    var e := l.meta[j];
    OnlyHolder(MetaSpans(l.meta), p.offset + i, j);
    B.Elsewhere(MetaSpans(l.meta), SaveSpans(l.saves), j, p.offset + i);
    assert l.metadata[e.storage..e.storage + e.length][i] == p.data[i];
  }

  lemma StretchOnDisk(l: Layout, cards: B.Cards, files: B.Files, p: Placement, from: nat, n: nat)
    requires Readable(l) && ShownBy(l.meta, l.metadata, p) && from + n <= |p.data|
    ensures B.Image(l, cards, files, p.offset + from, n) == p.data[from..from + n]
  {
    var read := B.Image(l, cards, files, p.offset + from, n);
    forall i | 0 <= i < n ensures read[i] == p.data[from + i] {
      PlacementOnDisk(l, cards, files, p, from + i);
    }
  }

  lemma PlacedAt(head: seq<Placement>, directories: seq<Placement>, meta: seq<MetadataExtent>, metadata: seq<byte>)
    requires ShowsAll(meta, metadata, head + directories)
    ensures forall k :: 0 <= k < |head| ==> ShownBy(meta, metadata, head[k])
    ensures forall i :: 0 <= i < |directories| ==> ShownBy(meta, metadata, directories[i])
  {
    var all := head + directories;
    forall k | 0 <= k < |head| ensures ShownBy(meta, metadata, head[k]) {
      assert ShownBy(meta, metadata, all[k]);
    }
    forall i | 0 <= i < |directories| ensures ShownBy(meta, metadata, directories[i]) {
      assert ShownBy(meta, metadata, all[|head| + i]);
    }
  }

  /**
   * A built disk shows its records with their backups, the information sector, both table copies and every
   * directory in its clusters.
   */
  ghost predicate MetadataLaid(l: Layout, g: F.Geometry, r: Records, info: seq<byte>, fat: seq<byte>,
                               directories: seq<Placement>) {
    && RecordsLaid(l, r, info)
    && ShownBy(l.meta, l.metadata, Placement((F.PARTITION_START + 1) * F.SECTOR, info))
    && ShownBy(l.meta, l.metadata, Placement(TableStart(g, 0), fat))
    && ShownBy(l.meta, l.metadata, Placement(TableStart(g, 1), fat))
    && forall i :: 0 <= i < |directories| ==> ShownBy(l.meta, l.metadata, directories[i])
  }

  /** The partition table in sector 0; the boot and the information sector begin the partition, with backups at 6. */
  ghost predicate RecordsLaid(l: Layout, r: Records, info: seq<byte>) {
    && ShownBy(l.meta, l.metadata, Placement(0, Sector(r.mbr)))
    && ShownBy(l.meta, l.metadata, Placement(2048 * 512, Sector(r.boot)))
    && ShownBy(l.meta, l.metadata, Placement(2054 * 512, Sector(r.boot)))
    && ShownBy(l.meta, l.metadata, Placement(2049 * 512, info))
    && ShownBy(l.meta, l.metadata, Placement(2055 * 512, info))
  }

  lemma BuiltMetadataLaid(l: Layout, g: F.Geometry, r: Records, info: seq<byte>, fat: seq<byte>,
                          directories: seq<Placement>)
    requires ShowsAll(l.meta, l.metadata, RecordPlacements(r, info) + TablePlacements(g, fat) + directories)
    ensures MetadataLaid(l, g, r, info, fat, directories)
  {
    var records, tables := RecordPlacements(r, info), TablePlacements(g, fat);
    ConcatAssociates(records, tables, directories);
    PlacedAt(records, tables + directories, l.meta, l.metadata);
    PlacedAt(records + tables, directories, l.meta, l.metadata);
    RecordsPlaced(l, r, info);
    TablesPlaced(l, g, fat, records);
  }

  lemma RecordsPlaced(l: Layout, r: Records, info: seq<byte>)
    requires var records := RecordPlacements(r, info);
      forall k :: 0 <= k < |records| ==> ShownBy(l.meta, l.metadata, records[k])
    ensures RecordsLaid(l, r, info)
  {
    var records := RecordPlacements(r, info);
    assert records[0] == Placement(0, Sector(r.mbr)) && records[1] == Placement(2048 * 512, Sector(r.boot));
    assert records[2] == Placement(2054 * 512, Sector(r.boot));
    assert records[3] == Placement(2049 * 512, info) && records[4] == Placement(2055 * 512, info);
  }

  lemma TablesPlaced(l: Layout, g: F.Geometry, fat: seq<byte>, records: seq<Placement>)
    requires var head := records + TablePlacements(g, fat);
      forall k :: 0 <= k < |head| ==> ShownBy(l.meta, l.metadata, head[k])
    ensures ShownBy(l.meta, l.metadata, Placement(TableStart(g, 0), fat))
    ensures ShownBy(l.meta, l.metadata, Placement(TableStart(g, 1), fat))
  {
    var head := records + TablePlacements(g, fat);
    assert head[|records|] == Placement(TableStart(g, 0), fat);
    assert head[|records| + 1] == Placement(TableStart(g, 1), fat);
  }

  /** Both table copies read as the run-length table. */
  lemma TableOnDisk(l: Layout, start: int, chains: seq<W.Chain>, fat: seq<byte>, cards: B.Cards, files: B.Files, k: nat)
    requires Readable(l) && ShownBy(l.meta, l.metadata, Placement(start, fat))
    requires W.Ordered(chains) && W.IsTable(fat, chains) && k < |fat|
    ensures B.ImageByte(l, cards, files, start + k) == W.FatByte(chains, k)
  {
    PlacementOnDisk(l, cards, files, Placement(start, fat), k);
  }

  /** The information sector carries the number of free clusters, counted in the table itself. */
  lemma FreeCountOnDisk(l: Layout, g: F.Geometry, counts: seq<nat>, info: seq<byte>, cards: B.Cards, files: B.Files)
    requires F.Allocatable(counts) && W.Ordered(F.Runs(counts)) && F.Sum(counts, |counts|) <= g.available
    requires Readable(l) && ShownBy(l.meta, l.metadata, Placement((F.PARTITION_START + 1) * F.SECTOR, info))
    requires |info| == F.SECTOR && FromLittleEndian(info[488..492]) == g.available - F.Sum(counts, |counts|)
    ensures FromLittleEndian(B.Image(l, cards, files, (F.PARTITION_START + 1) * F.SECTOR + 488, 4))
      == ZeroEntries(F.Runs(counts), 2, g.available + 2)
  {
    F.FreeCountExact(counts, g.available + 2);
    StretchOnDisk(l, cards, files, Placement((F.PARTITION_START + 1) * F.SECTOR, info), 488, 4);
  }

  lemma InfoFree(g: F.Geometry, counts: seq<nat>)
    requires F.Sum(counts, |counts|) <= g.available < 0x1000_0000
    ensures |Info(g, counts)| == F.SECTOR
    ensures FromLittleEndian(Info(g, counts)[488..492]) == g.available - F.Sum(counts, |counts|)
  {
    var free := g.available - F.Sum(counts, |counts|);
    FsInfoDecodes(free, if free == 0 then 0xffff_ffff else 2 + F.Sum(counts, |counts|));
  }

  // ---- Files ----

  /** Byte `k` of a file's clusters: its card or its source, then zeros. */
  ghost function FileByte(f: FileNode, cards: B.Cards, files: B.Files, k: int): byte {
    if k >= f.size then 0
    else if f.writable then (if f.objectId in cards then B.ByteAt(cards[f.objectId], f.cardOffset + k) else 0)
    else if f.path in files then B.ByteAt(files[f.path], f.sourceOffset + k) else 0
  }

  lemma {:induction false} SourceListed(t: Tree, g: F.Geometry, counts: seq<nat>, n: nat, i: nat) returns (j: nat)
    requires |counts| == NodeCount(t) && i < n <= |t.files| && !t.files[i].writable
    ensures j < |Sources(t, g, counts, n)|
    ensures Sources(t, g, counts, n)[j] == SourceOf(t.files[i], FileStart(t, g, counts, i))
  {
    if i == n - 1 {
      j := |Sources(t, g, counts, n - 1)|;
    } else {
      j := SourceListed(t, g, counts, n - 1, i);
    }
  }

  lemma {:induction false} SaveListed(t: Tree, g: F.Geometry, counts: seq<nat>, n: nat, i: nat) returns (j: nat)
    requires |counts| == NodeCount(t) && i < n <= |t.files| && t.files[i].writable
    ensures j < |Saves(t, g, counts, n)| && Saves(t, g, counts, n)[j] == SaveOf(t.files[i], FileStart(t, g, counts, i))
  {
    if i == n - 1 {
      j := |Saves(t, g, counts, n - 1)|;
    } else {
      j := SaveListed(t, g, counts, n - 1, i);
    }
  }

  lemma {:induction false} SourceOrigin(t: Tree, g: F.Geometry, counts: seq<nat>, n: nat, j: nat) returns (i: nat)
    requires |counts| == NodeCount(t) && n <= |t.files| && j < |Sources(t, g, counts, n)|
    ensures i < n && SourceSpans(Sources(t, g, counts, n))[j] == FileRange(t, g, counts, i)
  {
    if j < |Sources(t, g, counts, n - 1)| {
      i := SourceOrigin(t, g, counts, n - 1, j);
    } else {
      i := n - 1;
    }
  }

  lemma {:induction false} SaveOrigin(t: Tree, g: F.Geometry, counts: seq<nat>, n: nat, j: nat) returns (i: nat)
    requires |counts| == NodeCount(t) && n <= |t.files| && j < |Saves(t, g, counts, n)|
    ensures i < n && SaveSpans(Saves(t, g, counts, n))[j] == FileRange(t, g, counts, i)
  {
    if j < |Saves(t, g, counts, n - 1)| {
      i := SaveOrigin(t, g, counts, n - 1, j);
    } else {
      i := n - 1;
    }
  }

  /** Behind a file's bytes no other file reaches into its clusters. */
  lemma OtherFileElsewhere(t: Tree, g: F.Geometry, counts: seq<nat>, i: nat, other: nat, pos: int)
    requires CountsOf(t, counts) && i < |t.files| && other < |t.files|
    requires FileStart(t, g, counts, i) + t.files[i].size <= pos < FileStart(t, g, counts, i + 1)
    requires FileStart(t, g, counts, i) <= pos
    ensures !FileRange(t, g, counts, other).Holds(pos)
  {
    FileInItsClusters(t, g, counts, other);
    if other < i {
      NodesAscend(g, counts, |t.directories| + other, |t.directories| + i);
    } else if i < other {
      NodesAscend(g, counts, |t.directories| + i, |t.directories| + other);
    }
  }

  /** The rest of a file's last cluster belongs to no extent. */
  lemma SlackUnheld(l: Layout, t: Tree, g: F.Geometry, counts: seq<nat>, i: nat, pos: int)
    requires CountsOf(t, counts) && i < |t.files|
    requires l.sources == Sources(t, g, counts, |t.files|) && l.saves == Saves(t, g, counts, |t.files|)
    requires Within(MetaSpans(l.meta), 0, FileStart(t, g, counts, 0))
    requires FileStart(t, g, counts, i) + t.files[i].size <= pos < FileStart(t, g, counts, i + 1)
    ensures B.Unheld(l, pos)
  {
    assert FileFits(t.files[i]);
    F.SumGrows(counts, |t.directories|, |t.directories| + i);
    forall j | 0 <= j < |l.sources| ensures !SourceSpans(l.sources)[j].Holds(pos) {
      var other := SourceOrigin(t, g, counts, |t.files|, j);
      OtherFileElsewhere(t, g, counts, i, other, pos);
    }
    forall j | 0 <= j < |l.saves| ensures !SaveSpans(l.saves)[j].Holds(pos) {
      var other := SaveOrigin(t, g, counts, |t.files|, j);
      OtherFileElsewhere(t, g, counts, i, other, pos);
    }
    forall j | 0 <= j < |l.meta| ensures !MetaSpans(l.meta)[j].Holds(pos) {
      assert MetaSpans(l.meta)[j].end <= FileStart(t, g, counts, 0);
    }
  }

  /** The metadata of an assembled disk lies below its files. */
  lemma MetadataBelowFiles(l: Layout, t: Tree, g: F.Geometry, counts: seq<nat>, r: Records, fat: seq<byte>)
    requires Assembled(l, t, g, counts, r, fat)
    ensures Within(MetaSpans(l.meta), 0, FileStart(t, g, counts, 0))
  {
    var placed := Placements(t, g, counts, r, Info(g, counts), fat);
    EndsOnDisk(t, l.size, g, counts);
    PlacementsApart(t, g, counts, r, Info(g, counts), fat);
    forall j | 0 <= j < |l.meta|
      ensures var s := MetaSpans(l.meta)[j];
        0 <= s.start <= s.end <= FileStart(t, g, counts, 0) && s.start < FileStart(t, g, counts, 0)
    {
      assert ShowsSome(l.meta[j], l.metadata, placed);
      var k :| 0 <= k < |placed| && ShowsOne(l.meta[j], l.metadata, placed[k]);
      assert PlacedSpans(placed)[k] == MetaSpans(l.meta)[j];
    }
  }

  /** The lists of a built disk: its files in their clusters, all metadata below them. */
  ghost predicate FilesLaid(l: Layout, t: Tree, g: F.Geometry, counts: seq<nat>) {
    && B.Ordered(l) && B.Separate(SaveSpans(l.saves), SourceSpans(l.sources))
    && B.Separate(MetaSpans(l.meta), SourceSpans(l.sources))
    && CountsOf(t, counts) && Within(MetaSpans(l.meta), 0, FileStart(t, g, counts, 0))
    && l.sources == Sources(t, g, counts, |t.files|) && l.saves == Saves(t, g, counts, |t.files|)
  }

  /** Every built disk has this shape. */
  lemma BuiltFilesLaid(l: Layout, t: Tree, g: F.Geometry, counts: seq<nat>, r: Records, fat: seq<byte>)
    requires B.WellFormed(l) && Assembled(l, t, g, counts, r, fat)
    ensures FilesLaid(l, t, g, counts) && F.Allocatable(counts) && g.available < 0x1000_0000
  {
    MetadataBelowFiles(l, t, g, counts, r, fat);
    EndsOnDisk(t, l.size, g, counts);
  }

  lemma SaveOnDisk(l: Layout, t: Tree, g: F.Geometry, counts: seq<nat>, cards: B.Cards, files: B.Files, i: nat, k: nat)
    requires FilesLaid(l, t, g, counts) && i < |t.files| && t.files[i].writable && k < t.files[i].size
    ensures B.ImageByte(l, cards, files, FileStart(t, g, counts, i) + k) == FileByte(t.files[i], cards, files, k)
  {
    var j := SaveListed(t, g, counts, |t.files|, i);
    OnlyHolder(SaveSpans(l.saves), FileStart(t, g, counts, i) + k, j);
  }

  lemma SourceOnDisk(l: Layout, t: Tree, g: F.Geometry, counts: seq<nat>, cards: B.Cards, files: B.Files, i: nat,
                     k: nat)
    requires FilesLaid(l, t, g, counts) && i < |t.files| && !t.files[i].writable && k < t.files[i].size
    ensures B.ImageByte(l, cards, files, FileStart(t, g, counts, i) + k) == FileByte(t.files[i], cards, files, k)
  {
    var pos := FileStart(t, g, counts, i) + k;
    var j := SourceListed(t, g, counts, |t.files|, i);
    OnlyHolder(SourceSpans(l.sources), pos, j);
    B.Elsewhere(SourceSpans(l.sources), SaveSpans(l.saves), j, pos);
    B.Elsewhere(SourceSpans(l.sources), MetaSpans(l.meta), j, pos);
  }

  /** A file's clusters hold exactly its source or save bytes, then zeros. */
  lemma FileOnDisk(l: Layout, t: Tree, g: F.Geometry, counts: seq<nat>, cards: B.Cards, files: B.Files, i: nat, k: nat,
                   pos: int)
    requires FilesLaid(l, t, g, counts) && i < |t.files| && k < counts[|t.directories| + i] * F.CLUSTER
    requires pos == FileStart(t, g, counts, i) + k
    ensures B.ImageByte(l, cards, files, pos) == FileByte(t.files[i], cards, files, k)
  {
    if k >= t.files[i].size {
      SlackUnheld(l, t, g, counts, i, pos);
    } else if t.files[i].writable {
      SaveOnDisk(l, t, g, counts, cards, files, i, k);
    } else {
      SourceOnDisk(l, t, g, counts, cards, files, i, k);
    }
  }

  function ClusterStart(g: F.Geometry, cluster: nat): int { DataStart(g) + (cluster - 2) * F.CLUSTER }

  /** Following the table from a node's first cluster reads exactly its clusters, then the end mark. */
  lemma FollowsNode(t: Tree, counts: seq<nat>, node: nat, limit: nat)
    requires F.Allocatable(counts) && W.Ordered(F.Runs(counts)) && node < |counts| && limit >= counts[node]
    ensures W.ReadsRun(F.Runs(counts), W.Follow(F.Runs(counts), First(counts, node), limit),
      First(counts, node), counts[node])
  {
    W.FollowReadsRun(F.Runs(counts), node, First(counts, node), limit);
  }

  lemma ClusterOfFile(t: Tree, g: F.Geometry, counts: seq<nat>, i: nat, j: nat, b: nat, cluster: nat)
    requires |counts| == NodeCount(t) && i < |t.files| && j < counts[|t.directories| + i] && b < F.CLUSTER
    requires cluster == First(counts, |t.directories| + i) + j
    ensures ClusterStart(g, cluster) + b == FileStart(t, g, counts, i) + (j * F.CLUSTER + b)
    ensures j * F.CLUSTER + b < counts[|t.directories| + i] * F.CLUSTER
  {
  }

  lemma ClusterOnDisk(l: Layout, t: Tree, g: F.Geometry, counts: seq<nat>, cards: B.Cards, files: B.Files,
                      i: nat, j: nat, b: nat, cluster: nat)
    requires FilesLaid(l, t, g, counts) && i < |t.files| && j < counts[|t.directories| + i] && b < F.CLUSTER
    requires cluster == First(counts, |t.directories| + i) + j
    ensures B.ImageByte(l, cards, files, ClusterStart(g, cluster) + b)
      == FileByte(t.files[i], cards, files, j * F.CLUSTER + b)
  {
    ClusterOfFile(t, g, counts, i, j, b, cluster);
    FileOnDisk(l, t, g, counts, cards, files, i, j * F.CLUSTER + b, ClusterStart(g, cluster) + b);
  }

  /** Byte `b` of the j-th cluster that a driver visits is byte j * 32768 + b of the file. */
  lemma DriverReadsFile(l: Layout, t: Tree, g: F.Geometry, counts: seq<nat>, cards: B.Cards, files: B.Files,
                        i: nat, limit: nat, j: nat, b: nat) returns (cluster: nat)
    requires FilesLaid(l, t, g, counts) && F.Allocatable(counts) && W.Ordered(F.Runs(counts)) && i < |t.files|
    requires j < counts[|t.directories| + i] <= limit && b < F.CLUSTER
    ensures j < |W.Follow(F.Runs(counts), First(counts, |t.directories| + i), limit)|
    ensures cluster == W.Follow(F.Runs(counts), First(counts, |t.directories| + i), limit)[j]
    ensures B.ImageByte(l, cards, files, ClusterStart(g, cluster) + b)
      == FileByte(t.files[i], cards, files, j * F.CLUSTER + b)
  {
    FollowsNode(t, counts, |t.directories| + i, limit);
    cluster := First(counts, |t.directories| + i) + j;
    ClusterOnDisk(l, t, g, counts, cards, files, i, j, b, cluster);
  }
}
