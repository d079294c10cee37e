/** Building the virtual FAT32 disk of a GameCube library: metadata, table copies, directories and file extents. */
module Fat32Build {
  import opened Basics
  import opened Bytes
  import opened VirtualExtents
  import F = Fat32Geometry
  import W = WiiFat
  import B = Fat32Backend
  import L = LongNames
  import opened FatBoot
  import opened FatInfo

  // ---- Nodes ----

  datatype Target = ToDirectory(index: nat) | ToFile(index: nat)

  datatype ChildNode = ChildNode(name: seq<L.unit>, short: seq<byte>, target: Target)

  datatype DirectoryNode = DirectoryNode(parent: nat, children: seq<ChildNode>)

  datatype FileNode = FileNode(
    size: int, writable: bool,
    path: string, sourceOffset: int, sourceSize: int,
    objectId: string, cardOffset: int, cardSize: int)

  /** The collected tree, directories first; directory 0 is the root. */
  datatype Tree = Tree(volume: seq<byte>, directories: seq<DirectoryNode>, files: seq<FileNode>)

  /** Short names are eleven bytes, and every reference leads to a node. */
  ghost predicate ValidTree(t: Tree) {
    && |t.volume| == 11 && t.directories != []
    && forall i :: 0 <= i < |t.directories| ==> ValidDirectory(t, t.directories[i])
  }

  ghost predicate ValidDirectory(t: Tree, d: DirectoryNode) {
    d.parent < |t.directories| && forall k :: 0 <= k < |d.children| ==> ValidChild(t, d.children[k])
  }

  ghost predicate ValidChild(t: Tree, c: ChildNode) {
    |c.short| == 11 && match c.target case ToDirectory(i) => i < |t.directories| case ToFile(i) => i < |t.files|
  }

  function NodeCount(t: Tree): nat { |t.directories| + |t.files| }

  /** The first cluster of node `i`. */
  function First(counts: seq<nat>, i: nat): nat
    requires i <= |counts|
  {
    2 + F.Sum(counts, i)
  }

  function Resolved(t: Tree, c: ChildNode, counts: seq<nat>): L.Child
    requires ValidChild(t, c) && |counts| == NodeCount(t)
  {
    match c.target
    case ToDirectory(i) => L.Child(c.name, c.short, First(counts, i), 0, true)
    case ToFile(i) =>
      L.Child(c.name, c.short, First(counts, |t.directories| + i),
        if t.files[i].size < 0 then 0 else t.files[i].size, false)
  }

  /** Directory `i` as it is written, once every node has its clusters. */
  function Written(t: Tree, i: nat, counts: seq<nat>): (d: L.Directory)
    requires ValidTree(t) && i < |t.directories| && |counts| == NodeCount(t)
    ensures L.ShortNamesFit(d)
  {
    var node := t.directories[i];
    assert ValidDirectory(t, node);
    L.Directory(i == 0, t.volume, First(counts, i), if node.parent == 0 then 0 else First(counts, node.parent),
      seq(|node.children|, k requires 0 <= k < |node.children| => Resolved(t, node.children[k], counts)))
  }

  /** Clusters for the directory's entries: they depend on its names only. */
  function DirectoryClusters(root: bool, d: DirectoryNode): (n: int)
    ensures n >= 1
  {
    var n := (Slotted(root, d, |d.children|) * 32 + F.CLUSTER - 1) / F.CLUSTER;
    if n < 1 then 1 else n
  }

  function Slotted(root: bool, d: DirectoryNode, n: nat): nat
    requires n <= |d.children|
  {
    if n == 0 then (if root then 1 else 2) else Slotted(root, d, n - 1) + L.Slots(d.children[n - 1].name) + 1
  }

  lemma {:induction false} SlottedAgrees(t: Tree, i: nat, counts: seq<nat>, n: nat)
    requires ValidTree(t) && i < |t.directories| && |counts| == NodeCount(t) && n <= |t.directories[i].children|
    ensures Slotted(i == 0, t.directories[i], n) == L.EntryCount(Written(t, i, counts), n)
  {
    if n > 0 {
      SlottedAgrees(t, i, counts, n - 1);
      assert ValidChild(t, t.directories[i].children[n - 1]);
    }
  }

  /** What is reserved for a directory before allocation is what writing it needs. */
  lemma ReservationFits(t: Tree, i: nat, counts: seq<nat>)
    requires ValidTree(t) && i < |t.directories| && |counts| == NodeCount(t)
    ensures L.ReservedClusters(Written(t, i, counts)) == DirectoryClusters(i == 0, t.directories[i])
  {
    SlottedAgrees(t, i, counts, |t.directories[i].children|);
  }

  function FileClusters(size: int): (n: int)
    requires size >= 0
    ensures n >= 1 && size <= n * F.CLUSTER && (n == 1 || (n - 1) * F.CLUSTER < size)
  {
    var n := (size + F.CLUSTER - 1) / F.CLUSTER;
    if n == 0 then 1 else n
  }

  predicate FileFits(f: FileNode) { 0 <= f.size <= F.MAX_UINT32 }

  /** Clusters of every node, directories first, when every file fits the format. */
  ghost predicate CountsOf(t: Tree, counts: seq<nat>) {
    && |counts| == NodeCount(t)
    && (forall i :: 0 <= i < |t.directories| ==> counts[i] == DirectoryClusters(i == 0, t.directories[i]))
    && (forall i :: 0 <= i < |t.files| ==>
      FileFits(t.files[i]) && counts[|t.directories| + i] == FileClusters(t.files[i].size))
  }

  method CountClusters(t: Tree) returns (counts: seq<nat>, total: nat, ok: bool)
    ensures ok <==> forall i :: 0 <= i < |t.files| ==> FileFits(t.files[i])
    ensures ok ==> CountsOf(t, counts) && total == F.Sum(counts, |counts|)
  {
    counts, total := CountDirectories(t);
    for i := 0 to |t.files|
      invariant |counts| == |t.directories| + i && total == F.Sum(counts, |counts|)
      invariant forall k :: 0 <= k < |t.directories| ==> counts[k] == DirectoryClusters(k == 0, t.directories[k])
      invariant forall k :: 0 <= k < i ==>
        FileFits(t.files[k]) && counts[|t.directories| + k] == FileClusters(t.files[k].size)
    {
      if t.files[i].size < 0 || t.files[i].size > F.MAX_UINT32 { return counts, total, false; }
      var n := FileClusters(t.files[i].size);
      SumPrefix(counts, n, |counts|);
      counts, total := counts + [n], total + n;
    }
    ok := true;
  }

  method CountDirectories(t: Tree) returns (counts: seq<nat>, total: nat)
    ensures |counts| == |t.directories| && total == F.Sum(counts, |counts|)
    ensures forall k :: 0 <= k < |t.directories| ==> counts[k] == DirectoryClusters(k == 0, t.directories[k])
  {
    counts, total := [], 0;
    for i := 0 to |t.directories|
      invariant |counts| == i && total == F.Sum(counts, i)
      invariant forall k :: 0 <= k < i ==> counts[k] == DirectoryClusters(k == 0, t.directories[k])
    {
      var n := DirectoryClusters(i == 0, t.directories[i]);
      SumPrefix(counts, n, i);
      counts, total := counts + [n], total + n;
    }
  }

  lemma {:induction false} SumPrefix(counts: seq<nat>, n: nat, i: nat)
    requires i <= |counts|
    ensures F.Sum(counts + [n], i) == F.Sum(counts, i)
  {
    if i > 0 {
      SumPrefix(counts, n, i - 1);
    }
  }

  // ---- Metadata ----

  /** Bytes that the disk shows from an offset on. */
  datatype Placement = Placement(offset: int, data: seq<byte>)

  /** Each extent shows its placement's bytes from the metadata store. */
  ghost predicate Shows(meta: seq<MetadataExtent>, metadata: seq<byte>, placed: seq<Placement>) {
    |meta| == |placed| && forall k :: 0 <= k < |meta| ==> ShowsOne(meta[k], metadata, placed[k])
  }

  ghost predicate ShowsOne(e: MetadataExtent, metadata: seq<byte>, p: Placement) {
    && e.offset == p.offset && e.length == |p.data| && 0 <= e.storage && e.storage + e.length <= |metadata|
    && metadata[e.storage..e.storage + e.length] == p.data
  }

  lemma AddShows(meta: seq<MetadataExtent>, metadata: seq<byte>, placed: seq<Placement>, p: Placement)
    requires Shows(meta, metadata, placed)
    ensures Shows(meta + [MetadataExtent(p.offset, |p.data|, |metadata|)], metadata + p.data, placed + [p])
  {
    var all := metadata + p.data;
    forall k | 0 <= k < |meta| ensures ShowsOne(meta[k], all, placed[k]) {
      assert all[meta[k].storage..meta[k].storage + meta[k].length]
        == metadata[meta[k].storage..meta[k].storage + meta[k].length];
    }
    assert all[|metadata|..|metadata| + |p.data|] == p.data;
  }

  /** The first records of a disk. */
  datatype Records = Records(mbr: seq<byte>, boot: seq<byte>)

  /** Conversion to an unsigned 32-bit number. */
  function Uint32(v: int): nat { v % 0x1_0000_0000 }

  /** The identity of a volume: the first word of its digest, and never zero. */
  function VolumeId(digest: nat): nat { if digest == 0 then 0x5742_4743 else digest }

  function RecordsOf(t: Tree, g: F.Geometry, volumeId: nat): Records
    requires |t.volume| == 11
  {
    Records(MbrSector(F.PARTITION_START, Uint32(g.partitionSectors), volumeId),
      BootSector(Boot(F.SECTORS_PER_CLUSTER, Uint32(g.partitionSectors), Uint32(g.fatSectors), 2, volumeId, t.volume)))
  }

  function Sector(data: seq<byte>): (s: seq<byte>)
    ensures |s| == F.SECTOR
  {
    seq<byte>(F.SECTOR, k requires 0 <= k < F.SECTOR => if k < |data| then data[k] else 0)
  }

  function DataStart(g: F.Geometry): int { (F.PARTITION_START + g.firstData) * F.SECTOR }

  function TableStart(g: F.Geometry, copy: int): int {
    (F.PARTITION_START + F.RESERVED + copy * g.fatSectors) * F.SECTOR
  }

  function NodeStart(g: F.Geometry, counts: seq<nat>, i: nat): int
    requires i <= |counts|
  {
    DataStart(g) + F.Sum(counts, i) * F.CLUSTER
  }

  /** Boot records and their backups. */
  function RecordPlacements(r: Records, info: seq<byte>): seq<Placement> {
    [Placement(0, Sector(r.mbr)), Placement(F.PARTITION_START * F.SECTOR, Sector(r.boot)),
     Placement((F.PARTITION_START + 6) * F.SECTOR, Sector(r.boot)), Placement((F.PARTITION_START + 1) * F.SECTOR, info),
     Placement((F.PARTITION_START + 7) * F.SECTOR, info)]
  }

  /** The two table copies. */
  function TablePlacements(g: F.Geometry, fat: seq<byte>): seq<Placement> {
    [Placement(TableStart(g, 0), fat), Placement(TableStart(g, 1), fat)]
  }

  function DirectoryPlacements(t: Tree, g: F.Geometry, counts: seq<nat>, n: nat): (p: seq<Placement>)
    requires ValidTree(t) && |counts| == NodeCount(t) && n <= |t.directories|
    ensures |p| == n
    ensures forall i :: 0 <= i < n ==>
      p[i] == Placement(NodeStart(g, counts, i), L.DirectoryBytes(Written(t, i, counts)))
  {
    if n == 0 then [] else
      DirectoryPlacements(t, g, counts, n - 1)
      + [Placement(NodeStart(g, counts, n - 1), L.DirectoryBytes(Written(t, n - 1, counts)))]
  }

  method AddMetadata(meta: seq<MetadataExtent>, metadata: seq<byte>, offset: int, data: seq<byte>,
                     ghost placed: seq<Placement>)
    returns (m: seq<MetadataExtent>, s: seq<byte>, ghost p: seq<Placement>)
    requires Shows(meta, metadata, placed)
    ensures p == placed + [Placement(offset, data)] && Shows(m, s, p)
    ensures s == metadata + data && m == meta + [MetadataExtent(offset, |data|, |metadata|)]
  {
    AddShows(meta, metadata, placed, Placement(offset, data));
    p := placed + [Placement(offset, data)];
    m, s := meta + [MetadataExtent(offset, |data|, |metadata|)], metadata + data;
  }

  method AddRecords(r: Records, info: seq<byte>) returns (meta: seq<MetadataExtent>, metadata: seq<byte>)
    ensures Shows(meta, metadata, RecordPlacements(r, info))
  {
    ghost var placed;
    meta, metadata, placed := AddMetadata([], [], 0, Sector(r.mbr), []);
    meta, metadata, placed := AddMetadata(meta, metadata, F.PARTITION_START * F.SECTOR, Sector(r.boot), placed);
    meta, metadata, placed := AddMetadata(meta, metadata, (F.PARTITION_START + 6) * F.SECTOR, Sector(r.boot), placed);
    meta, metadata, placed := AddMetadata(meta, metadata, (F.PARTITION_START + 1) * F.SECTOR, info, placed);
    meta, metadata, placed := AddMetadata(meta, metadata, (F.PARTITION_START + 7) * F.SECTOR, info, placed);
    assert placed == RecordPlacements(r, info);
  }

  /** Both table copies share one stored table. */
  method AddTables(g: F.Geometry, fat: seq<byte>, meta: seq<MetadataExtent>, metadata: seq<byte>,
                   ghost placed: seq<Placement>)
    returns (m: seq<MetadataExtent>, s: seq<byte>)
    requires Shows(meta, metadata, placed)
    ensures Shows(m, s, placed + TablePlacements(g, fat))
  {
    ghost var both;
    m, s, both := AddMetadata(meta, metadata, TableStart(g, 0), fat, placed);
    assert ShowsOne(m[|meta|], s, both[|meta|]);
    m := m + [MetadataExtent(TableStart(g, 1), |fat|, |metadata|)];
    assert placed + TablePlacements(g, fat) == both + [Placement(TableStart(g, 1), fat)];
  }

  method AddDirectories(t: Tree, g: F.Geometry, counts: seq<nat>, meta: seq<MetadataExtent>, metadata: seq<byte>,
                        ghost fixed: seq<Placement>)
    returns (m: seq<MetadataExtent>, s: seq<byte>, overflow: bool)
    requires ValidTree(t) && |counts| == NodeCount(t) && Shows(meta, metadata, fixed)
    ensures !overflow && Shows(m, s, fixed + DirectoryPlacements(t, g, counts, |t.directories|))
  {
    m, s, overflow := meta, metadata, false;
    ghost var placed := fixed;
    assert fixed + DirectoryPlacements(t, g, counts, 0) == fixed;
    for i := 0 to |t.directories|
      invariant placed == fixed + DirectoryPlacements(t, g, counts, i) && Shows(m, s, placed) && !overflow
    {
      var bytes, full := L.BuildDirectory(Written(t, i, counts));
      if full { return m, s, true; }
      ConcatAssociates(fixed, DirectoryPlacements(t, g, counts, i), [Placement(NodeStart(g, counts, i), bytes)]);
      m, s, placed := AddMetadata(m, s, NodeStart(g, counts, i), bytes, placed);
    }
  }

  // ---- File extents ----

  function SourceOf(f: FileNode, offset: int): SourceExtent {
    SourceExtent(offset, f.size, f.path, f.sourceOffset, f.sourceSize)
  }

  function SaveOf(f: FileNode, offset: int): SaveExtent {
    SaveExtent(offset, f.size, f.objectId, f.cardOffset, f.cardSize)
  }

  predicate GoodSave(f: FileNode) {
    && f.objectId != "" && f.cardSize > 0 && f.size == f.cardSize && f.cardOffset >= 0
    && f.cardOffset <= f.cardSize - f.size && f.path == ""
  }

  /** A save file is backed by a card, every other file by a source. */
  predicate GoodFile(f: FileNode) { if f.writable then GoodSave(f) else f.path != "" }

  function FileStart(t: Tree, g: F.Geometry, counts: seq<nat>, i: nat): int
    requires |counts| == NodeCount(t) && i <= |t.files|
  {
    NodeStart(g, counts, |t.directories| + i)
  }

  function Sources(t: Tree, g: F.Geometry, counts: seq<nat>, n: nat): seq<SourceExtent>
    requires |counts| == NodeCount(t) && n <= |t.files|
  {
    if n == 0 then []
    else if t.files[n - 1].writable then Sources(t, g, counts, n - 1)
    else Sources(t, g, counts, n - 1) + [SourceOf(t.files[n - 1], FileStart(t, g, counts, n - 1))]
  }

  function Saves(t: Tree, g: F.Geometry, counts: seq<nat>, n: nat): seq<SaveExtent>
    requires |counts| == NodeCount(t) && n <= |t.files|
  {
    if n == 0 then []
    else if t.files[n - 1].writable then
      Saves(t, g, counts, n - 1) + [SaveOf(t.files[n - 1], FileStart(t, g, counts, n - 1))]
    else Saves(t, g, counts, n - 1)
  }

  datatype Mapped = Mapped(sources: seq<SourceExtent>, saves: seq<SaveExtent>) | InvalidSave | NoSource

  method MapFiles(t: Tree, g: F.Geometry, counts: seq<nat>) returns (r: Mapped)
    requires |counts| == NodeCount(t)
    ensures r.Mapped? <==> forall i :: 0 <= i < |t.files| ==> GoodFile(t.files[i])
    ensures r.Mapped? ==> r.sources == Sources(t, g, counts, |t.files|) && r.saves == Saves(t, g, counts, |t.files|)
  {
    var sources, saves := [], [];
    for i := 0 to |t.files|
      invariant forall k :: 0 <= k < i ==> GoodFile(t.files[k])
      invariant sources == Sources(t, g, counts, i) && saves == Saves(t, g, counts, i)
    {
      var f := t.files[i];
      var offset := FileStart(t, g, counts, i);
      if f.writable {
        if f.objectId == "" || f.cardSize <= 0 || f.size != f.cardSize || f.cardOffset < 0
          || f.cardOffset > f.cardSize - f.size || f.path != "" { return InvalidSave; }
        saves := saves + [SaveOf(f, offset)];
      } else {
        if f.path == "" { return NoSource; }
        sources := sources + [SourceOf(f, offset)];
      }
    }
    r := Mapped(sources, saves);
  }

  // ---- Order of the lists ----

  lemma {:induction false} NodesAscend(g: F.Geometry, counts: seq<nat>, i: nat, j: nat)
    requires i < j <= |counts|
    ensures NodeStart(g, counts, i) + counts[i] * F.CLUSTER <= NodeStart(g, counts, j)
  {
    F.SumGrows(counts, i + 1, j);
  }

  /** Ranges that start below `hi`, end at most there, and start at or after `lo`. */
  ghost predicate Within(spans: seq<Span>, lo: int, hi: int) {
    forall i :: 0 <= i < |spans| ==> lo <= spans[i].start <= spans[i].end <= hi && spans[i].start < hi
  }

  ghost predicate StrictlySeparate(a: seq<Span>, b: seq<Span>) {
    forall i, j :: 0 <= i < |a| && 0 <= j < |b| ==> Clear(a[i], b[j], true)
  }

  lemma Bands(a: seq<Span>, b: seq<Span>, lo: int, middle: int, hi: int)
    requires Within(a, lo, middle) && Within(b, middle, hi)
    ensures StrictlySeparate(a, b)
  {
  }

  lemma ApartJoin(a: seq<Span>, b: seq<Span>)
    requires Apart(a, true) && Apart(b, true) && StrictlySeparate(a, b)
    ensures Apart(a + b, true)
  {
    var all := a + b;
    forall i, j | 0 <= i < j < |all| ensures Clear(all[i], all[j], true) {
      if i < |a| <= j {
        assert all[i] == a[i] && all[j] == b[j - |a|];
      }
    }
  }

  /** In order with different starts, inside a band. */
  ghost predicate Climbs(spans: seq<Span>, lo: int, hi: int) {
    InOrder(spans) && Within(spans, lo, hi) && forall i, j :: 0 <= i < j < |spans| ==> spans[i].start < spans[j].start
  }

  lemma ClimbsOn(spans: seq<Span>, lo: int, bound: int, next: Span, further: int)
    requires Climbs(spans, lo, bound) && lo <= bound <= next.start <= next.end <= further && next.start < further
    ensures Climbs(spans + [next], lo, further)
  {
  }

  lemma ClimbsApart(spans: seq<Span>, lo: int, hi: int)
    requires Climbs(spans, lo, hi)
    ensures Apart(spans, true)
  {
  }

  lemma SeparateOn(a: seq<Span>, b: seq<Span>, lo: int, bound: int, next: Span)
    requires StrictlySeparate(a, b) && Within(a, lo, bound) && Within(b, lo, bound) && bound <= next.start <= next.end
    ensures StrictlySeparate(a + [next], b) && StrictlySeparate(a, b + [next])
  {
  }

  /** Both lists ascend inside the band and have no position and no start in common. */
  ghost predicate FilesPlaced(sources: seq<Span>, saves: seq<Span>, lo: int, hi: int) {
    lo <= hi && Climbs(sources, lo, hi) && Climbs(saves, lo, hi) && StrictlySeparate(saves, sources)
  }

  /** Files are placed in ascending order, so both lists ascend as built and stay apart. */
  lemma {:induction false} FilesClimb(t: Tree, g: F.Geometry, counts: seq<nat>, n: nat)
    requires CountsOf(t, counts) && n <= |t.files|
    ensures FilesPlaced(SourceSpans(Sources(t, g, counts, n)), SaveSpans(Saves(t, g, counts, n)),
                        FileStart(t, g, counts, 0), FileStart(t, g, counts, n))
  {
    if n > 0 {
      FilesClimb(t, g, counts, n - 1);
      FileSpans(t, g, counts, n);
      FileInItsClusters(t, g, counts, n - 1);
      PlaceNext(SourceSpans(Sources(t, g, counts, n - 1)), SaveSpans(Saves(t, g, counts, n - 1)),
                SourceSpans(Sources(t, g, counts, n)), SaveSpans(Saves(t, g, counts, n)),
                FileStart(t, g, counts, 0), FileStart(t, g, counts, n - 1), FileRange(t, g, counts, n - 1),
                FileStart(t, g, counts, n));
    }
  }

  /** Where the bytes of file `i` lie. */
  function FileRange(t: Tree, g: F.Geometry, counts: seq<nat>, i: nat): Span
    requires |counts| == NodeCount(t) && i < |t.files|
  {
    Span(FileStart(t, g, counts, i), FileStart(t, g, counts, i) + t.files[i].size)
  }

  lemma FileInItsClusters(t: Tree, g: F.Geometry, counts: seq<nat>, i: nat)
    requires CountsOf(t, counts) && i < |t.files|
    ensures var r := FileRange(t, g, counts, i);
      r.start <= r.end <= FileStart(t, g, counts, i + 1) && r.start < FileStart(t, g, counts, i + 1)
  {
    assert FileFits(t.files[i]);
  }

  lemma PlaceNext(sources: seq<Span>, saves: seq<Span>, moreSources: seq<Span>, moreSaves: seq<Span>,
                  lo: int, at: int, next: Span, hi: int)
    requires FilesPlaced(sources, saves, lo, at) && at == next.start <= next.end <= hi && at < hi
    requires
      || (moreSources == sources + [] && moreSaves == saves + [next])
      || (moreSources == sources + [next] && moreSaves == saves + [])
    ensures FilesPlaced(moreSources, moreSaves, lo, hi)
  {
    ClimbBoth(sources, saves, lo, at, next, hi);
    assert sources + [] == sources && saves + [] == saves;
  }

  lemma ClimbBoth(sources: seq<Span>, saves: seq<Span>, lo: int, at: int, next: Span, hi: int)
    requires Climbs(sources, lo, at) && Climbs(saves, lo, at) && StrictlySeparate(saves, sources)
    requires lo <= at == next.start <= next.end <= hi && at < hi
    ensures Climbs(sources, lo, hi) && Climbs(sources + [next], lo, hi)
    ensures Climbs(saves, lo, hi) && Climbs(saves + [next], lo, hi)
    ensures StrictlySeparate(saves + [next], sources) && StrictlySeparate(saves, sources + [next])
  {
    SeparateOn(saves, sources, lo, at, next);
    ClimbsOn(sources, lo, at, next, hi);
    ClimbsOn(saves, lo, at, next, hi);
  }

  lemma FileSpans(t: Tree, g: F.Geometry, counts: seq<nat>, n: nat)
    requires |counts| == NodeCount(t) && 0 < n <= |t.files|
    ensures SourceSpans(Sources(t, g, counts, n)) == SourceSpans(Sources(t, g, counts, n - 1))
      + (if t.files[n - 1].writable then [] else [FileRange(t, g, counts, n - 1)])
    ensures SaveSpans(Saves(t, g, counts, n)) == SaveSpans(Saves(t, g, counts, n - 1))
      + (if t.files[n - 1].writable then [FileRange(t, g, counts, n - 1)] else [])
  {
  }

  // ---- The metadata list ----

  function PlacedSpans(placed: seq<Placement>): (s: seq<Span>)
    ensures |s| == |placed|
  {
    seq(|placed|, k requires 0 <= k < |placed| => Span(placed[k].offset, placed[k].offset + |placed[k].data|))
  }

  function Placements(t: Tree, g: F.Geometry, counts: seq<nat>, r: Records, info: seq<byte>,
                      fat: seq<byte>): seq<Placement>
    requires ValidTree(t) && |counts| == NodeCount(t)
  {
    RecordPlacements(r, info) + TablePlacements(g, fat) + DirectoryPlacements(t, g, counts, |t.directories|)
  }

  lemma RecordsApart(g: F.Geometry, r: Records, info: seq<byte>)
    requires |info| == F.SECTOR
    ensures Apart(PlacedSpans(RecordPlacements(r, info)), true)
    ensures Within(PlacedSpans(RecordPlacements(r, info)), 0, TableStart(g, 0))
  {
  }

  lemma TablesApart(g: F.Geometry, fat: seq<byte>)
    requires |fat| == g.fatSectors * F.SECTOR > 0 && g.firstData == F.RESERVED + 2 * g.fatSectors
    ensures Apart(PlacedSpans(TablePlacements(g, fat)), true)
    ensures Within(PlacedSpans(TablePlacements(g, fat)), TableStart(g, 0), DataStart(g))
  {
  }

  /** A directory fills its node's clusters exactly. */
  lemma DirectorySpan(t: Tree, g: F.Geometry, counts: seq<nat>, i: nat)
    requires ValidTree(t) && CountsOf(t, counts) && i < |t.directories|
    ensures |L.DirectoryBytes(Written(t, i, counts))| == counts[i] * F.CLUSTER > 0
  {
    ReservationFits(t, i, counts);
  }

  /** Placements that fill the clusters of the first nodes. */
  ghost predicate FillsNodes(placed: seq<Placement>, g: F.Geometry, counts: seq<nat>) {
    |placed| <= |counts| && forall i :: 0 <= i < |placed| ==> FillsNode(placed[i], g, counts, i)
  }

  ghost predicate FillsNode(p: Placement, g: F.Geometry, counts: seq<nat>, i: nat)
    requires i < |counts|
  {
    p.offset == NodeStart(g, counts, i) && |p.data| == counts[i] * F.CLUSTER > 0
  }

  lemma DirectoriesFill(t: Tree, g: F.Geometry, counts: seq<nat>)
    requires ValidTree(t) && CountsOf(t, counts)
    ensures FillsNodes(DirectoryPlacements(t, g, counts, |t.directories|), g, counts)
  {
    var placed := DirectoryPlacements(t, g, counts, |t.directories|);
    forall i | 0 <= i < |placed| ensures FillsNode(placed[i], g, counts, i) {
      DirectorySpan(t, g, counts, i);
    }
  }

  lemma NodesApart(placed: seq<Placement>, g: F.Geometry, counts: seq<nat>)
    requires FillsNodes(placed, g, counts)
    ensures Apart(PlacedSpans(placed), true)
    ensures Within(PlacedSpans(placed), DataStart(g), NodeStart(g, counts, |placed|))
  {
    var spans := PlacedSpans(placed);
    forall i | 0 <= i < |spans| ensures DataStart(g) <= spans[i].start < spans[i].end <= NodeStart(g, counts, |spans|) {
      assert FillsNode(placed[i], g, counts, i);
      F.SumGrows(counts, i + 1, |spans|);
    }
    forall i, j | 0 <= i < j < |spans| ensures Clear(spans[i], spans[j], true) {
      assert FillsNode(placed[i], g, counts, i) && FillsNode(placed[j], g, counts, j);
      NodesAscend(g, counts, i, j);
    }
  }

  lemma PlacedJoin(a: seq<Placement>, b: seq<Placement>)
    ensures PlacedSpans(a + b) == PlacedSpans(a) + PlacedSpans(b)
  {
  }

  /** The records, the tables and the directories lie apart, below the files. */
  lemma PlacementsApart(t: Tree, g: F.Geometry, counts: seq<nat>, r: Records, info: seq<byte>, fat: seq<byte>)
    requires ValidTree(t) && CountsOf(t, counts) && |info| == F.SECTOR
    requires |fat| == g.fatSectors * F.SECTOR > 0 && g.firstData == F.RESERVED + 2 * g.fatSectors
    ensures var spans := PlacedSpans(Placements(t, g, counts, r, info, fat));
      Apart(spans, true) && Within(spans, 0, FileStart(t, g, counts, 0))
  {
    RecordsApart(g, r, info);
    TablesApart(g, fat);
    DirectoriesFill(t, g, counts);
    NodesApart(DirectoryPlacements(t, g, counts, |t.directories|), g, counts);
    F.SumGrows(counts, 0, |t.directories|);
    JoinThree(RecordPlacements(r, info), TablePlacements(g, fat), DirectoryPlacements(t, g, counts, |t.directories|),
              TableStart(g, 0), DataStart(g), FileStart(t, g, counts, 0));
  }

  lemma JoinThree(a: seq<Placement>, b: seq<Placement>, c: seq<Placement>, x: int, y: int, z: int)
    requires Apart(PlacedSpans(a), true) && Apart(PlacedSpans(b), true) && Apart(PlacedSpans(c), true)
    requires 0 <= x <= y <= z
    requires Within(PlacedSpans(a), 0, x) && Within(PlacedSpans(b), x, y) && Within(PlacedSpans(c), y, z)
    ensures Apart(PlacedSpans(a + b + c), true) && Within(PlacedSpans(a + b + c), 0, z)
  {
    Stacked(PlacedSpans(a), PlacedSpans(b), 0, x, y);
    PlacedJoin(a, b);
    Stacked(PlacedSpans(a + b), PlacedSpans(c), 0, y, z);
    PlacedJoin(a + b, c);
  }

  lemma Stacked(a: seq<Span>, b: seq<Span>, lo: int, middle: int, hi: int)
    requires Apart(a, true) && Apart(b, true) && Within(a, lo, middle) && Within(b, middle, hi) && lo <= middle <= hi
    ensures Apart(a + b, true) && Within(a + b, lo, hi)
  {
    Bands(a, b, lo, middle, hi);
    ApartJoin(a, b);
  }

  function Offset(): MetadataExtent -> int { (e: MetadataExtent) => e.offset }

  lemma {:induction false} InsertMaps(e: MetadataExtent, s: seq<MetadataExtent>)
    ensures MetaSpans(Insert(e, s, Offset())) == Insert(e.Range(), MetaSpans(s), Start())
  {
    if s == [] || e.offset <= s[0].offset {
      assert MetaSpans([e] + s) == [e.Range()] + MetaSpans(s);
    } else {
      InsertMaps(e, s[1..]);
      assert MetaSpans(s)[1..] == MetaSpans(s[1..]);
      assert MetaSpans([s[0]] + Insert(e, s[1..], Offset())) == [s[0].Range()] + MetaSpans(Insert(e, s[1..], Offset()));
    }
  }

  /** Sorting the extents sorts their ranges. */
  lemma {:induction false} SortMaps(s: seq<MetadataExtent>)
    ensures MetaSpans(Sort(s, Offset())) == Sort(MetaSpans(s), Start())
  {
    if s != [] {
      SortMaps(s[1..]);
      assert MetaSpans(s)[1..] == MetaSpans(s[1..]);
      InsertMaps(s[0], Sort(s[1..], Offset()));
    }
  }

  lemma SortedInOrder(spans: seq<Span>, lo: int, hi: int)
    requires Apart(spans, true) && Within(spans, lo, hi)
    ensures InOrder(Sort(spans, Start())) && Apart(Sort(spans, Start()), true) && Within(Sort(spans, Start()), lo, hi)
  {
    var sorted := Sort(spans, Start());
    SortSorts(spans, Start());
    SortApart(spans, true);
    forall i | 0 <= i < |sorted| ensures lo <= sorted[i].start <= sorted[i].end <= hi && sorted[i].start < hi {
      assert sorted[i] in multiset(sorted);
      assert sorted[i] in spans;
    }
    NeighboursSuffice(sorted);
    forall i, j | 0 <= i < j < |sorted| ensures sorted[i].end <= sorted[j].start {
      ChainedReaches(sorted, i, j);
    }
  }

  /** A list that is already in order stays as it is. */
  lemma {:induction false} SortStays<T>(s: seq<T>, key: T -> int)
    requires Sorted(s, key)
    ensures Sort(s, key) == s
  {
    if s != [] {
      assert Sorted(s[1..], key) by {
        forall i | 0 <= i < |s[1..]| - 1 ensures key(s[1..][i]) <= key(s[1..][i + 1]) {
          assert key(s[i + 1]) <= key(s[i + 1 + 1]);
        }
      }
      SortStays(s[1..], key);
      assert |s| > 1 ==> key(s[0]) <= key(s[0 + 1]);
      Uncons(s);
    }
  }

  // ---- Which libraries are accepted ----

  /** The source range lies in the source file. */
  predicate GoodRange(f: FileNode) { f.writable || (f.sourceOffset >= 0 && f.sourceOffset + f.size <= f.sourceSize) }

  ghost predicate SharesObject(a: FileNode, b: FileNode) { a.writable && b.writable && a.objectId == b.objectId }

  ghost predicate DistinctObjects(t: Tree, n: nat)
    requires n <= |t.files|
  {
    forall i, j :: 0 <= i < j < n ==> !SharesObject(t.files[i], t.files[j])
  }

  ghost predicate HasSave(t: Tree, n: nat, objectId: string)
    requires n <= |t.files|
  {
    exists i :: 0 <= i < n && t.files[i].writable && t.files[i].objectId == objectId
  }

  ghost predicate Listed(saves: seq<SaveExtent>, objectId: string) {
    exists k :: 0 <= k < |saves| && saves[k].objectId == objectId
  }

  lemma {:induction false} SavesListed(t: Tree, g: F.Geometry, counts: seq<nat>, n: nat, objectId: string)
    requires |counts| == NodeCount(t) && n <= |t.files|
    ensures Listed(Saves(t, g, counts, n), objectId) <==> HasSave(t, n, objectId)
  {
    if n > 0 {
      SavesListed(t, g, counts, n - 1, objectId);
      var before, after := Saves(t, g, counts, n - 1), Saves(t, g, counts, n);
      if Listed(before, objectId) {
        var k :| 0 <= k < |before| && before[k].objectId == objectId;
        assert after[k].objectId == objectId;
      }
      if t.files[n - 1].writable && t.files[n - 1].objectId == objectId {
        assert after[|before|].objectId == objectId;
      }
    }
  }

  /** The saves list has one extent per object exactly when no two save files name the same one. */
  lemma {:induction false} ObjectsDistinct(t: Tree, g: F.Geometry, counts: seq<nat>, n: nat)
    requires |counts| == NodeCount(t) && n <= |t.files|
    ensures OneExtentPerObject(Saves(t, g, counts, n)) <==> DistinctObjects(t, n)
  {
    if n > 0 {
      ObjectsDistinct(t, g, counts, n - 1);
      var f := t.files[n - 1];
      if f.writable {
        var before, after := Saves(t, g, counts, n - 1), Saves(t, g, counts, n);
        SavesListed(t, g, counts, n - 1, f.objectId);
        OneMore(before, SaveOf(f, FileStart(t, g, counts, n - 1)));
        assert DistinctObjects(t, n) <==> DistinctObjects(t, n - 1) && !HasSave(t, n - 1, f.objectId) by {
          DistinctStep(t, n);
        }
      } else {
        assert DistinctObjects(t, n) <==> DistinctObjects(t, n - 1);
      }
    }
  }

  lemma OneMore(before: seq<SaveExtent>, e: SaveExtent)
    ensures OneExtentPerObject(before + [e]) <==> OneExtentPerObject(before) && !Listed(before, e.objectId)
  {
    var after := before + [e];
    if OneExtentPerObject(after) {
      forall k | 0 <= k < |before| ensures before[k].objectId != e.objectId {
        assert after[k].objectId != after[|before|].objectId;
      }
      forall i, j | 0 <= i < j < |before| ensures before[i].objectId != before[j].objectId {
        assert after[i].objectId != after[j].objectId;
      }
    }
  }

  lemma DistinctStep(t: Tree, n: nat)
    requires 0 < n <= |t.files| && t.files[n - 1].writable
    ensures DistinctObjects(t, n) <==> DistinctObjects(t, n - 1) && !HasSave(t, n - 1, t.files[n - 1].objectId)
  {
    if DistinctObjects(t, n) {
      forall i | 0 <= i < n - 1 ensures !(t.files[i].writable && t.files[i].objectId == t.files[n - 1].objectId) {
        assert !SharesObject(t.files[i], t.files[n - 1]);
      }
    }
  }

  ghost predicate ListsInBounds(sources: seq<SourceExtent>, saves: seq<SaveExtent>, size: int) {
    && (forall i :: 0 <= i < |sources| ==> SourceInBounds(sources[i], size))
    && (forall i :: 0 <= i < |saves| ==> SaveInBounds(saves[i], size))
  }

  lemma {:induction false} ListsBounded(t: Tree, g: F.Geometry, counts: seq<nat>, n: nat, size: int)
    requires CountsOf(t, counts) && n <= |t.files| && FileStart(t, g, counts, |t.files|) <= size && DataStart(g) >= 0
    requires forall i :: 0 <= i < |t.files| ==> GoodFile(t.files[i])
    ensures ListsInBounds(Sources(t, g, counts, n), Saves(t, g, counts, n), size) <==>
      forall i :: 0 <= i < n ==> GoodRange(t.files[i])
  {
    if n > 0 {
      ListsBounded(t, g, counts, n - 1, size);
      FileBounded(t, g, counts, n - 1, size);
      var f, at := t.files[n - 1], FileStart(t, g, counts, n - 1);
      BoundedOneMore(Sources(t, g, counts, n - 1), Saves(t, g, counts, n - 1), SourceOf(f, at), SaveOf(f, at), size);
    }
  }

  lemma BoundedOneMore(sources: seq<SourceExtent>, saves: seq<SaveExtent>, source: SourceExtent, save: SaveExtent,
                       size: int)
    ensures ListsInBounds(sources + [source], saves, size) <==>
      ListsInBounds(sources, saves, size) && SourceInBounds(source, size)
    ensures ListsInBounds(sources, saves + [save], size) <==>
      ListsInBounds(sources, saves, size) && SaveInBounds(save, size)
  {
    if ListsInBounds(sources + [source], saves, size) {
      assert (sources + [source])[|sources|] == source;
      assert forall i :: 0 <= i < |sources| ==> (sources + [source])[i] == sources[i];
    }
    if ListsInBounds(sources, saves + [save], size) {
      assert (saves + [save])[|saves|] == save;
      assert forall i :: 0 <= i < |saves| ==> (saves + [save])[i] == saves[i];
    }
  }

  lemma FileBounded(t: Tree, g: F.Geometry, counts: seq<nat>, i: nat, size: int)
    requires CountsOf(t, counts) && i < |t.files| && FileStart(t, g, counts, |t.files|) <= size && DataStart(g) >= 0
    requires GoodFile(t.files[i])
    ensures !t.files[i].writable ==>
      (SourceInBounds(SourceOf(t.files[i], FileStart(t, g, counts, i)), size) <==> GoodRange(t.files[i]))
    ensures t.files[i].writable ==> SaveInBounds(SaveOf(t.files[i], FileStart(t, g, counts, i)), size)
  {
    FileInItsClusters(t, g, counts, i);
    F.SumGrows(counts, |t.directories| + i + 1, NodeCount(t));
    assert FileFits(t.files[i]);
  }

  // ---- The build ----

  datatype Result =
    | Built(layout: Layout, geometry: F.Geometry, counts: seq<nat>, records: Records, fat: seq<byte>)
    | InvalidSize | NoFiles | FileTooLarge | NoCapacity | DirectoryOverflow | FileInvalid | RangesRejected

  function Info(g: F.Geometry, counts: seq<nat>): seq<byte>
    requires F.Sum(counts, |counts|) <= g.available
  {
    var free := g.available - F.Sum(counts, |counts|);
    FsInfo(free, if free == 0 then 0xffff_ffff else 2 + F.Sum(counts, |counts|))
  }

  /** Every placement is shown by some extent, and every extent shows some placement. */
  ghost predicate ShowsAll(meta: seq<MetadataExtent>, metadata: seq<byte>, placed: seq<Placement>) {
    && (forall k :: 0 <= k < |placed| ==> ShownBy(meta, metadata, placed[k]))
    && (forall j :: 0 <= j < |meta| ==> ShowsSome(meta[j], metadata, placed))
  }

  ghost predicate ShownBy(meta: seq<MetadataExtent>, metadata: seq<byte>, p: Placement) {
    exists j :: 0 <= j < |meta| && ShowsOne(meta[j], metadata, p)
  }

  ghost predicate ShowsSome(e: MetadataExtent, metadata: seq<byte>, placed: seq<Placement>) {
    exists k :: 0 <= k < |placed| && ShowsOne(e, metadata, placed[k])
  }

  lemma SortShowsAll(meta: seq<MetadataExtent>, metadata: seq<byte>, placed: seq<Placement>)
    requires Shows(meta, metadata, placed)
    ensures ShowsAll(Sort(meta, Offset()), metadata, placed)
  {
    var sorted := Sort(meta, Offset());
    SortSorts(meta, Offset());
    forall k | 0 <= k < |placed| ensures ShownBy(sorted, metadata, placed[k]) {
      assert meta[k] in multiset(meta);
      assert meta[k] in sorted;
      var j :| 0 <= j < |sorted| && sorted[j] == meta[k];
      assert ShowsOne(sorted[j], metadata, placed[k]);
    }
    forall j | 0 <= j < |sorted| ensures ShowsSome(sorted[j], metadata, placed) {
      assert sorted[j] in multiset(sorted);
      assert sorted[j] in meta;
      var k :| 0 <= k < |meta| && meta[k] == sorted[j];
      assert ShowsOne(sorted[j], metadata, placed[k]);
    }
  }

  lemma ShowsSpans(meta: seq<MetadataExtent>, metadata: seq<byte>, placed: seq<Placement>)
    requires Shows(meta, metadata, placed)
    ensures MetaSpans(meta) == PlacedSpans(placed)
  {
    forall k | 0 <= k < |meta| ensures MetaSpans(meta)[k] == PlacedSpans(placed)[k] {
      assert ShowsOne(meta[k], metadata, placed[k]);
    }
  }

  /** The table, the information sector and the lists that a build puts together, before validation. */
  ghost predicate Assembled(l: Layout, t: Tree, g: F.Geometry, counts: seq<nat>, r: Records, fat: seq<byte>) {
    && ValidTree(t) && CountsOf(t, counts) && (forall i :: 0 <= i < |t.files| ==> GoodFile(t.files[i]))
    && F.SizeAccepted(l.size) && F.SelectGeometry(l.size, F.Sum(counts, |counts|)) == Some(g)
    && F.Sum(counts, |counts|) <= g.available
    && W.Ordered(F.Runs(counts)) && |fat| == g.fatSectors * F.SECTOR && W.IsTable(fat, F.Runs(counts))
    && ShowsAll(l.meta, l.metadata, Placements(t, g, counts, r, Info(g, counts), fat))
    && l.sources == Sources(t, g, counts, |t.files|) && l.saves == Saves(t, g, counts, |t.files|)
  }

  ghost predicate RangesGood(t: Tree) {
    (forall i :: 0 <= i < |t.files| ==> GoodRange(t.files[i])) && DistinctObjects(t, |t.files|)
  }

  lemma HasNodes(t: Tree, counts: seq<nat>)
    requires ValidTree(t) && CountsOf(t, counts)
    ensures F.Sum(counts, |counts|) >= 1 && forall i :: 0 <= i < |counts| ==> counts[i] > 0
  {
    F.SumGrows(counts, 1, |counts|);
    forall i | 0 <= i < |counts| ensures counts[i] > 0 {
      if i >= |t.directories| {
        assert FileFits(t.files[i - |t.directories|]) && counts[|t.directories| + (i - |t.directories|)] > 0;
      }
    }
  }

  lemma EndsOnDisk(t: Tree, size: int, g: F.Geometry, counts: seq<nat>)
    requires ValidTree(t) && CountsOf(t, counts) && F.SizeAccepted(size)
    requires F.SelectGeometry(size, F.Sum(counts, |counts|)) == Some(g)
    ensures g.fatSectors > 0 && g.firstData == F.RESERVED + 2 * g.fatSectors && F.Allocatable(counts)
    ensures (F.Sum(counts, |counts|) + 2) * 4 <= g.fatSectors * F.SECTOR
    ensures F.Sum(counts, |counts|) <= g.available < 0x1000_0000
    ensures 0 <= FileStart(t, g, counts, 0) <= FileStart(t, g, counts, |t.files|) <= size
  {
    HasNodes(t, counts);
    F.GeometryHolds(size, F.Sum(counts, |counts|));
    F.SumGrows(counts, |t.directories|, |counts|);
  }

  /** The sorted metadata list: in order, apart, below the files, and in bounds. */
  lemma MetadataSound(t: Tree, size: int, g: F.Geometry, counts: seq<nat>, r: Records, fat: seq<byte>,
                      meta: seq<MetadataExtent>, metadata: seq<byte>)
    requires ValidTree(t) && CountsOf(t, counts) && F.SizeAccepted(size) && F.Sum(counts, |counts|) <= g.available
    requires F.SelectGeometry(size, F.Sum(counts, |counts|)) == Some(g) && |fat| == g.fatSectors * F.SECTOR
    requires Shows(meta, metadata, Placements(t, g, counts, r, Info(g, counts), fat))
    ensures var spans := MetaSpans(Sort(meta, Offset()));
      InOrder(spans) && Apart(spans, true) && Within(spans, 0, FileStart(t, g, counts, 0))
    ensures ShowsAll(Sort(meta, Offset()), metadata, Placements(t, g, counts, r, Info(g, counts), fat))
  {
    var placed := Placements(t, g, counts, r, Info(g, counts), fat);
    EndsOnDisk(t, size, g, counts);
    PlacementsApart(t, g, counts, r, Info(g, counts), fat);
    ShowsSpans(meta, metadata, placed);
    SortMaps(meta);
    SortedInOrder(PlacedSpans(placed), 0, FileStart(t, g, counts, 0));
    SortShowsAll(meta, metadata, placed);
  }

  lemma PlacementsNotEmpty(t: Tree, g: F.Geometry, counts: seq<nat>, r: Records, info: seq<byte>, fat: seq<byte>)
    requires ValidTree(t) && CountsOf(t, counts) && |info| > 0 && |fat| > 0
    ensures forall k :: 0 <= k < |Placements(t, g, counts, r, info, fat)| ==>
      |Placements(t, g, counts, r, info, fat)[k].data| > 0
  {
    var head := RecordPlacements(r, info) + TablePlacements(g, fat);
    var tail := DirectoryPlacements(t, g, counts, |t.directories|);
    DirectoriesFill(t, g, counts);
    var all: seq<Placement> := head + tail;
    forall k | 0 <= k < |all| ensures |all[k].data| > 0 {
      if k >= |head| {
        assert FillsNode(tail[k - |head|], g, counts, k - |head|);
      }
    }
  }

  lemma MetadataBounded(meta: seq<MetadataExtent>, metadata: seq<byte>, placed: seq<Placement>, hi: int, size: int)
    requires ShowsAll(meta, metadata, placed) && Within(MetaSpans(meta), 0, hi) && hi <= size
    requires forall k :: 0 <= k < |placed| ==> |placed[k].data| > 0
    ensures forall i :: 0 <= i < |meta| ==> MetaInBounds(meta[i], size)
    ensures forall i :: 0 <= i < |meta| ==> meta[i].storage >= 0 && meta[i].storage + meta[i].length <= |metadata|
  {
    forall i | 0 <= i < |meta|
      ensures MetaInBounds(meta[i], size) && meta[i].storage >= 0 && meta[i].storage + meta[i].length <= |metadata|
    {
      assert ShowsSome(meta[i], metadata, placed);
      assert MetaSpans(meta)[i].end <= hi && 0 <= MetaSpans(meta)[i].start;
    }
  }

  /** Three lists in ascending bands: the whole map is in order and apart. */
  lemma ListsApart(meta: seq<Span>, sources: seq<Span>, saves: seq<Span>, middle: int, hi: int)
    requires InOrder(meta) && Apart(meta, true) && Within(meta, 0, middle) && FilesPlaced(sources, saves, middle, hi)
    ensures Apart(meta + sources + saves, true)
    ensures B.Separate(saves, meta) && B.Separate(saves, sources) && B.Separate(meta, sources)
  {
    ClimbsApart(sources, middle, hi);
    ClimbsApart(saves, middle, hi);
    Bands(meta, sources, 0, middle, hi);
    Bands(meta, saves, 0, middle, hi);
    ApartJoin(meta, sources);
    JoinSeparate(meta, sources, saves);
    ApartJoin(meta + sources, saves);
    forall i, j | 0 <= i < |saves| && 0 <= j < |meta| ensures Disjoint(saves[i], meta[j]) {
      assert Clear(meta[j], saves[i], true);
    }
    forall i, j | 0 <= i < |saves| && 0 <= j < |sources| ensures Disjoint(saves[i], sources[j]) {
      assert Clear(saves[i], sources[j], true);
    }
    forall i, j | 0 <= i < |meta| && 0 <= j < |sources| ensures Disjoint(meta[i], sources[j]) {
      assert Clear(meta[i], sources[j], true);
    }
  }

  lemma JoinSeparate(meta: seq<Span>, sources: seq<Span>, saves: seq<Span>)
    requires StrictlySeparate(meta, saves) && StrictlySeparate(saves, sources)
    ensures StrictlySeparate(meta + sources, saves)
  {
    forall i, j | 0 <= i < |meta + sources| && 0 <= j < |saves| ensures Clear((meta + sources)[i], saves[j], true) {
      if i < |meta| {
        assert Clear(meta[i], saves[j], true);
      } else {
        assert Clear(saves[j], sources[i - |meta|], true);
      }
    }
  }

  /** What is left for validation to refuse: a source range outside its file, or one save object twice. */
  lemma AssembledIsSound(l: Layout, t: Tree, g: F.Geometry, counts: seq<nat>, r: Records, fat: seq<byte>)
    requires Assembled(l, t, g, counts, r, fat)
    requires InOrder(MetaSpans(l.meta)) && Apart(MetaSpans(l.meta), true)
    requires Within(MetaSpans(l.meta), 0, FileStart(t, g, counts, 0))
    ensures Apart(AllSpans(l), true)
    ensures InBounds(l) && OneExtentPerObject(l.saves) <==> RangesGood(t)
    ensures RangesGood(t) ==> B.WellFormed(l)
  {
    EndsOnDisk(t, l.size, g, counts);
    FilesClimb(t, g, counts, |t.files|);
    ListsApart(MetaSpans(l.meta), SourceSpans(l.sources), SaveSpans(l.saves),
               FileStart(t, g, counts, 0), FileStart(t, g, counts, |t.files|));
    PlacementsNotEmpty(t, g, counts, r, Info(g, counts), fat);
    MetadataBounded(l.meta, l.metadata, Placements(t, g, counts, r, Info(g, counts), fat),
      FileStart(t, g, counts, 0), l.size);
    ListsBounded(t, g, counts, |t.files|, l.size);
    ObjectsDistinct(t, g, counts, |t.files|);
  }

  // ---- Build ----

  /** Whether the directories' and files' clusters leave a geometry. */
  ghost predicate HasCapacity(size: int, t: Tree) {
    exists counts :: CountsOf(t, counts) && F.SelectGeometry(size, F.Sum(counts, |counts|)).Some?
  }

  ghost predicate FilesFit(t: Tree) {
    forall i :: 0 <= i < |t.files| ==> FileFits(t.files[i])
  }

  ghost predicate FilesGood(t: Tree) {
    forall i :: 0 <= i < |t.files| ==> GoodFile(t.files[i])
  }

  /** Exactly what a library must satisfy. */
  ghost predicate Acceptable(size: int, t: Tree) {
    F.SizeAccepted(size) && t.files != [] && FilesFit(t) && HasCapacity(size, t) && FilesGood(t) && RangesGood(t)
  }

  lemma CountsUnique(t: Tree, a: seq<nat>, b: seq<nat>)
    requires CountsOf(t, a) && CountsOf(t, b)
    ensures a == b
  {
    forall i | 0 <= i < |a| ensures a[i] == b[i] {
      if i >= |t.directories| {
        var k := i - |t.directories|;
        assert FileFits(t.files[k]) && a[|t.directories| + k] == b[|t.directories| + k];
      }
    }
  }

  lemma CapacityDecided(size: int, t: Tree, counts: seq<nat>)
    requires CountsOf(t, counts)
    ensures HasCapacity(size, t) <==> F.SelectGeometry(size, F.Sum(counts, |counts|)).Some?
  {
    if HasCapacity(size, t) {
      var other :| CountsOf(t, other) && F.SelectGeometry(size, F.Sum(other, |other|)).Some?;
      CountsUnique(t, other, counts);
    }
  }

  method Assemble(size: int, t: Tree, g: F.Geometry, counts: seq<nat>, records: Records) returns (r: Result)
    requires ValidTree(t) && CountsOf(t, counts) && F.SizeAccepted(size)
    requires F.SelectGeometry(size, F.Sum(counts, |counts|)) == Some(g)
    ensures r.Built? <==> FilesGood(t) && RangesGood(t)
    ensures r.Built? ==> r.geometry == g && r.counts == counts && r.records == records && r.layout.size == size
    ensures r != DirectoryOverflow
    ensures r.Built? ==> B.WellFormed(r.layout) && Apart(AllSpans(r.layout), true)
    ensures r.Built? ==> Assembled(r.layout, t, g, counts, records, r.fat)
  {
    EndsOnDisk(t, size, g, counts);
    var fat := F.BuildFat(counts, g.fatSectors);
    var info := Info(g, counts);
    var meta, metadata := AddRecords(records, info);
    meta, metadata := AddTables(g, fat, meta, metadata, RecordPlacements(records, info));
    var overflow;
    meta, metadata, overflow := AddDirectories(t, g, counts, meta, metadata,
      RecordPlacements(records, info) + TablePlacements(g, fat));
    if overflow { return DirectoryOverflow; }
    var files := MapFiles(t, g, counts);
    if !files.Mapped? { return FileInvalid; }
    MetadataSound(t, size, g, counts, records, fat, meta, metadata);
    var l := Layout(size, metadata, Sort(meta, Offset()), files.sources, files.saves);
    AssembledIsSound(l, t, g, counts, records, fat);
    var ok := ValidateRanges(l);
    if !ok { return RangesRejected; }
    r := Built(l, g, counts, records, fat);
  }

  method BuildCounted(size: int, t: Tree, counts: seq<nat>, total: nat, volumeId: nat)
    returns (r: Result)
    requires ValidTree(t) && CountsOf(t, counts) && F.SizeAccepted(size) && total == F.Sum(counts, |counts|)
    ensures r.Built? <==> HasCapacity(size, t) && FilesGood(t) && RangesGood(t)
    ensures r.Built? ==> r.layout.size == size && B.WellFormed(r.layout) && Apart(AllSpans(r.layout), true)
    ensures r.Built? ==> Assembled(r.layout, t, r.geometry, r.counts, r.records, r.fat)
    ensures r.Built? ==> r.records == RecordsOf(t, r.geometry, volumeId)
    ensures r != DirectoryOverflow
  {
    CapacityDecided(size, t, counts);
    var selected := F.SelectGeometry(size, total);
    if selected.None? { return NoCapacity; }
    r := Assemble(size, t, selected.value, counts, RecordsOf(t, selected.value, volumeId));
  }

  /** Builds the disk of every acceptable library, and of no other. `digest` begins the hash of its identity. */
  method Build(size: int, t: Tree, digest: nat) returns (r: Result)
    requires ValidTree(t)
    ensures r.Built? <==> Acceptable(size, t)
    ensures r.Built? ==> r.layout.size == size && B.WellFormed(r.layout) && Apart(AllSpans(r.layout), true)
    ensures r.Built? ==> Assembled(r.layout, t, r.geometry, r.counts, r.records, r.fat)
    ensures r.Built? ==> r.records == RecordsOf(t, r.geometry, VolumeId(digest))
    ensures r != DirectoryOverflow
  {
    if size <= (F.PARTITION_START + F.RESERVED) * F.SECTOR || size % F.SECTOR != 0 || size / F.SECTOR > F.MAX_UINT32 {
      return InvalidSize;
    }
    if |t.files| == 0 { return NoFiles; }
    r := BuildFiles(size, t, VolumeId(digest));
  }

  method BuildFiles(size: int, t: Tree, volumeId: nat) returns (r: Result)
    requires ValidTree(t) && F.SizeAccepted(size)
    ensures r.Built? <==> FilesFit(t) && HasCapacity(size, t) && FilesGood(t) && RangesGood(t)
    ensures r.Built? ==> r.layout.size == size && B.WellFormed(r.layout) && Apart(AllSpans(r.layout), true)
    ensures r.Built? ==> Assembled(r.layout, t, r.geometry, r.counts, r.records, r.fat)
    ensures r.Built? ==> r.records == RecordsOf(t, r.geometry, volumeId)
    ensures r != DirectoryOverflow
  {
    var counts, total, fits := CountClusters(t);
    if !fits { return FileTooLarge; }
    r := BuildCounted(size, t, counts, total, volumeId);
  }
}
