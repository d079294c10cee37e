/** The GameCube disk through the eyes of a driver: from a directory entry's bytes to the file's bytes. */
module Fat32Driver {
  import opened Basics
  import opened Bytes
  import opened VirtualExtents
  import opened FatDriver
  import opened Fat32Build
  import opened Fat32Theorems
  import F = Fat32Geometry
  import W = WiiFat
  import B = Fat32Backend
  import L = LongNames

  // ---- Where an entry lies ----

  /** Position of child `k`'s short entry among the entries: behind its long ones. */
  function ShortIndex(d: L.Directory, k: nat): nat
    requires k < |d.children|
  {
    L.EntryCount(d, k) + L.Slots(d.children[k].name)
  }

  lemma LastOf<T>(front: seq<T>, middle: seq<T>, last: T)
    ensures (front + (middle + [last]))[|front| + |middle|] == last
  {
  }

  lemma KeptAt<T>(front: seq<T>, back: seq<T>, i: nat)
    requires i < |front|
    ensures (front + back)[i] == front[i]
  {
  }

  lemma {:induction false} EntryListed(d: L.Directory, n: nat, k: nat)
    requires L.ShortNamesFit(d) && k < n <= |d.children|
    ensures ShortIndex(d, k) < |L.Entries(d, n)| && L.Entries(d, n)[ShortIndex(d, k)] == L.ShortOf(d.children[k])
    decreases n
  {
    var c := d.children[n - 1];
    if k < n - 1 {
      EntryListed(d, n - 1, k);
      KeptAt(L.Entries(d, n - 1), L.ChildEntries(c), ShortIndex(d, k));
    } else {
      L.EntriesCounted(d, k);
      LastOf(L.Entries(d, k), L.LfnEntries(c.name, L.Slots(c.name), L.Checksum(c.short, 0)), L.ShortOf(c));
    }
  }

  /** The short entry of child `k` stands in the directory's bytes. */
  lemma EntryInBytes(d: L.Directory, k: nat)
    requires L.ShortNamesFit(d) && k < |d.children|
    ensures var at := L.ENTRY_SIZE * ShortIndex(d, k);
      && at + L.ENTRY_SIZE <= |L.DirectoryBytes(d)|
      && L.DirectoryBytes(d)[at..at + L.ENTRY_SIZE] == L.ShortOf(d.children[k])
  {
    var n := |d.children|;
    L.EntriesCounted(d, n);
    EntryListed(d, n, k);
    L.FlattenedAt(L.Entries(d, n), ShortIndex(d, k));
    var flat, at := L.Flatten(L.Entries(d, n)), L.ENTRY_SIZE * ShortIndex(d, k);
    assert L.DirectoryBytes(d)[..|flat|] == flat;
    assert L.DirectoryBytes(d)[at..at + L.ENTRY_SIZE] == flat[at..at + L.ENTRY_SIZE];
  }

  // ---- The driver ----

  /** A disk that the builder laid out: its files, its directories and one copy of its table. */
  ghost predicate Mounted(l: Layout, t: Tree, g: F.Geometry, counts: seq<nat>, table: int, fat: seq<byte>) {
    && Readable(l) && ValidTree(t) && FilesLaid(l, t, g, counts)
    && F.Allocatable(counts) && W.Ordered(F.Runs(counts)) && W.IsTable(fat, F.Runs(counts))
    && (F.Sum(counts, |counts|) + 2) * 4 <= |fat|
    && ShownBy(l.meta, l.metadata, Placement(table, fat))
    && forall i :: 0 <= i < |t.directories| ==> DirectoryShown(l, t, g, counts, i)
  }

  ghost predicate DirectoryShown(l: Layout, t: Tree, g: F.Geometry, counts: seq<nat>, i: nat)
    requires ValidTree(t) && |counts| == NodeCount(t) && i < |t.directories|
  {
    ShownBy(l.meta, l.metadata, Placement(NodeStart(g, counts, i), L.DirectoryBytes(Written(t, i, counts))))
  }

  /** Every disk that the builder makes can be mounted, by either copy of its table. */
  lemma BuiltMounts(l: Layout, t: Tree, g: F.Geometry, counts: seq<nat>, r: Records, fat: seq<byte>, copy: int)
    requires B.WellFormed(l) && Assembled(l, t, g, counts, r, fat) && 0 <= copy <= 1
    ensures Mounted(l, t, g, counts, TableStart(g, copy), fat)
  {
    BuiltFilesLaid(l, t, g, counts, r, fat);
    BuiltMetadataLaid(l, g, r, Info(g, counts), fat, DirectoryPlacements(t, g, counts, |t.directories|));
    DirectoriesShown(l, t, g, counts, r, Info(g, counts), fat);
    TableCopyShown(l, g, r, Info(g, counts), fat, DirectoryPlacements(t, g, counts, |t.directories|), copy);
    HasNodes(t, counts);
    F.GeometryHolds(l.size, F.Sum(counts, |counts|));
  }

  lemma TableCopyShown(l: Layout, g: F.Geometry, r: Records, info: seq<byte>, fat: seq<byte>,
                       directories: seq<Placement>, copy: int)
    requires MetadataLaid(l, g, r, info, fat, directories) && 0 <= copy <= 1
    ensures ShownBy(l.meta, l.metadata, Placement(TableStart(g, copy), fat))
  {
    assert copy == 0 || copy == 1;
  }

  lemma DirectoriesShown(l: Layout, t: Tree, g: F.Geometry, counts: seq<nat>, r: Records, info: seq<byte>,
                         fat: seq<byte>)
    requires ValidTree(t) && |counts| == NodeCount(t)
    requires MetadataLaid(l, g, r, info, fat, DirectoryPlacements(t, g, counts, |t.directories|))
    ensures forall i :: 0 <= i < |t.directories| ==> DirectoryShown(l, t, g, counts, i)
  {
    var directories := DirectoryPlacements(t, g, counts, |t.directories|);
    forall i | 0 <= i < |t.directories| ensures DirectoryShown(l, t, g, counts, i) {
      assert ShownBy(l.meta, l.metadata, directories[i]);
    }
  }

  /** Where child `k` of directory `i` has its short entry. */
  ghost function EntryAt(t: Tree, g: F.Geometry, counts: seq<nat>, i: nat, k: nat): int
    requires ValidTree(t) && |counts| == NodeCount(t) && i < |t.directories| && k < |t.directories[i].children|
  {
    NodeStart(g, counts, i) + L.ENTRY_SIZE * ShortIndex(Written(t, i, counts), k)
  }

  /** What the builder writes for a file's entry. */
  lemma FileResolved(t: Tree, counts: seq<nat>, i: nat, k: nat, file: nat)
    requires ValidTree(t) && CountsOf(t, counts) && i < |t.directories| && k < |t.directories[i].children|
    requires t.directories[i].children[k].target == ToFile(file) && file < |t.files|
    ensures var c := Written(t, i, counts).children[k];
      && c.first == First(counts, |t.directories| + file) && c.size == t.files[file].size < 0x1_0000_0000
      && !c.directory && |c.short| == 11
  {
    assert FileFits(t.files[file]);
    assert ValidChild(t, t.directories[i].children[k]);
  }

  lemma FirstFits(counts: seq<nat>, node: nat)
    requires F.Allocatable(counts) && node < |counts|
    ensures First(counts, node) < 0x1_0000_0000
  {
    F.SumGrows(counts, node, |counts|);
  }

  /** The 32 bytes of a child's short entry, read off the disk. */
  lemma EntryBytesRead(l: Layout, p: Placement, cards: B.Cards, files: B.Files, at: nat, e: seq<byte>)
    requires Readable(l) && ShownBy(l.meta, l.metadata, p)
    requires at + L.ENTRY_SIZE <= |p.data| && p.data[at..at + L.ENTRY_SIZE] == e
    ensures B.Image(l, cards, files, p.offset + at, L.ENTRY_SIZE) == e
  {
    StretchOnDisk(l, cards, files, p, at, L.ENTRY_SIZE);
  }

  lemma EntryDecoded(name: seq<byte>, cluster: nat, size: nat, attribute: byte)
    requires |name| == 11 && cluster < 0x1_0000_0000 && size < 0x1_0000_0000
    ensures EntryCluster(L.ShortEntry(name, cluster, size, attribute)) == cluster
    ensures EntrySize(L.ShortEntry(name, cluster, size, attribute)) == size
  {
    L.ShortEntryDecodes(name, cluster, size, attribute);
  }

  /** The entry of a file, read off the disk, names the file's first cluster and its size. */
  lemma EntryNamesFile(l: Layout, t: Tree, g: F.Geometry, counts: seq<nat>, cards: B.Cards, files: B.Files,
                       i: nat, k: nat, file: nat)
    requires Readable(l) && ValidTree(t) && CountsOf(t, counts) && F.Allocatable(counts)
    requires i < |t.directories| && k < |t.directories[i].children| && DirectoryShown(l, t, g, counts, i)
    requires t.directories[i].children[k].target == ToFile(file) && file < |t.files|
    ensures var e := B.Image(l, cards, files, EntryAt(t, g, counts, i, k), 32);
      EntryCluster(e) == First(counts, |t.directories| + file) && EntrySize(e) == t.files[file].size
  {
    var d := Written(t, i, counts);
    var c := d.children[k];
    FileResolved(t, counts, i, k, file);
    FirstFits(counts, |t.directories| + file);
    EntryInBytes(d, k);
    EntryBytesRead(l, Placement(NodeStart(g, counts, i), L.DirectoryBytes(d)), cards, files,
      L.ENTRY_SIZE * ShortIndex(d, k), L.ShortOf(c));
    EntryDecoded(c.short, c.first, c.size, 0x20);
  }

  lemma EntryMounted(l: Layout, t: Tree, g: F.Geometry, counts: seq<nat>, table: int, fat: seq<byte>,
                     cards: B.Cards, files: B.Files, i: nat, k: nat, file: nat)
    requires Mounted(l, t, g, counts, table, fat) && i < |t.directories| && k < |t.directories[i].children|
    requires t.directories[i].children[k].target == ToFile(file) && file < |t.files|
    ensures var e := B.Image(l, cards, files, EntryAt(t, g, counts, i, k), 32);
      EntryCluster(e) == First(counts, |t.directories| + file) && EntrySize(e) == t.files[file].size
  {
    EntryNamesFile(l, t, g, counts, cards, files, i, k, file);
  }

  /** Chasing the links from a node's first cluster visits exactly the node's clusters, in order. */
  lemma LinksLead(counts: seq<nat>, links: seq<nat>, node: nat, limit: nat)
    requires F.Allocatable(counts) && W.Ordered(F.Runs(counts)) && LinksOf(links, F.Runs(counts))
    requires F.Sum(counts, |counts|) + 2 <= |links| && node < |counts| && counts[node] <= limit
    ensures Successive(Chase(links, First(counts, node), limit), First(counts, node), counts[node])
  {
    F.SumGrows(counts, node + 1, |counts|);
    ChaseVisitsRun(links, F.Runs(counts), node, limit);
  }

  lemma PlacementRead(l: Layout, p: Placement, cards: B.Cards, files: B.Files)
    requires Readable(l) && ShownBy(l.meta, l.metadata, p)
    ensures B.Image(l, cards, files, p.offset, |p.data|) == p.data
  {
    StretchOnDisk(l, cards, files, p, 0, |p.data|);
    assert p.data[0..|p.data|] == p.data;
  }

  /** The links decoded from the table's bytes on the disk are those of the runs. */
  lemma LinksRead(l: Layout, t: Tree, g: F.Geometry, counts: seq<nat>, table: int, fat: seq<byte>,
                  cards: B.Cards, files: B.Files)
    requires Mounted(l, t, g, counts, table, fat)
    ensures var links := Links(B.Image(l, cards, files, table, |fat|));
      LinksOf(links, F.Runs(counts)) && F.Sum(counts, |counts|) + 2 <= |links|
  {
    PlacementRead(l, Placement(table, fat), cards, files);
    LinksDecode(fat, F.Runs(counts));
  }

  /**
   * A driver that knows the disk's bytes only. It decodes a file's first cluster and size from the
   * directory entry, decodes each link from the table, and finds the file, byte for byte, in the
   * clusters it is led through: the j-th holds the file's bytes from j * 32768 on, zeros behind its end.
   */
  lemma DriverReadsBytes(l: Layout, t: Tree, g: F.Geometry, counts: seq<nat>, table: int, fat: seq<byte>,
                         cards: B.Cards, files: B.Files, i: nat, k: nat, file: nat, limit: nat, j: nat, b: nat)
    requires Mounted(l, t, g, counts, table, fat)
    requires i < |t.directories| && k < |t.directories[i].children|
    requires t.directories[i].children[k].target == ToFile(file) && file < |t.files|
    requires j < counts[|t.directories| + file] <= limit && b < F.CLUSTER
    ensures var e := B.Image(l, cards, files, EntryAt(t, g, counts, i, k), 32);
      var visited := Chase(Links(B.Image(l, cards, files, table, |fat|)), EntryCluster(e), limit);
      && EntrySize(e) == t.files[file].size && |visited| == counts[|t.directories| + file]
      && B.ImageByte(l, cards, files, ClusterStart(g, visited[j]) + b)
        == FileByte(t.files[file], cards, files, j * F.CLUSTER + b)
  {
    var first := EntryCluster(B.Image(l, cards, files, EntryAt(t, g, counts, i, k), 32));
    EntryMounted(l, t, g, counts, table, fat, cards, files, i, k, file);
    DriverVisits(l, t, g, counts, table, fat, cards, files, |t.directories| + file, first, limit, j);
    ClusterMounted(l, t, g, counts, table, fat, cards, files, file, j, b, first + j);
  }

  lemma ClusterMounted(l: Layout, t: Tree, g: F.Geometry, counts: seq<nat>, table: int, fat: seq<byte>,
                       cards: B.Cards, files: B.Files, file: nat, j: nat, b: nat, cluster: nat)
    requires Mounted(l, t, g, counts, table, fat) && file < |t.files|
    requires j < counts[|t.directories| + file] && b < F.CLUSTER
    requires cluster == First(counts, |t.directories| + file) + j
    ensures B.ImageByte(l, cards, files, ClusterStart(g, cluster) + b)
      == FileByte(t.files[file], cards, files, j * F.CLUSTER + b)
  {
    ClusterOnDisk(l, t, g, counts, cards, files, file, j, b, cluster);
  }

  lemma DriverVisits(l: Layout, t: Tree, g: F.Geometry, counts: seq<nat>, table: int, fat: seq<byte>,
                     cards: B.Cards, files: B.Files, node: nat, first: nat, limit: nat, j: nat)
    requires Mounted(l, t, g, counts, table, fat) && node < |counts| && j < counts[node] <= limit
    requires first == First(counts, node)
    ensures var visited := Chase(Links(B.Image(l, cards, files, table, |fat|)), first, limit);
      |visited| == counts[node] && visited[j] == first + j
  {
    LinksRead(l, t, g, counts, table, fat, cards, files);
    LinksLead(counts, Links(B.Image(l, cards, files, table, |fat|)), node, limit);
  }
}
