/** Looking a path up on the GameCube disk: from the root cluster through directory bytes to a file's bytes. */
module Fat32Lookup {
  import opened Basics
  import opened Bytes
  import opened VirtualExtents
  import opened FatBoot
  import opened FatDirectory
  import opened FatDriver
  import opened Fat32Build
  import opened Fat32Theorems
  import opened Fat32Driver
  import F = Fat32Geometry
  import W = WiiFat
  import B = Fat32Backend
  import L = LongNames

  function NamesOf(children: seq<ChildNode>): (names: seq<Option<Name>>)
    ensures |names| == |children|
  {
    seq(|children|, k requires 0 <= k < |children| => Some(children[k].name))
  }

  /** The child that a directory node has first under this name. */
  function Named(d: DirectoryNode, name: Name): Option<ChildNode> {
    var i := FirstPlace(NamesOf(d.children), name);
    if i < |d.children| then Some(d.children[i]) else None
  }

  /** A child is found under its own name exactly if none before it in the directory has that name. */
  lemma FoundUnderOwnName(d: DirectoryNode, k: nat)
    requires k < |d.children|
    ensures FirstPlace(NamesOf(d.children), d.children[k].name) == k
      <==> forall m :: 0 <= m < k ==> d.children[m].name != d.children[k].name
  {
    var names, name := NamesOf(d.children), d.children[k].name;
    if forall m :: 0 <= m < k ==> d.children[m].name != name {
      FirstPlaceIs(names, name, k);
    }
    if FirstPlace(names, name) == k {
      forall m | 0 <= m < k ensures d.children[m].name != name {
        assert names[m] != Some(name);
      }
    }
  }

  predicate InTree(t: Tree, target: Target) {
    match target
    case ToDirectory(i) => i < |t.directories|
    case ToFile(i) => i < |t.files|
  }

  /** What a driver should find for a child of a directory. */
  function Leads(t: Tree, counts: seq<nat>, c: ChildNode): Found
    requires |counts| == NodeCount(t) && InTree(t, c.target)
  {
    match c.target
    case ToDirectory(i) => Found(Some(c.name), c.short, First(counts, i), 0, 0x10)
    case ToFile(i) =>
      Found(Some(c.name), c.short, First(counts, |t.directories| + i),
        if t.files[i].size < 0 then 0 else t.files[i].size, 0x20)
  }

  lemma LeadsToDirectory(t: Tree, counts: seq<nat>, c: ChildNode)
    requires |counts| == NodeCount(t) && InTree(t, c.target)
    ensures Leads(t, counts, c).IsDirectory() <==> c.target.ToDirectory?
  {
  }

  /** What it should find for a child that may not be there. */
  function LeadsTo(t: Tree, counts: seq<nat>, c: Option<ChildNode>): Option<Found>
    requires |counts| == NodeCount(t) && (c.Some? ==> InTree(t, c.value.target))
  {
    if c.None? then None else Some(Leads(t, counts, c.value))
  }

  lemma NamedInTree(t: Tree, i: nat, name: Name)
    requires ValidTree(t) && i < |t.directories|
    ensures var c := Named(t.directories[i], name);
      c.Some? ==> ValidChild(t, c.value) && InTree(t, c.value.target)
  {
    assert ValidDirectory(t, t.directories[i]);
  }

  /** Every name can be stored. */
  ghost predicate Storable(t: Tree) {
    && |t.volume| == 11 && t.volume[0] != 0 && t.volume[0] != 0xe5
    && forall i, k :: 0 <= i < |t.directories| && 0 <= k < |t.directories[i].children| ==>
      Nameable(t.directories[i].children[k].name, t.directories[i].children[k].short)
  }

  lemma WrittenStored(t: Tree, counts: seq<nat>, i: nat)
    requires ValidTree(t) && Storable(t) && CountsOf(t, counts) && F.Allocatable(counts) && i < |t.directories|
    ensures StoredDirectory(Written(t, i, counts))
  {
    var node := t.directories[i];
    assert ValidDirectory(t, node);
    FirstFits(counts, i);
    FirstFits(counts, node.parent);
    forall k | 0 <= k < |node.children| ensures Stored(Written(t, i, counts).children[k]) {
      ChildStored(t, counts, i, k);
    }
  }

  lemma ChildStored(t: Tree, counts: seq<nat>, i: nat, k: nat)
    requires ValidTree(t) && Storable(t) && CountsOf(t, counts) && F.Allocatable(counts)
    requires i < |t.directories| && k < |t.directories[i].children|
    ensures var c := t.directories[i].children[k];
      && ValidChild(t, c) && Stored(Written(t, i, counts).children[k])
      && ChildFound(Written(t, i, counts).children[k]) == Leads(t, counts, c)
  {
    var c := t.directories[i].children[k];
    assert ValidDirectory(t, t.directories[i]);
    assert ValidChild(t, c);
    assert Nameable(c.name, c.short);
    match c.target
    case ToDirectory(n) => FirstFits(counts, n);
    case ToFile(n) =>
      FirstFits(counts, |t.directories| + n);
      assert FileFits(t.files[n]);
  }

  /** Picking a name from what the scan of a directory finds is naming the child in the tree. */
  lemma PickNamed(t: Tree, counts: seq<nat>, i: nat, name: Name)
    requires ValidTree(t) && Storable(t) && CountsOf(t, counts) && F.Allocatable(counts) && i < |t.directories|
    ensures var d := Written(t, i, counts);
      var named := Named(t.directories[i], name);
      && (named.Some? ==> ValidChild(t, named.value))
      && Pick(Dots(d) + AllFound(d, |d.children|), name) == LeadsTo(t, counts, named)
  {
    NamedInTree(t, i, name);
    var d := Written(t, i, counts);
    var dots, found := Dots(d), Dots(d) + AllFound(d, |d.children|);
    var names, children := NamesFound(found), NamesOf(t.directories[i].children);
    var place := FirstPlace(children, name);
    forall k | 0 <= k < |found| ensures names[k] == if k < |dots| then None else children[k - |dots|] {
      if k >= |dots| {
        ChildStored(t, counts, i, k - |dots|);
      }
    }
    FirstPlaceIs(names, name, |dots| + place);
    if place < |children| {
      ChildStored(t, counts, i, place);
    }
  }

  // ---- What begins a directory ----

  /**
   * Where a directory's clusters begin: the root with the volume name, any other directory with `.`,
   * which leads to itself, and `..`, which leads to its parent, or to 0 if that is the root.
   */
  lemma DirectoryLeads(l: Layout, t: Tree, g: F.Geometry, counts: seq<nat>, cards: B.Cards, files: B.Files, i: nat)
    requires Readable(l) && ValidTree(t) && CountsOf(t, counts) && F.Allocatable(counts) && i < |t.directories|
    requires DirectoryShown(l, t, g, counts, i)
    ensures var read := B.Image(l, cards, files, ClusterStart(g, First(counts, i)), counts[i] * F.CLUSTER);
      if i == 0 then L.EntryAt(read, 0, t.volume, 8, 0)
      else
        && t.directories[i].parent < |counts|
        && L.EntryAt(read, 0, [0x2e, 0x20, 0x20, 0x20, 0x20, 0x20, 0x20, 0x20, 0x20, 0x20, 0x20], 0x10,
             First(counts, i))
        && L.EntryAt(read, 32, [0x2e, 0x2e, 0x20, 0x20, 0x20, 0x20, 0x20, 0x20, 0x20, 0x20, 0x20], 0x10,
             if t.directories[i].parent == 0 then 0 else First(counts, t.directories[i].parent))
  {
    assert ValidDirectory(t, t.directories[i]);
    FirstFits(counts, i);
    FirstFits(counts, t.directories[i].parent);
    DirectoryPlaced(l, t, g, counts, cards, files, i);
    L.DirectoryBegins(Written(t, i, counts));
  }

  // ---- Following a path ----

  /** The bytes of these clusters, one after another. */
  ghost function Gather(l: Layout, v: Volume, cards: B.Cards, files: B.Files, clusters: seq<nat>): seq<byte> {
    if clusters == [] then []
    else
      B.Image(l, cards, files, v.ClusterByte(clusters[0]), v.ClusterBytes()) + Gather(l, v, cards, files, clusters[1..])
  }

  /** The volume has its clusters where the builder has laid them. */
  ghost predicate Agrees(v: Volume, g: F.Geometry) {
    && v.start + v.reserved + v.tables * v.tableSectors == F.PARTITION_START + g.firstData
    && v.ClusterBytes() == F.CLUSTER && v.root == 2
  }

  lemma ClusterAgrees(v: Volume, g: F.Geometry, cluster: nat)
    requires Agrees(v, g)
    ensures v.ClusterByte(cluster) == ClusterStart(g, cluster)
  {
  }

  lemma {:induction false} GatherRun(l: Layout, v: Volume, g: F.Geometry, cards: B.Cards, files: B.Files,
                                     clusters: seq<nat>, first: nat)
    requires Agrees(v, g) && Successive(clusters, first, |clusters|)
    ensures Gather(l, v, cards, files, clusters)
      == B.Image(l, cards, files, ClusterStart(g, first), |clusters| * F.CLUSTER)
    decreases |clusters|
  {
    if clusters != [] {
      ClusterAgrees(v, g, first);
      GatherRun(l, v, g, cards, files, clusters[1..], first + 1);
      B.ImageSplit(l, cards, files, ClusterStart(g, first), F.CLUSTER, (|clusters| - 1) * F.CLUSTER);
    }
  }

  /** What a driver reads that chases a directory's clusters. */
  ghost function ReadChain(l: Layout, v: Volume, cards: B.Cards, files: B.Files, links: seq<nat>, cluster: nat,
                           limit: nat): seq<byte> {
    Gather(l, v, cards, files, Chase(links, cluster, limit))
  }

  lemma DirectoryRead(l: Layout, v: Volume, t: Tree, g: F.Geometry, counts: seq<nat>, table: int, fat: seq<byte>,
                      cards: B.Cards, files: B.Files, i: nat, limit: nat)
    requires Agrees(v, g)
    requires Mounted(l, t, g, counts, table, fat) && i < |t.directories| && counts[i] <= limit
    ensures ReadChain(l, v, cards, files, Links(B.Image(l, cards, files, table, |fat|)), First(counts, i), limit)
      == L.DirectoryBytes(Written(t, i, counts))
  {
    var links := Links(B.Image(l, cards, files, table, |fat|));
    LinksRead(l, t, g, counts, table, fat, cards, files);
    LinksLead(counts, links, i, limit);
    GatherRun(l, v, g, cards, files, Chase(links, First(counts, i), limit), First(counts, i));
    DirectoryPlaced(l, t, g, counts, cards, files, i);
  }

  /** A directory's bytes fill the clusters that its node has. */
  lemma DirectoryPlaced(l: Layout, t: Tree, g: F.Geometry, counts: seq<nat>, cards: B.Cards, files: B.Files, i: nat)
    requires Readable(l) && ValidTree(t) && CountsOf(t, counts) && i < |t.directories|
    requires DirectoryShown(l, t, g, counts, i)
    ensures B.Image(l, cards, files, ClusterStart(g, First(counts, i)), counts[i] * F.CLUSTER)
      == L.DirectoryBytes(Written(t, i, counts))
  {
    ReservationFits(t, i, counts);
    PlacementRead(l, Placement(NodeStart(g, counts, i), L.DirectoryBytes(Written(t, i, counts))), cards, files);
  }

  /** Follows a path from a directory's first cluster on, reading nothing but the disk. */
  ghost function Follow(l: Layout, v: Volume, cards: B.Cards, files: B.Files, links: seq<nat>, cluster: nat,
                        path: seq<Name>, limit: nat): Option<Found>
    requires path != []
    decreases |path|
  {
    var found := Pick(Scan(Chunks(ReadChain(l, v, cards, files, links, cluster, limit)), []), path[0]);
    if found == None || |path| == 1 then found
    else if !found.value.IsDirectory() then None
    else Follow(l, v, cards, files, links, found.value.cluster, path[1..], limit)
  }

  /** The node of the tree at the end of a path from directory `i`. */
  function NodeAt(t: Tree, i: nat, path: seq<Name>): (c: Option<ChildNode>)
    requires ValidTree(t) && i < |t.directories| && path != []
    ensures c.Some? ==> ValidChild(t, c.value) && InTree(t, c.value.target)
    decreases |path|
  {
    assert ValidDirectory(t, t.directories[i]);
    match Named(t.directories[i], path[0])
    case None => None
    case Some(c) =>
      assert ValidChild(t, c);
      if |path| == 1 then Some(c)
      else match c.target
        case ToDirectory(n) => NodeAt(t, n, path[1..])
        case ToFile(_) => None
  }

  /** Every directory's clusters are within the driver's limit. */
  ghost predicate WithinLimit(t: Tree, counts: seq<nat>, limit: nat)
    requires |counts| == NodeCount(t)
  {
    forall i :: 0 <= i < |t.directories| ==> counts[i] <= limit
  }

  /** One step of a path: what the disk shows under a name is what the tree has under it. */
  lemma StepFound(l: Layout, v: Volume, t: Tree, g: F.Geometry, counts: seq<nat>, table: int, fat: seq<byte>,
                  cards: B.Cards, files: B.Files, i: nat, name: Name, limit: nat)
    requires Agrees(v, g)
    requires Mounted(l, t, g, counts, table, fat) && Storable(t) && i < |t.directories| && counts[i] <= limit
    ensures var links := Links(B.Image(l, cards, files, table, |fat|));
      var named := Named(t.directories[i], name);
      && (named.Some? ==> ValidChild(t, named.value))
      && Pick(Scan(Chunks(ReadChain(l, v, cards, files, links, First(counts, i), limit)), []), name)
        == LeadsTo(t, counts, named)
  {
    var d := Written(t, i, counts);
    DirectoryRead(l, v, t, g, counts, table, fat, cards, files, i, limit);
    WrittenStored(t, counts, i);
    DirectoryScans(d);
    PickNamed(t, counts, i, name);
  }

  /**
   * Whatever path a driver follows from a directory, the disk leads it exactly where the tree does:
   * to the clusters and the size of the node at its end, or nowhere when the tree has no such node.
   */
  lemma {:induction false} FollowsTree(l: Layout, v: Volume, t: Tree, g: F.Geometry, counts: seq<nat>,
                                       table: int, fat: seq<byte>, cards: B.Cards, files: B.Files, i: nat,
                                       path: seq<Name>, limit: nat)
    requires Agrees(v, g)
    requires Mounted(l, t, g, counts, table, fat) && Storable(t) && i < |t.directories| && path != []
    requires WithinLimit(t, counts, limit)
    ensures Follow(l, v, cards, files, Links(B.Image(l, cards, files, table, |fat|)), First(counts, i), path, limit)
      == LeadsTo(t, counts, NodeAt(t, i, path))
    decreases |path|
  {
    TreeStep(l, v, t, g, counts, table, fat, cards, files, i, path, limit);
    var named := Named(t.directories[i], path[0]);
    if named.Some? && |path| > 1 && named.value.target.ToDirectory? {
      FollowsTree(l, v, t, g, counts, table, fat, cards, files, named.value.target.index, path[1..], limit);
    }
  }

  /** One step leads into the next directory, for the driver and in the tree, or ends the path for both. */
  lemma TreeStep(l: Layout, v: Volume, t: Tree, g: F.Geometry, counts: seq<nat>, table: int, fat: seq<byte>,
                 cards: B.Cards, files: B.Files, i: nat, path: seq<Name>, limit: nat)
    requires Agrees(v, g)
    requires Mounted(l, t, g, counts, table, fat) && Storable(t) && i < |t.directories| && path != []
    requires counts[i] <= limit
    ensures var links := Links(B.Image(l, cards, files, table, |fat|));
      var named := Named(t.directories[i], path[0]);
      && (named.Some? ==> InTree(t, named.value.target))
      && if named.Some? && |path| > 1 && named.value.target.ToDirectory? then
           var next := named.value.target.index;
           && Follow(l, v, cards, files, links, First(counts, i), path, limit)
             == Follow(l, v, cards, files, links, First(counts, next), path[1..], limit)
           && NodeAt(t, i, path) == NodeAt(t, next, path[1..])
         else
           Follow(l, v, cards, files, links, First(counts, i), path, limit)
             == LeadsTo(t, counts, NodeAt(t, i, path))
  {
    StepFound(l, v, t, g, counts, table, fat, cards, files, i, path[0], limit);
    var links := Links(B.Image(l, cards, files, table, |fat|));
    var named := Named(t.directories[i], path[0]);
    var found := LeadsTo(t, counts, named);
    NamedInTree(t, i, path[0]);
    FollowStep(l, v, cards, files, links, First(counts, i), path, limit, found);
    StepCases(l, v, t, counts, links, cards, files, i, path, limit,
      Follow(l, v, cards, files, links, First(counts, i), path, limit));
  }

  lemma StepCases(l: Layout, v: Volume, t: Tree, counts: seq<nat>, links: seq<nat>, cards: B.Cards, files: B.Files,
                  i: nat, path: seq<Name>, limit: nat, end: Option<Found>)
    requires ValidTree(t) && |counts| == NodeCount(t) && i < |t.directories| && path != []
    requires var named := Named(t.directories[i], path[0]);
      && (named.Some? ==> InTree(t, named.value.target))
      && var found := LeadsTo(t, counts, named);
         end ==
           if found == None || |path| == 1 then found
           else if !found.value.IsDirectory() then None
           else Follow(l, v, cards, files, links, found.value.cluster, path[1..], limit)
    ensures var named := Named(t.directories[i], path[0]);
      if named.Some? && |path| > 1 && named.value.target.ToDirectory? then
        var next := named.value.target.index;
        && end == Follow(l, v, cards, files, links, First(counts, next), path[1..], limit)
        && NodeAt(t, i, path) == NodeAt(t, next, path[1..])
      else end == LeadsTo(t, counts, NodeAt(t, i, path))
  {
    NodeStep(t, i, path);
    var named := Named(t.directories[i], path[0]);
    if named.Some? {
      LeadsToDirectory(t, counts, named.value);
    }
  }

  lemma FollowStep(l: Layout, v: Volume, cards: B.Cards, files: B.Files, links: seq<nat>, cluster: nat,
                   path: seq<Name>, limit: nat, found: Option<Found>)
    requires path != []
    requires found == Pick(Scan(Chunks(ReadChain(l, v, cards, files, links, cluster, limit)), []), path[0])
    ensures Follow(l, v, cards, files, links, cluster, path, limit) ==
      if found == None || |path| == 1 then found
      else if !found.value.IsDirectory() then None
      else Follow(l, v, cards, files, links, found.value.cluster, path[1..], limit)
  {
  }

  lemma NodeStep(t: Tree, i: nat, path: seq<Name>)
    requires ValidTree(t) && i < |t.directories| && path != []
    ensures var named := Named(t.directories[i], path[0]);
      && (named.Some? ==> InTree(t, named.value.target))
      && NodeAt(t, i, path) ==
         if named.None? then None
         else if |path| == 1 then named
         else if named.value.target.ToDirectory? then NodeAt(t, named.value.target.index, path[1..])
         else None
  {
    NamedInTree(t, i, path[0]);
  }

  /**
   * From a path to bytes. A driver that starts at the root cluster and knows nothing but the disk
   * finds a file under its path, with its size, and byte `b` of the j-th cluster that the table leads
   * it through is byte j * 32768 + b of the file, or a zero behind its end.
   */
  lemma PathToBytes(l: Layout, v: Volume, t: Tree, g: F.Geometry, counts: seq<nat>, table: int, fat: seq<byte>,
                    cards: B.Cards, files: B.Files, path: seq<Name>, file: nat, limit: nat, j: nat, b: nat)
    returns (found: Found, cluster: nat)
    requires Agrees(v, g)
    requires Mounted(l, t, g, counts, table, fat) && Storable(t) && path != [] && WithinLimit(t, counts, limit)
    requires NodeAt(t, 0, path).Some? && NodeAt(t, 0, path).value.target == ToFile(file)
    requires j < counts[|t.directories| + file] <= limit && b < F.CLUSTER
    ensures var links := Links(B.Image(l, cards, files, table, |fat|));
      var visited := Chase(links, found.cluster, limit);
      && Follow(l, v, cards, files, links, v.root, path, limit) == Some(found)
      && found.attribute == 0x20 && found.size == t.files[file].size
      && |visited| == counts[|t.directories| + file] && visited[j] == cluster
    ensures B.ImageByte(l, cards, files, v.ClusterByte(cluster) + b)
      == FileByte(t.files[file], cards, files, j * F.CLUSTER + b)
  {
    found := PathLeads(l, v, t, g, counts, table, fat, cards, files, path, file, limit);
    cluster := FileVisited(l, t, g, counts, table, fat, cards, files, found.cluster, file, limit, j, b);
    ClusterAgrees(v, g, cluster);
  }

  lemma PathLeads(l: Layout, v: Volume, t: Tree, g: F.Geometry, counts: seq<nat>, table: int, fat: seq<byte>,
                  cards: B.Cards, files: B.Files, path: seq<Name>, file: nat, limit: nat) returns (found: Found)
    requires Agrees(v, g)
    requires Mounted(l, t, g, counts, table, fat) && Storable(t) && path != [] && WithinLimit(t, counts, limit)
    requires NodeAt(t, 0, path).Some? && NodeAt(t, 0, path).value.target == ToFile(file)
    ensures var links := Links(B.Image(l, cards, files, table, |fat|));
      Follow(l, v, cards, files, links, v.root, path, limit) == Some(found)
    ensures found.attribute == 0x20 && found.size == t.files[file].size
    ensures found.cluster == First(counts, |t.directories| + file)
  {
    RootFirst(counts);
    FollowsTree(l, v, t, g, counts, table, fat, cards, files, 0, path, limit);
    found := FileFound(t, counts, NodeAt(t, 0, path).value, file);
  }

  lemma RootFirst(counts: seq<nat>)
    ensures First(counts, 0) == 2
  {
  }

  lemma FileFound(t: Tree, counts: seq<nat>, c: ChildNode, file: nat) returns (found: Found)
    requires CountsOf(t, counts) && file < |t.files| && c.target == ToFile(file)
    ensures found == Leads(t, counts, c) && found.attribute == 0x20 && found.size == t.files[file].size
    ensures found.cluster == First(counts, |t.directories| + file)
  {
    assert FileFits(t.files[file]);
    found := Leads(t, counts, c);
  }

  lemma FileVisited(l: Layout, t: Tree, g: F.Geometry, counts: seq<nat>, table: int, fat: seq<byte>,
                    cards: B.Cards, files: B.Files, first: nat, file: nat, limit: nat, j: nat, b: nat)
    returns (cluster: nat)
    requires Mounted(l, t, g, counts, table, fat) && file < |t.files|
    requires first == First(counts, |t.directories| + file)
    requires j < counts[|t.directories| + file] <= limit && b < F.CLUSTER
    ensures var visited := Chase(Links(B.Image(l, cards, files, table, |fat|)), first, limit);
      |visited| == counts[|t.directories| + file] && visited[j] == cluster
    ensures B.ImageByte(l, cards, files, ClusterStart(g, cluster) + b)
      == FileByte(t.files[file], cards, files, j * F.CLUSTER + b)
  {
    DriverVisits(l, t, g, counts, table, fat, cards, files, |t.directories| + file, first, limit, j);
    cluster := first + j;
    ClusterMounted(l, t, g, counts, table, fat, cards, files, file, j, b, cluster);
  }

  /** A file called `a` beside a directory called `a` that holds a file called `b`. */
  function Twins(volume: seq<byte>, short: seq<byte>, f: FileNode): Tree {
    Tree(volume,
      [DirectoryNode(0, [ChildNode([0x61], short, ToFile(0)), ChildNode([0x61], short, ToDirectory(1))]),
       DirectoryNode(0, [ChildNode([0x62], short, ToFile(1))])],
      [f, f])
  }

  /**
   * The tree builder compares whole file paths only, so it accepts a file and a directory of one name
   * side by side. Where the file comes first, no driver reaches what is in the directory.
   */
  lemma TwinHidesDirectory(volume: seq<byte>, short: seq<byte>, f: FileNode)
    requires |volume| == 11 && |short| == 11
    ensures ValidTree(Twins(volume, short, f))
    ensures NodeAt(Twins(volume, short, f), 0, [[0x61], [0x62]]) == None
    ensures NodeAt(Twins(volume, short, f), 1, [[0x62]]) == Some(ChildNode([0x62], short, ToFile(1)))
  {
    var t := Twins(volume, short, f);
    var a: Name, b: Name := [0x61], [0x62];
    assert ValidDirectory(t, t.directories[0]) && ValidDirectory(t, t.directories[1]);
    FirstPlaceIs(NamesOf(t.directories[0].children), a, 0);
    FirstPlaceIs(NamesOf(t.directories[1].children), b, 0);
  }
}
