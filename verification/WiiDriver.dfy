/** The Wii disk through the eyes of a driver that decodes the table's bytes. */
module WiiDriver {
  import opened Basics
  import opened Bytes
  import opened WiiGeometry
  import opened WiiFat
  import opened WiiLayout
  import opened WiiDisk
  import opened WiiBuild
  import opened FatDriver

  /** Where a copy of the table begins. */
  ghost predicate IsCopy(d: Disk, copy: int) {
    copy == d.fatStart || copy == d.fatStart + d.fatSectors
  }

  /** Either copy of the table, as its bytes read. */
  ghost function TableBytes(d: Disk, store: Store, copy: nat): seq<byte>
    requires TableClear(d)
  {
    Image(d, store, copy * SECTOR_SIZE, d.fatSectors * SECTOR_SIZE)
  }

  lemma TableRead(d: Disk, store: Store, copy: nat)
    requires TableClear(d) && IsCopy(d, copy)
    ensures IsTable(TableBytes(d, store, copy), d.chains)
  {
    var read := TableBytes(d, store, copy);
    forall k | 0 <= k < |read| ensures read[k] == FatByte(d.chains, k) {
      FatCopiesAgree(d, store, copy, k);
    }
  }

  /** The table has entries for all clusters of a file. */
  lemma RunInTable(d: Disk, g: Geometry, files: seq<VirtualFile>, records: Records, i: nat)
    requires DiskFor(d, g, files, records) && i < |files|
    ensures i + 2 < |d.chains| && d.chains[i + 2].first == FirstCluster(g, files, i)
    ensures d.chains[i + 2].count == ClustersForBytes(files[i].length, g.clusterSize)
    ensures d.chains[i + 2].End() * 4 <= d.fatSectors * SECTOR_SIZE
  {
    assert d.chains[i + 2] == Run(g, files, i + 2) && GoodFile(files[i]);
    LastRunEnds(g, files, i + 2);
    AllocationMatches(g, files);
  }

  /** The links decoded from a copy of the table lead through a file's clusters, in order. */
  lemma LinksLead(d: Disk, g: Geometry, files: seq<VirtualFile>, records: Records, store: Store, copy: nat,
                  i: nat, limit: nat)
    requires DiskFor(d, g, files, records) && i < |files| && TableClear(d) && IsCopy(d, copy)
    requires limit >= ClustersForBytes(files[i].length, g.clusterSize)
    ensures Successive(Chase(Links(TableBytes(d, store, copy)), FirstCluster(g, files, i), limit),
      FirstCluster(g, files, i), ClustersForBytes(files[i].length, g.clusterSize))
  {
    TableRead(d, store, copy);
    LinksDecode(TableBytes(d, store, copy), d.chains);
    RunInTable(d, g, files, records, i);
    ChaseVisitsRun(Links(TableBytes(d, store, copy)), d.chains, i + 2, limit);
  }

  /**
   * A driver that starts at a file's first cluster and decodes each link from the bytes of a table
   * copy finds the file: byte `b` of the j-th cluster it visits is byte j * size + b of the file.
   */
  lemma DriverReadsBytes(d: Disk, g: Geometry, files: seq<VirtualFile>, records: Records, store: Store, copy: nat,
                         i: nat, limit: nat, j: nat, b: nat) returns (cluster: nat, pos: nat)
    requires DiskFor(d, g, files, records) && i < |files| && GoodFiles(files) && AllOnline(store, files[i].game.sources)
    requires IsCopy(d, copy) && limit >= ClustersForBytes(files[i].length, g.clusterSize)
    requires j < ClustersForBytes(files[i].length, g.clusterSize) && b < g.clusterSize
    ensures TableClear(d)
    ensures var visited := Chase(Links(TableBytes(d, store, copy)), FirstCluster(g, files, i), limit);
      |visited| == ClustersForBytes(files[i].length, g.clusterSize) && visited[j] == cluster
    ensures pos == ClusterStart(g, cluster) + b
    ensures ImageByte(d, store, pos) == FileByte(files[i], store, j * g.clusterSize + b)
  {
    cluster := Visits(d, g, files, records, store, copy, i, limit, j);
    pos := ClusterHolds(d, g, files, records, store, i, j, b, cluster);
  }

  lemma Visits(d: Disk, g: Geometry, files: seq<VirtualFile>, records: Records, store: Store, copy: nat,
               i: nat, limit: nat, j: nat) returns (cluster: nat)
    requires DiskFor(d, g, files, records) && i < |files| && IsCopy(d, copy)
    requires j < ClustersForBytes(files[i].length, g.clusterSize) <= limit
    ensures TableClear(d)
    ensures cluster == FirstCluster(g, files, i) + j
    ensures var visited := Chase(Links(TableBytes(d, store, copy)), FirstCluster(g, files, i), limit);
      |visited| == ClustersForBytes(files[i].length, g.clusterSize) && visited[j] == cluster
  {
    BuiltIsWellFormed(d, g, files, records);
    LinksLead(d, g, files, records, store, copy, i, limit);
    cluster := FirstCluster(g, files, i) + j;
  }
}
