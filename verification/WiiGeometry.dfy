/** Choice of cluster size and region sizes for the synthesized Wii disk. */
module WiiGeometry {
  import opened Basics

  const SECTOR_SIZE: int := 512
  const PARTITION_START: int := 2048
  const RESERVED_SECTORS: int := 32
  const NUM_FATS: int := 2
  const MAX_SEGMENT: int := 0x1_0000_0000 - 0x8000
  const MAX_DATA_CLUSTERS: int := 0x0fff_ffee
  const MIN_DATA_CLUSTERS: int := 65525
  const MAX_PARTITION_SECTORS: int := 0xffff_ffff
  const MAX_DISK_SECTORS: int := 0x1_0000_0000
  const LARGE_VOLUME: int := 0x8_0000_0000
  const SECTORS_PER_CLUSTER: seq<int> := [8, 16, 32, 64]

  datatype Geometry = Geometry(
    sectorsPerCluster: int,
    clusterSize: int,
    wbfsDirClusters: int,
    allocatedClusters: int,
    freeClusters: int,
    totalClusters: int,
    fatSectors: int,
    firstData: int,
    partSectors: int,
    diskSectors: int)

  datatype Choice = Chosen(geometry: Geometry) | NegativeSize | ExceedsCapacity

  /** The smallest number of clusters that holds `size` bytes. */
  function ClustersForBytes(size: int, clusterSize: int): (n: int)
    requires clusterSize > 0
    ensures n >= 0
    ensures size <= 0 <==> n == 0
    ensures size > 0 ==> (n - 1) * clusterSize < size <= n * clusterSize
  {
    if size <= 0 then 0
    else
      DivisionBounds(size - 1, clusterSize);
      1 + (size - 1) / clusterSize
  }

  lemma DivisionBounds(a: int, b: int)
    requires a >= 0 && b > 0
    ensures a / b >= 0 && a / b * b <= a < a / b * b + b
  {
  }

  /** Rounding up by adding one less than the unit gives the same count. */
  lemma RoundUpAgrees(size: int, clusterSize: int)
    requires size >= 0 && clusterSize > 0
    ensures (size + clusterSize - 1) / clusterSize == ClustersForBytes(size, clusterSize)
  {
    if size > 0 {
      var n := ClustersForBytes(size, clusterSize);
      var q := (size + clusterSize - 1) / clusterSize;
      DivisionBounds(size + clusterSize - 1, clusterSize);
      SameQuotient(q, n, clusterSize, size + clusterSize - 1);
    } else {
      DivisionBounds(clusterSize - 1, clusterSize);
      SameQuotient((clusterSize - 1) / clusterSize, 0, clusterSize, clusterSize - 1);
    }
  }

  lemma SameQuotient(q: int, n: int, unit: int, a: int)
    requires unit > 0 && q * unit <= a < q * unit + unit && n * unit <= a < n * unit + unit
    ensures q == n
  {
    Scaled(q + 1, n, unit);
    Scaled(n + 1, q, unit);
  }

  lemma Scaled(a: int, b: int, unit: int)
    requires unit > 0
    ensures a <= b ==> a * unit <= b * unit
  {
    if a <= b {
      assert (b - a) * unit >= 0;
    }
  }

  /** Payload clusters of all files together. */
  function DataClusters(lengths: seq<int>, clusterSize: int): (n: int)
    requires clusterSize > 0
    ensures n >= 0
  {
    if lengths == [] then 0
    else DataClusters(lengths[..|lengths| - 1], clusterSize) + ClustersForBytes(lengths[|lengths| - 1], clusterSize)
  }

  lemma {:induction false} DataClustersGrow(lengths: seq<int>, clusterSize: int, n: nat)
    requires clusterSize > 0 && n <= |lengths|
    ensures DataClusters(lengths[..n], clusterSize) <= DataClusters(lengths, clusterSize)
    decreases |lengths|
  {
    if n < |lengths| {
      var front := lengths[..|lengths| - 1];
      DataClustersGrow(front, clusterSize, n);
      assert front[..n] == lengths[..n];
    } else {
      assert lengths[..n] == lengths;
    }
  }

  function Max(a: int, b: int): int {
    if a > b then a else b
  }

  /** The geometry that one cluster size would give. */
  function Candidate(lengths: seq<int>, wbfsEntries: int, sectorsPerCluster: int): Geometry
    requires sectorsPerCluster > 0
  {
    var clusterSize := SECTOR_SIZE * sectorsPerCluster;
    var wbfs := Max(ClustersForBytes(wbfsEntries * 32, clusterSize), 1);
    var used := 1 + wbfs + DataClusters(lengths, clusterSize);
    var total := Max(used + 1, MIN_DATA_CLUSTERS);
    var fatSectors := ((total + 2) * 4 + SECTOR_SIZE - 1) / SECTOR_SIZE;
    var firstData := RESERVED_SECTORS + NUM_FATS * fatSectors;
    var partSectors := firstData + total * sectorsPerCluster;
    Geometry(sectorsPerCluster, clusterSize, wbfs, used, total - used, total, fatSectors,
             firstData, partSectors, PARTITION_START + partSectors)
  }

  predicate Fits(g: Geometry) {
    && g.totalClusters <= MAX_DATA_CLUSTERS
    && g.partSectors <= MAX_PARTITION_SECTORS && g.diskSectors <= MAX_DISK_SECTORS
  }

  datatype Payload = Small | Large | Negative

  /** Reads the sizes in order until the payload is known to be large, or one is negative. */
  function Classify(lengths: seq<int>, sum: int): Payload {
    if lengths == [] then Small
    else if lengths[0] < 0 then Negative
    else if lengths[0] >= LARGE_VOLUME - sum then Large
    else Classify(lengths[1..], sum + lengths[0])
  }

  function Total(lengths: seq<int>): int {
    if lengths == [] then 0 else lengths[0] + Total(lengths[1..])
  }

  /** With real sizes, the 32 KiB layout is forced exactly when the payload reaches 32 GiB. */
  lemma {:induction false} ClassifyMeaning(lengths: seq<int>, sum: int)
    requires forall i :: 0 <= i < |lengths| ==> lengths[i] >= 0
    requires sum < LARGE_VOLUME
    ensures Classify(lengths, sum) == if sum + Total(lengths) >= LARGE_VOLUME then Large else Small
  {
    if lengths != [] {
      if lengths[0] >= LARGE_VOLUME - sum {
        TotalNotNegative(lengths[1..]);
      } else {
        ClassifyMeaning(lengths[1..], sum + lengths[0]);
      }
    }
  }

  lemma {:induction false} TotalNotNegative(lengths: seq<int>)
    requires forall i :: 0 <= i < |lengths| ==> lengths[i] >= 0
    ensures Total(lengths) >= 0
  {
    if lengths != [] {
      TotalNotNegative(lengths[1..]);
    }
  }

  function Candidates(lengths: seq<int>): seq<int> {
    if Classify(lengths, 0) == Large then [64] else SECTORS_PER_CLUSTER
  }

  /** The first fitting candidate wins; only when none fits does the library exceed the format. */
  method SelectDiskGeometry(lengths: seq<int>, wbfsEntries: int) returns (r: Choice)
    ensures r == NegativeSize <==> Classify(lengths, 0) == Negative
    ensures r == ExceedsCapacity ==>
      forall i :: 0 <= i < |Candidates(lengths)| ==> !Fits(Candidate(lengths, wbfsEntries, Candidates(lengths)[i]))
    ensures r.Chosen? ==>
      exists i :: FirstFit(lengths, wbfsEntries, i, r.geometry)
  {
    var candidates := SECTORS_PER_CLUSTER;
    var logical, n := 0, 0;
    while n < |lengths|
      invariant 0 <= n <= |lengths|
      invariant candidates == SECTORS_PER_CLUSTER
      invariant Classify(lengths[n..], logical) == Classify(lengths, 0)
    {
      if lengths[n] < 0 { return NegativeSize; }
      if lengths[n] >= LARGE_VOLUME - logical {
        candidates := [64];
        break;
      }
      logical, n := logical + lengths[n], n + 1;
    }
    assert candidates == Candidates(lengths);
    var c := 0;
    while c < |candidates|
      invariant 0 <= c <= |candidates|
      invariant forall i :: 0 <= i < c ==> !Fits(Candidate(lengths, wbfsEntries, candidates[i]))
    {
      var g := TryCluster(lengths, wbfsEntries, candidates[c]);
      if g.Some? {
        assert FirstFit(lengths, wbfsEntries, c, g.value);
        return Chosen(g.value);
      }
      c := c + 1;
    }
    r := ExceedsCapacity;
  }

  /** `g` is what candidate `i` gives; it fits, and no earlier candidate does. */
  ghost predicate FirstFit(lengths: seq<int>, wbfsEntries: int, i: int, g: Geometry) {
    && 0 <= i < |Candidates(lengths)|
    && g == Candidate(lengths, wbfsEntries, Candidates(lengths)[i])
    && Fits(Candidate(lengths, wbfsEntries, Candidates(lengths)[i]))
    && forall k :: 0 <= k < i ==> !Fits(Candidate(lengths, wbfsEntries, Candidates(lengths)[k]))
  }

  /** Sums the clusters, stopping as soon as they exceed the format, then checks the regions. */
  method TryCluster(lengths: seq<int>, wbfsEntries: int, sectorsPerCluster: int) returns (g: Option<Geometry>)
    requires sectorsPerCluster > 0
    ensures g == if Fits(Candidate(lengths, wbfsEntries, sectorsPerCluster))
                 then Some(Candidate(lengths, wbfsEntries, sectorsPerCluster)) else None
  {
    var clusterSize := SECTOR_SIZE * sectorsPerCluster;
    var dataClusters, n := 0, 0;
    while n < |lengths|
      invariant 0 <= n <= |lengths|
      invariant dataClusters == DataClusters(lengths[..n], clusterSize) <= MAX_DATA_CLUSTERS
    {
      var more := ClustersForBytes(lengths[n], clusterSize);
      assert lengths[..n + 1][..n] == lengths[..n];
      if dataClusters > MAX_DATA_CLUSTERS - more {
        DataClustersGrow(lengths, clusterSize, n + 1);
        return None;
      }
      dataClusters, n := dataClusters + more, n + 1;
    }
    assert lengths[..n] == lengths;
    var wbfs := ClustersForBytes(wbfsEntries * 32, clusterSize);
    if wbfs < 1 { wbfs := 1; }
    var used := 1 + wbfs + dataClusters;
    var total := used + 1;
    if total < MIN_DATA_CLUSTERS { total := MIN_DATA_CLUSTERS; }
    if total > MAX_DATA_CLUSTERS { return None; }
    var fatSectors := ((total + 2) * 4 + SECTOR_SIZE - 1) / SECTOR_SIZE;
    var firstData := RESERVED_SECTORS + NUM_FATS * fatSectors;
    var partSectors := firstData + total * sectorsPerCluster;
    var diskSectors := PARTITION_START + partSectors;
    if partSectors > MAX_PARTITION_SECTORS || diskSectors > MAX_DISK_SECTORS { return None; }
    g := Some(Geometry(sectorsPerCluster, clusterSize, wbfs, used, total - used, total,
                       fatSectors, firstData, partSectors, diskSectors));
  }

  /** A FAT32 volume of at most 2^32 sectors with these clusters, at least one of them free, and two whole tables. */
  ghost predicate VolumeHolds(used: int, sectorsPerCluster: int, total: int, fatSectors: int) {
    && used + 1 <= total && 65525 <= total <= 0x0fff_ffee && (total + 2) * 4 <= fatSectors * 512
    && 2048 + 32 + 2 * fatSectors + total * sectorsPerCluster <= 0x1_0000_0000
  }

  /** A cluster size fits exactly if some FAT32 volume with clusters of this size holds the library. */
  lemma FitsExactly(lengths: seq<int>, wbfsEntries: int, sectorsPerCluster: int)
    requires sectorsPerCluster in {8, 16, 32, 64}
    ensures var clusterSize := 512 * sectorsPerCluster;
      var used := 1 + Max(ClustersForBytes(wbfsEntries * 32, clusterSize), 1) + DataClusters(lengths, clusterSize);
      Fits(Candidate(lengths, wbfsEntries, sectorsPerCluster)) <==>
        exists total, fatSectors :: VolumeHolds(used, sectorsPerCluster, total, fatSectors)
  {
    var g := Candidate(lengths, wbfsEntries, sectorsPerCluster);
    DivisionBounds((g.totalClusters + 2) * 4 + 511, 512);
    if Fits(g) {
      assert VolumeHolds(g.allocatedClusters, sectorsPerCluster, g.totalClusters, g.fatSectors);
    }
    if total, fatSectors :| VolumeHolds(g.allocatedClusters, sectorsPerCluster, total, fatSectors) {
      assert g.totalClusters <= total && g.fatSectors <= fatSectors;
      Scaled(g.totalClusters, total, sectorsPerCluster);
    }
  }

  /** From 32 GiB on clusters have 64 sectors; below, the smallest size that fits is chosen. */
  lemma SmallestFitting(lengths: seq<int>, wbfsEntries: int, i: int, g: Geometry)
    requires FirstFit(lengths, wbfsEntries, i, g) && forall k :: 0 <= k < |lengths| ==> lengths[k] >= 0
    ensures Total(lengths) >= 34_359_738_368 ==> g.sectorsPerCluster == 64
    ensures Total(lengths) < 34_359_738_368 ==>
      && g.sectorsPerCluster in {8, 16, 32, 64}
      && forall s :: s in {8, 16, 32, 64} && s < g.sectorsPerCluster ==> !Fits(Candidate(lengths, wbfsEntries, s))
  {
    ClassifyMeaning(lengths, 0);
    if Total(lengths) < 34_359_738_368 {
      forall s | s in {8, 16, 32, 64} && s < g.sectorsPerCluster ensures !Fits(Candidate(lengths, wbfsEntries, s)) {
        var k := if s == 8 then 0 else if s == 16 then 1 else if s == 32 then 2 else 3;
        assert Candidates(lengths)[k] == s;
      }
    }
  }

  /** What every accepted geometry guarantees to the FAT and to the boot record. */
  lemma GeometrySound(lengths: seq<int>, wbfsEntries: int, sectorsPerCluster: int)
    requires sectorsPerCluster in SECTORS_PER_CLUSTER
    requires Fits(Candidate(lengths, wbfsEntries, sectorsPerCluster))
    ensures var g := Candidate(lengths, wbfsEntries, sectorsPerCluster);
      && 65525 <= g.totalClusters <= 0x0fff_ffee && g.totalClusters + 1 < 0x0fff_fff0
      && g.freeClusters >= 1 && g.allocatedClusters >= 2
      && (g.totalClusters + 2) * 4 <= g.fatSectors * SECTOR_SIZE < (g.totalClusters + 2) * 4 + SECTOR_SIZE
      && g.partSectors < 0x1_0000_0000
      && g.diskSectors * SECTOR_SIZE
        == (PARTITION_START + RESERVED_SECTORS + 2 * g.fatSectors) * SECTOR_SIZE + g.totalClusters * g.clusterSize
  {
    var g := Candidate(lengths, wbfsEntries, sectorsPerCluster);
    DivisionBounds((g.totalClusters + 2) * 4 + SECTOR_SIZE - 1, SECTOR_SIZE);
  }
}
