/** Size of a GameCube library disk, its FAT32 regions, and its allocation table. */
module Fat32Geometry {
  import opened Basics
  import opened Bytes
  import opened WiiFat
  import opened FatInfo

  const MAX_INT64: int := 0x7fff_ffff_ffff_ffff
  const MAX_UINT32: int := 0xffff_ffff
  const SECTOR: int := 512
  const PARTITION_START: int := 2048
  const RESERVED: int := 32
  const SECTORS_PER_CLUSTER: int := 64
  const CLUSTER: int := 32768
  const MINIMUM_CLUSTERS: int := 65525
  const GIB: int := 0x4000_0000
  const MINIMUM_SIZE: int := 8 * GIB
  const METADATA_RESERVE: int := 0x1000_0000

  /** What the first pass reserves for few used clusters: the reserved sectors and two tables of 512. */
  const FIRST_PASS: int := 1056

  /** The largest estimate whose table is shorter than the first pass assumed. */
  const LAST_SHORT: int := 65406

  /** The largest size, about 2 GiB, whose table can be too short. */
  const LAST_UNCOVERED: int := (PARTITION_START + FIRST_PASS + SECTORS_PER_CLUSTER * LAST_SHORT + 63) * SECTOR

  function MaxInt(a: int, b: int): int { if a < b then b else a }

  predicate Int64(v: int) { -MAX_INT64 - 1 <= v <= MAX_INT64 }

  // ---- Library size ----

  /** `otherwise` stands for the settings that do not enter the size. */
  datatype Config = Config(headroomPercent: int, saveReserveMiB: int, maxVolumeGiB: int, otherwise: bool)

  /** The percentage is one, and neither size overflows 64 bits when it is converted to bytes. */
  predicate ConfigValid(c: Config) {
    && 0 <= c.headroomPercent <= 100 && 0 <= c.saveReserveMiB <= 0x7ff_ffff_ffff
    && 0 <= c.maxVolumeGiB <= 0x1_ffff_ffff && c.otherwise
  }

  datatype SizeResult = Size(bytes: int) | InvalidConfig | NegativePayload | Overflow | ExceedsFormat | ExceedsMaximum

  /**
   * Whole GiB, at least 8 of them, that hold the payload, the save reserve and 256 MiB for metadata, and
   * beside these the given percentage of the payload in whole bytes.
   */
  ghost predicate Roomy(size: int, payload: int, c: Config) {
    var left := size - payload - c.saveReserveMiB * 1_048_576 - 268_435_456;
    && size % 1_073_741_824 == 0 && size >= 8_589_934_592
    && left >= 0 && 100 * (left + 1) > payload * c.headroomPercent
  }

  /** Addressable with 32-bit sector numbers, and not above the configured maximum if there is one. */
  ghost predicate WithinLimits(size: int, c: Config) {
    size < 2_199_023_255_552 && (c.maxVolumeGiB == 0 || size <= c.maxVolumeGiB * 1_073_741_824)
  }

  /** The checked 64-bit computation refuses exactly when the exact size exceeds the format or the maximum. */
  method CalculateLibrarySize(payload: int, c: Config) returns (r: SizeResult)
    requires Int64(payload)
    ensures r == InvalidConfig <==> !ConfigValid(c)
    ensures r == NegativePayload <==> ConfigValid(c) && payload < 0
    ensures r.Size? ==> Roomy(r.bytes, payload, c) && WithinLimits(r.bytes, c)
    ensures r.Size? ==> forall size :: Roomy(size, payload, c) ==> r.bytes <= size
    ensures ConfigValid(c) && payload >= 0 && !r.Size? ==>
      forall size :: Roomy(size, payload, c) ==> !WithinLimits(size, c)
  {
    if !ConfigValid(c) { return InvalidConfig; }
    if payload < 0 { return NegativePayload; }
    HeadroomBounds(payload, c.headroomPercent);
    if payload > MAX_INT64 / 100 { return Overflow; }
    assert Int64(payload * c.headroomPercent);
    var headroom := payload * c.headroomPercent / 100;
    var saveReserve := c.saveReserveMiB * 0x10_0000;
    assert Int64(saveReserve) && Int64(MAX_INT64 - saveReserve - METADATA_RESERVE);
    forall size | Roomy(size, payload, c) ensures size >= payload + headroom + saveReserve + METADATA_RESERVE {
      RoomyNeeds(size, payload, c);
    }
    if payload > MAX_INT64 - headroom || payload + headroom > MAX_INT64 - saveReserve - METADATA_RESERVE {
      return Overflow;
    }
    var size := payload + headroom + saveReserve + METADATA_RESERVE;
    if size < MINIMUM_SIZE { size := MINIMUM_SIZE; }
    if size > MAX_INT64 - (GIB - 1) { return Overflow; }
    LeastRoomy(payload, c, size);
    size := (size + GIB - 1) / GIB * GIB;
    assert Int64(size);
    if size / SECTOR > MAX_UINT32 { return ExceedsFormat; }
    if c.maxVolumeGiB > 0 && size > c.maxVolumeGiB * GIB { return ExceedsMaximum; }
    r := Size(size);
  }

  lemma RoomyNeeds(size: int, payload: int, c: Config)
    requires Roomy(size, payload, c) && ConfigValid(c) && payload >= 0
    ensures size >= payload + payload * c.headroomPercent / 100 + c.saveReserveMiB * 0x10_0000 + METADATA_RESERVE
  {
    HeadroomBounds(payload, c.headroomPercent);
    RoomForHeadroom(size - payload - c.saveReserveMiB * 0x10_0000 - METADATA_RESERVE, payload * c.headroomPercent);
  }

  /** What is needed, at least 8 GiB, rounded up to whole GiB, is the smallest size with room. */
  lemma LeastRoomy(payload: int, c: Config, least: int)
    requires ConfigValid(c) && payload >= 0
    requires least == MaxInt(MINIMUM_SIZE,
      payload + payload * c.headroomPercent / 100 + c.saveReserveMiB * 0x10_0000 + METADATA_RESERVE)
    ensures Roomy((least + GIB - 1) / GIB * GIB, payload, c)
    ensures forall other :: Roomy(other, payload, c) ==> (least + GIB - 1) / GIB * GIB <= other
  {
    var size := (least + GIB - 1) / GIB * GIB;
    HeadroomBounds(payload, c.headroomPercent);
    RoomForHeadroom(size - payload - c.saveReserveMiB * 0x10_0000 - METADATA_RESERVE, payload * c.headroomPercent);
    forall other | Roomy(other, payload, c) ensures size <= other {
      RoomyNeeds(other, payload, c);
      NextGib(least, size, other);
    }
  }

  lemma RoomForHeadroom(left: int, product: int)
    requires product >= 0
    ensures 100 * (left + 1) > product <==> left >= product / 100
  {
  }

  /** No whole GiB lies between a size and the one it is rounded up to. */
  lemma NextGib(least: int, size: int, other: int)
    requires size == (least + GIB - 1) / GIB * GIB && other % GIB == 0 && other >= least
    ensures size <= other
  {
    assert (least + GIB - 1) / GIB <= (other + GIB - 1) / GIB == other / GIB;
  }

  lemma HeadroomBounds(payload: int, percent: int)
    requires payload >= 0 && 0 <= percent <= 100
    ensures 0 <= payload * percent <= payload * 100 && payload * percent / 100 >= 0
  {
  }

  // ---- Geometry ----

  datatype Geometry = Geometry(partitionSectors: int, fatSectors: int, firstData: int, available: int)

  /** Division that truncates toward zero. */
  function Quotient(a: int, b: int): int
    requires b > 0
  {
    if a >= 0 then a / b else -((-a) / b)
  }

  function FatSectorsFor(clusters: int): int { ((clusters + 2) * 4 + SECTOR - 1) / SECTOR }

  predicate SizeAccepted(size: int) {
    size > (PARTITION_START + RESERVED) * SECTOR && size % SECTOR == 0 && size / SECTOR <= MAX_UINT32
  }

  /** Every size that the library calculation returns is one that the builder takes, and at least 8 GiB. */
  lemma LibrarySizeAccepted(size: int, payload: int, c: Config)
    requires Roomy(size, payload, c) && WithinLimits(size, c)
    ensures SizeAccepted(size) && size >= MINIMUM_SIZE
  {
    WholeSectors(size);
  }

  lemma WholeSectors(size: int)
    requires size % 1_073_741_824 == 0
    ensures size % SECTOR == 0
  {
    var gib := size / 1_073_741_824;
    assert size == gib * 2_097_152 * SECTOR;
  }

  /** Sizes the table for an estimate, then again for the clusters that the first estimate leaves. */
  function SelectGeometry(size: int, used: int): Option<Geometry> {
    var total := if used < MINIMUM_CLUSTERS then MINIMUM_CLUSTERS else used;
    var partition := size / SECTOR - PARTITION_START;
    var estimate := Quotient(partition - (RESERVED + 2 * FatSectorsFor(total)), SECTORS_PER_CLUSTER);
    if estimate < used || estimate > MAX_UINT32 - 2 then None
    else
      var fatSectors := FatSectorsFor(estimate);
      var firstData := RESERVED + 2 * fatSectors;
      var available := Quotient(partition - firstData, SECTORS_PER_CLUSTER);
      if available < used then None else Some(Geometry(partition, fatSectors, firstData, available))
  }

  /**
   * A disk is large enough if the used clusters fit behind two tables that have entries for all of them,
   * for at least 65525 clusters, and for as many as the whole disk could hold.
   */
  lemma RoomSuffices(size: int, used: int, fatSectors: int)
    requires SizeAccepted(size) && used >= 1
    requires (used + 2) * 4 <= fatSectors * 512 && (65525 + 2) * 4 <= fatSectors * 512
    requires (size / 32768 + 2) * 4 <= fatSectors * 512
    requires (2048 + 32 + 2 * fatSectors + used * 64) * 512 <= size
    ensures SelectGeometry(size, used).Some?
  {
    var total := if used < MINIMUM_CLUSTERS then MINIMUM_CLUSTERS else used;
    TableWithin(total, fatSectors);
    var partition := size / SECTOR - PARTITION_START;
    var estimate := Quotient(partition - (RESERVED + 2 * FatSectorsFor(total)), SECTORS_PER_CLUSTER);
    assert used <= estimate <= size / 32768;
    TableWithin(estimate, fatSectors);
  }

  lemma TableWithin(clusters: int, fatSectors: int)
    requires (clusters + 2) * 4 <= fatSectors * 512
    ensures FatSectorsFor(clusters) <= fatSectors
  {
  }

  /** The clusters that the first pass leaves beside a table for at least the minimum of them. */
  function Estimate(size: int): int {
    Quotient(size / SECTOR - PARTITION_START - FIRST_PASS, SECTORS_PER_CLUSTER)
  }

  predicate Covers(g: Geometry) { (g.available + 2) * 4 <= g.fatSectors * SECTOR }

  /** Entries of the second table that the estimate leaves over. */
  function SpareEntries(estimate: int): int { FatSectorsFor(estimate) * 128 - (estimate + 2) }

  /** Clusters that become available because the second table is shorter than the first. */
  function FreedClusters(size: int): int {
    var left := size / SECTOR - PARTITION_START - FIRST_PASS;
    (left - Estimate(size) * SECTORS_PER_CLUSTER + 2 * (512 - FatSectorsFor(Estimate(size)))) / SECTORS_PER_CLUSTER
  }

  /**
   * Exactly when the table has an entry for each cluster that the regions imply. With many used
   * clusters, or an estimate that asks for 512 table sectors, the second table is no shorter than the
   * first; otherwise the clusters that the shorter table frees must fit its spare entries.
   */
  lemma TableCoversExactly(size: int, used: int)
    requires SizeAccepted(size) && used >= 1 && SelectGeometry(size, used).Some?
    ensures Covers(SelectGeometry(size, used).value) <==>
      || used >= MINIMUM_CLUSTERS || Estimate(size) >= LAST_SHORT + 1
      || FreedClusters(size) <= SpareEntries(Estimate(size))
  {
    if used < MINIMUM_CLUSTERS {
      assert FatSectorsFor(MINIMUM_CLUSTERS) == 512;
      var e, left := Estimate(size), size / SECTOR - PARTITION_START - FIRST_PASS;
      var f := FatSectorsFor(e);
      assert f == (e + 129) / 128;
      SplitQuotient(left, e, 2 * (512 - f));
    }
  }

  lemma SplitQuotient(left: int, e: int, more: int)
    requires left >= 0 && left + more >= 0 && e == left / SECTORS_PER_CLUSTER
    ensures (left + more) / SECTORS_PER_CLUSTER == e + (left - e * SECTORS_PER_CLUSTER + more) / SECTORS_PER_CLUSTER
  {
  }

  /** Above that size the table always suffices; at that size it does not, with a single used cluster. */
  lemma TableCoversAbove(size: int, used: int)
    requires SizeAccepted(size) && used >= 1 && SelectGeometry(size, used).Some? && size > LAST_UNCOVERED
    ensures Covers(SelectGeometry(size, used).value)
    ensures SizeAccepted(LAST_UNCOVERED) && SelectGeometry(LAST_UNCOVERED, 1).Some?
    ensures !Covers(SelectGeometry(LAST_UNCOVERED, 1).value)
  {
    TableCoversExactly(size, used);
  }

  /** For every library size the table covers the clusters that the regions imply, and the disk is FAT32. */
  lemma TableCoversClusters(size: int, used: int)
    requires SizeAccepted(size) && size >= MINIMUM_SIZE && used >= 1
    requires SelectGeometry(size, used).Some?
    ensures var g := SelectGeometry(size, used).value;
      && Covers(g) && MINIMUM_CLUSTERS <= g.available <= 0x0fff_ffee
      && (g.firstData + g.available * SECTORS_PER_CLUSTER) <= g.partitionSectors
  {
  }

  /** What any accepted geometry gives to the allocation itself. */
  lemma GeometryHolds(size: int, used: int)
    requires SizeAccepted(size) && used >= 1 && SelectGeometry(size, used).Some?
    ensures var g := SelectGeometry(size, used).value;
      && g.fatSectors > 0 && (used + 2) * 4 <= g.fatSectors * SECTOR && used <= g.available <= 0x0fff_ffee
      && g.firstData == RESERVED + 2 * g.fatSectors
      && (PARTITION_START + g.firstData + used * SECTORS_PER_CLUSTER) * SECTOR <= size
  {
  }

  // ---- Allocation ----

  /** Clusters of the first `i` nodes. */
  function Sum(counts: seq<nat>, i: nat): nat
    requires i <= |counts|
  {
    if i == 0 then 0 else Sum(counts, i - 1) + counts[i - 1]
  }

  function Runs(counts: seq<nat>): (chains: seq<Chain>)
    ensures |chains| == |counts|
  {
    seq(|counts|, i requires 0 <= i < |counts| => Chain(2 + Sum(counts, i), counts[i]))
  }

  lemma {:induction false} SumGrows(counts: seq<nat>, i: nat, j: nat)
    requires i <= j <= |counts|
    ensures Sum(counts, i) <= Sum(counts, j)
    decreases j
  {
    if i < j {
      SumGrows(counts, i, j - 1);
    }
  }

  ghost predicate Allocatable(counts: seq<nat>) {
    (forall i :: 0 <= i < |counts| ==> counts[i] > 0) && Sum(counts, |counts|) <= 0x0fff_ffee
  }

  /** Consecutive runs of non-empty nodes partition the used clusters. */
  lemma RunsOrdered(counts: seq<nat>)
    requires Allocatable(counts)
    ensures Ordered(Runs(counts))
  {
    forall i | 0 <= i < |counts| ensures Runs(counts)[i].End() <= 0x0fff_fff0 {
      SumGrows(counts, i + 1, |counts|);
    }
    forall i, j | 0 <= i < j < |counts| ensures Runs(counts)[i].End() <= Runs(counts)[j].first {
      SumGrows(counts, i + 1, j);
    }
  }

  /** A cluster is in use exactly when it is one of the first `Sum`. */
  lemma FreeBeyond(counts: seq<nat>, cluster: nat)
    requires Allocatable(counts) && cluster >= 2 && Ordered(Runs(counts))
    ensures FatValue(Runs(counts), cluster) == 0 <==> cluster >= 2 + Sum(counts, |counts|)
  {
    var chains := Runs(counts);
    if cluster >= 2 + Sum(counts, |counts|) {
      forall i | 0 <= i < |chains| ensures !Owns(chains[i], cluster) {
        SumGrows(counts, i + 1, |counts|);
      }
      FreeEntry(chains, cluster);
    } else {
      var i := Owner(counts, cluster, |counts|);
      OwnedEntry(chains, i, cluster);
    }
  }

  lemma {:induction false} Owner(counts: seq<nat>, cluster: nat, n: nat) returns (i: nat)
    requires n <= |counts| && 2 <= cluster < 2 + Sum(counts, n)
    ensures i < n && 2 + Sum(counts, i) <= cluster < 2 + Sum(counts, i) + counts[i]
    decreases n
  {
    if cluster >= 2 + Sum(counts, n - 1) {
      i := n - 1;
    } else {
      i := Owner(counts, cluster, n - 1);
    }
  }

  /** The free count that the builder stores is the number of zero entries of the clusters the disk has. */
  lemma {:induction false} FreeCountExact(counts: seq<nat>, hi: nat)
    requires Allocatable(counts) && Ordered(Runs(counts)) && hi >= 2
    ensures ZeroEntries(Runs(counts), 2, hi)
      == if hi - 2 <= Sum(counts, |counts|) then 0 else hi - 2 - Sum(counts, |counts|)
    decreases hi
  {
    if hi > 2 {
      FreeCountExact(counts, hi - 1);
      FreeBeyond(counts, hi - 1);
    }
  }

  // ---- The table in memory ----

  /** Entries below `bound` are those of the final table, the rest still zero. */
  ghost predicate TableTo(bytes: seq<byte>, chains: seq<Chain>, bound: nat)
    requires Ordered(chains)
  {
    forall i :: 0 <= i < |bytes| ==> bytes[i] == if i / 4 < bound then FatByte(chains, i) else 0
  }

  lemma TableEntry(bytes: seq<byte>, chains: seq<Chain>, cluster: nat)
    requires Ordered(chains) && TableTo(bytes, chains, cluster) && 4 * cluster + 4 <= |bytes|
    ensures TableTo(Patch(bytes, 4 * cluster, LittleEndian(4, FatValue(chains, cluster))), chains, cluster + 1)
  {
    var next := Patch(bytes, 4 * cluster, LittleEndian(4, FatValue(chains, cluster)));
    forall i | 0 <= i < |bytes| ensures next[i] == if i / 4 < cluster + 1 then FatByte(chains, i) else 0 {
      if 4 * cluster <= i < 4 * cluster + 4 {
        EntryByte(chains, cluster, i - 4 * cluster);
      }
    }
  }

  lemma RestIsFree(bytes: seq<byte>, chains: seq<Chain>, bound: nat)
    requires Ordered(chains) && TableTo(bytes, chains, bound)
    requires forall cluster: nat :: cluster >= bound ==> FatValue(chains, cluster) == 0
    ensures IsTable(bytes, chains)
  {
    forall i | 0 <= i < |bytes| && i / 4 >= bound ensures FatByte(chains, i) == 0 {
      ZeroDigit(i % 4);
    }
  }

  /** Writes one chain: each cluster leads to the next, the last ends the chain. */
  method WriteChain(fat: array<byte>, next: nat, count: nat, ghost counts: seq<nat>, ghost node: nat)
    returns (after: nat)
    requires Allocatable(counts) && Ordered(Runs(counts)) && node < |counts|
    requires next == 2 + Sum(counts, node) && count == counts[node] && 4 * (next + count) <= fat.Length
    requires TableTo(fat[..], Runs(counts), next)
    modifies fat
    ensures after == next + count && TableTo(fat[..], Runs(counts), after)
  {
    var cluster := next;
    for index := 0 to count
      invariant cluster == next + index && TableTo(fat[..], Runs(counts), cluster)
    {
      var value := END_OF_CHAIN;
      if index + 1 < count { value := cluster + 1; }
      OwnedEntry(Runs(counts), node, cluster);
      TableEntry(fat[..], Runs(counts), cluster);
      PutUint32(fat, 4 * cluster, value);
      cluster := cluster + 1;
    }
    after := cluster;
  }

  /** Builds the whole table, node by node. */
  method BuildFat(counts: seq<nat>, fatSectors: nat) returns (fat: seq<byte>)
    requires Allocatable(counts) && counts != [] && (Sum(counts, |counts|) + 2) * 4 <= fatSectors * SECTOR
    ensures Ordered(Runs(counts)) && |fat| == fatSectors * SECTOR && IsTable(fat, Runs(counts))
  {
    RunsOrdered(counts);
    var table := new byte[fatSectors * SECTOR](_ => 0);
    TableEntry(table[..], Runs(counts), 0);
    PutUint32(table, 0, MEDIA_ENTRY);
    TableEntry(table[..], Runs(counts), 1);
    PutUint32(table, 4, CLEAN_ENTRY);
    var next := 2;
    for node := 0 to |counts|
      invariant next == 2 + Sum(counts, node) && TableTo(table[..], Runs(counts), next)
    {
      SumGrows(counts, node + 1, |counts|);
      next := WriteChain(table, next, counts[node], counts, node);
    }
    forall cluster: nat | cluster >= next ensures FatValue(Runs(counts), cluster) == 0 {
      FreeBeyond(counts, cluster);
    }
    RestIsFree(table[..], Runs(counts), next);
    fat := table[..];
  }
}
