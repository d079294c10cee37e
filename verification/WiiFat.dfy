/** The file allocation table of the Wii disk, kept as runs and synthesized on demand. */
module WiiFat {
  import opened Basics
  import opened Bytes
  import opened Search

  const MEDIA_ENTRY: nat := 0x0fff_fff8
  const CLEAN_ENTRY: nat := 0xffff_ffff
  const END_OF_CHAIN: nat := 0x0fff_ffff
  const FAT_SECTOR: nat := 512
  const ENTRIES_PER_SECTOR: nat := 128

  /** A file's clusters: `count` consecutive ones from `first`. */
  datatype Chain = Chain(first: nat, count: nat) {
    function End(): nat { first + count }
  }

  /** Runs are non-empty, in ascending order, without overlap and below the reserved numbers. */
  ghost predicate Ordered(chains: seq<Chain>) {
    && (forall i :: 0 <= i < |chains| ==> chains[i].first >= 2 && chains[i].count > 0 && chains[i].End() <= 0x0fff_fff0)
    && (forall i, j :: 0 <= i < j < |chains| ==> chains[i].End() <= chains[j].first)
  }

  ghost predicate Owns(chain: Chain, cluster: nat) {
    chain.first <= cluster < chain.End()
  }

  /** Index of the first run that ends beyond the cluster. */
  function RunAt(chains: seq<Chain>, cluster: nat): (i: nat)
    requires Ordered(chains)
    ensures i <= |chains|
    ensures i < |chains| ==> chains[i].End() > cluster
    ensures forall k :: 0 <= k < i ==> chains[k].End() <= cluster
  {
    var beyond := (i: nat) => i < |chains| && chains[i].End() > cluster;
    assert Upward(|chains|, beyond) by {
      forall i: nat, j: nat | i <= j < |chains| && beyond(i) ensures beyond(j) {
        assert i == j || chains[i].End() <= chains[j].first;
      }
    }
    var i := FirstIndex(|chains|, beyond);
    assert forall k :: 0 <= k < i ==> chains[k].End() <= cluster by {
      forall k | 0 <= k < i ensures chains[k].End() <= cluster {
        assert !beyond(k);
      }
    }
    i
  }

  /** The table entry of one cluster. */
  function FatValue(chains: seq<Chain>, cluster: nat): (v: nat)
    requires Ordered(chains)
    ensures v < 0x1_0000_0000
  {
    if cluster == 0 then MEDIA_ENTRY
    else if cluster == 1 then CLEAN_ENTRY
    else
      var i := RunAt(chains, cluster);
      if i == |chains| || cluster < chains[i].first then 0
      else if cluster + 1 == chains[i].End() then END_OF_CHAIN
      else cluster + 1
  }

  /** A cluster of a run leads to the next one, and the last one ends the chain. */
  lemma OwnedEntry(chains: seq<Chain>, i: nat, cluster: nat)
    requires Ordered(chains) && i < |chains| && Owns(chains[i], cluster)
    ensures FatValue(chains, cluster) == if cluster + 1 == chains[i].End() then 0x0fff_ffff else cluster + 1
    ensures RunAt(chains, cluster) == i
  {
    var k := RunAt(chains, cluster);
    assert k <= i;
  }

  /** A cluster that no run owns is free. */
  lemma FreeEntry(chains: seq<Chain>, cluster: nat)
    requires Ordered(chains) && cluster >= 2
    requires forall i :: 0 <= i < |chains| ==> !Owns(chains[i], cluster)
    ensures FatValue(chains, cluster) == 0
  {
    var k := RunAt(chains, cluster);
    assert k < |chains| ==> !Owns(chains[k], cluster);
  }

  /** No cluster belongs to two files. */
  lemma OneOwner(chains: seq<Chain>, i: nat, j: nat, cluster: nat)
    requires Ordered(chains) && i < |chains| && j < |chains|
    requires Owns(chains[i], cluster) && Owns(chains[j], cluster)
    ensures i == j
  {
    OwnedEntry(chains, i, cluster);
    OwnedEntry(chains, j, cluster);
  }

  /** What a driver reads by following the table from a cluster, at most `limit` links far. */
  ghost function Follow(chains: seq<Chain>, cluster: nat, limit: nat): seq<nat>
    requires Ordered(chains)
    decreases limit
  {
    if limit == 0 || FatValue(chains, cluster) >= 0x0fff_fff8 then [cluster]
    else [cluster] + Follow(chains, FatValue(chains, cluster), limit - 1)
  }

  /** A whole run, in order, whose last cluster carries the end mark. */
  ghost predicate ReadsRun(chains: seq<Chain>, clusters: seq<nat>, first: nat, count: nat)
    requires Ordered(chains)
  {
    && |clusters| == count && (forall j :: 0 <= j < |clusters| ==> clusters[j] == first + j)
    && (|clusters| > 0 ==> FatValue(chains, clusters[|clusters| - 1]) >= 0x0fff_fff8)
  }

  /** Following the table from a cluster of a run reads the rest of the run, in order, and stops at its end. */
  lemma {:induction false} FollowReadsRun(chains: seq<Chain>, i: nat, first: nat, limit: nat)
    requires Ordered(chains) && i < |chains| && Owns(chains[i], first) && limit >= chains[i].End() - first
    ensures ReadsRun(chains, Follow(chains, first, limit), first, chains[i].End() - first)
    decreases limit
  {
    OwnedEntry(chains, i, first);
    if first + 1 < chains[i].End() {
      FollowReadsRun(chains, i, first + 1, limit - 1);
      Ahead(chains, first, Follow(chains, first + 1, limit - 1), chains[i].End() - first - 1);
    }
  }

  lemma Ahead(chains: seq<Chain>, first: nat, rest: seq<nat>, count: nat)
    requires Ordered(chains) && count > 0 && ReadsRun(chains, rest, first + 1, count)
    ensures ReadsRun(chains, [first] + rest, first, count + 1)
  {
    var all := [first] + rest;
    assert all[|all| - 1] == rest[|rest| - 1];
  }

  /** One byte of the table, as a flat array of little-endian entries. */
  function FatByte(chains: seq<Chain>, offset: nat): byte
    requires Ordered(chains)
  {
    Digit(FatValue(chains, offset / 4), offset % 4)
  }

  /** The bytes are the whole table, from its beginning. */
  ghost predicate IsTable(bytes: seq<byte>, chains: seq<Chain>)
    requires Ordered(chains)
  {
    forall i :: 0 <= i < |bytes| ==> bytes[i] == FatByte(chains, i)
  }

  lemma EntryByte(chains: seq<Chain>, cluster: nat, i: nat)
    requires Ordered(chains) && i < 4
    ensures FatByte(chains, 4 * cluster + i) == LittleEndian(4, FatValue(chains, cluster))[i]
  {
    assert (4 * cluster + i) / 4 == cluster && (4 * cluster + i) % 4 == i;
    LittleEndianDigit(4, FatValue(chains, cluster), i);
  }

  /** A driver that decodes the entry of a cluster from the table bytes gets `FatValue`. */
  lemma EntryDecodes(chains: seq<Chain>, cluster: nat)
    requires Ordered(chains)
    ensures FromLittleEndian(seq<byte>(4, i requires 0 <= i < 4 => FatByte(chains, 4 * cluster + i)))
      == FatValue(chains, cluster)
  {
    var bytes := LittleEndian(4, FatValue(chains, cluster));
    var read := seq<byte>(4, i requires 0 <= i < 4 => FatByte(chains, 4 * cluster + i));
    forall i | 0 <= i < 4 ensures read[i] == bytes[i] {
      EntryByte(chains, cluster, i);
    }
    assert read == bytes;
    Capacities();
    LittleEndianRoundTrip(4, FatValue(chains, cluster));
  }

  /** The two entries that belong to no cluster: the media descriptor and the marks of a clean volume. */
  lemma ReservedEntries(chains: seq<Chain>)
    requires Ordered(chains)
    ensures FatValue(chains, 0) == 0x0fff_fff8 && FatValue(chains, 1) == 0xffff_ffff
    ensures FatByte(chains, 0) == 0xf8 && FatByte(chains, 3) == 0x0f
    ensures forall i :: 1 <= i < 8 && i != 3 ==> FatByte(chains, i) == 0xff
  {
    assert Digit(0x0fff_fff8, 1) == 0xff && Digit(0x0fff_fff8, 2) == 0xff && Digit(0x0fff_fff8, 3) == 0x0f by {
      assert Digit(0x0fff_ff, 1) == 0xff && Digit(0x0fff, 1) == 0x0f;
    }
    assert Digit(0xffff_ffff, 1) == 0xff && Digit(0xffff_ffff, 2) == 0xff && Digit(0xffff_ffff, 3) == 0xff by {
      assert Digit(0xff_ffff, 1) == 0xff && Digit(0xffff, 1) == 0xff;
    }
  }

  /** Entries below `bound` are final; the bytes of all later ones are still zero. */
  ghost predicate FilledTo(bytes: seq<byte>, chains: seq<Chain>, first: nat, bound: nat)
    requires Ordered(chains)
  {
    && |bytes| == FAT_SECTOR
    && forall i :: 0 <= i < FAT_SECTOR ==>
      bytes[i] == if first + i / 4 < bound then FatByte(chains, first * 4 + i) else 0
  }

  lemma FillEntry(bytes: seq<byte>, chains: seq<Chain>, first: nat, cluster: nat)
    requires Ordered(chains) && FilledTo(bytes, chains, first, cluster)
    requires first <= cluster < first + ENTRIES_PER_SECTOR
    ensures FilledTo(Patch(bytes, (cluster - first) * 4, LittleEndian(4, FatValue(chains, cluster))),
                     chains, first, cluster + 1)
  {
    var at := (cluster - first) * 4;
    var next := Patch(bytes, at, LittleEndian(4, FatValue(chains, cluster)));
    forall i | 0 <= i < FAT_SECTOR
      ensures next[i] == if first + i / 4 < cluster + 1 then FatByte(chains, first * 4 + i) else 0
    {
      if at <= i < at + 4 {
        assert first * 4 + i == cluster * 4 + (i - at);
        assert (first * 4 + i) / 4 == cluster && (first * 4 + i) % 4 == i - at;
        LittleEndianDigit(4, FatValue(chains, cluster), i - at);
      }
    }
  }

  /** Free entries need no writing. */
  lemma FillFree(bytes: seq<byte>, chains: seq<Chain>, first: nat, bound: nat, next: nat)
    requires Ordered(chains) && FilledTo(bytes, chains, first, bound) && bound <= next
    requires forall cluster :: bound <= cluster < next ==> FatValue(chains, cluster) == 0
    ensures FilledTo(bytes, chains, first, next)
  {
    forall i | 0 <= i < FAT_SECTOR && bound <= first + i / 4 < next
      ensures FatByte(chains, first * 4 + i) == 0
    {
      assert (first * 4 + i) / 4 == first + i / 4;
      ZeroDigit((first * 4 + i) % 4);
    }
  }

  method PutUint32(target: array<byte>, at: nat, v: nat)
    requires at + 4 <= target.Length
    modifies target
    ensures target[..] == Patch(old(target[..]), at, LittleEndian(4, v))
  {
    var bytes := LittleEndian(4, v);
    target[at], target[at + 1], target[at + 2], target[at + 3] := bytes[0], bytes[1], bytes[2], bytes[3];
  }

  method Clear(target: array<byte>)
    modifies target
    ensures forall i :: 0 <= i < target.Length ==> target[i] == 0
  {
    for n := 0 to target.Length
      invariant forall i :: 0 <= i < n ==> target[i] == 0
    {
      target[n] := 0;
    }
  }

  /** Clusters between the runs before `index` and the run at `index` are free. */
  lemma GapIsFree(chains: seq<Chain>, index: nat, cluster: nat)
    requires Ordered(chains) && index <= |chains| && cluster >= 2
    requires forall k :: 0 <= k < index ==> chains[k].End() <= cluster
    requires index < |chains| ==> cluster < chains[index].first
    ensures FatValue(chains, cluster) == 0
  {
    forall i | 0 <= i < |chains| ensures !Owns(chains[i], cluster) {
      if index < i {
        assert chains[index].End() <= chains[i].first;
      }
    }
    FreeEntry(chains, cluster);
  }

  /** Fills a sector by one search and a walk over the runs that reach into it. */
  method FillFatSector(chains: seq<Chain>, target: array<byte>, fatSector: nat)
    requires Ordered(chains) && target.Length == FAT_SECTOR
    modifies target
    ensures FatImage(target[..], chains, fatSector * FAT_SECTOR)
  {
    var first := fatSector * ENTRIES_PER_SECTOR;
    var last := first + ENTRIES_PER_SECTOR;
    ghost var bound := StartSector(chains, target, first);
    var index := RunAt(chains, first);
    while index < |chains| && chains[index].first < last
      invariant Filling(target[..], chains, first, index, bound)
    {
      bound := FillRun(chains, index, target, first, bound);
      index := index + 1;
    }
    FinishSector(target[..], chains, first, index, bound, fatSector * FAT_SECTOR);
  }

  /** The bytes are those of the table from this offset on. */
  ghost predicate FatImage(bytes: seq<byte>, chains: seq<Chain>, offset: nat)
    requires Ordered(chains)
  {
    |bytes| == FAT_SECTOR && forall i :: 0 <= i < FAT_SECTOR ==> bytes[i] == FatByte(chains, offset + i)
  }

  /** Clears the sector and, in the first one, writes the two reserved entries. */
  method StartSector(chains: seq<Chain>, target: array<byte>, first: nat) returns (ghost bound: nat)
    requires Ordered(chains) && target.Length == FAT_SECTOR && first % ENTRIES_PER_SECTOR == 0
    modifies target
    ensures bound == (if first == 0 then 2 else first) && FilledTo(target[..], chains, first, bound)
    ensures Filling(target[..], chains, first, RunAt(chains, first), bound)
  {
    Clear(target);
    assert FilledTo(target[..], chains, first, first);
    bound := first;
    if first == 0 {
      FillEntry(target[..], chains, 0, 0);
      PutUint32(target, 0, MEDIA_ENTRY);
      FillEntry(target[..], chains, 0, 1);
      PutUint32(target, 4, CLEAN_ENTRY);
      bound := 2;
    }
  }

  /** The runs before `index` are written, and `bound` is where the next one may start writing. */
  ghost predicate Filling(bytes: seq<byte>, chains: seq<Chain>, first: nat, index: nat, bound: nat)
    requires Ordered(chains)
  {
    var last := first + ENTRIES_PER_SECTOR;
    && index <= |chains| && first <= bound <= last && bound >= 2
    && FilledTo(bytes, chains, first, bound)
    && (Passed(chains, index, bound) || (bound == last && Beyond(chains, index, last)))
    && (index < |chains| ==> chains[index].End() > first)
    && (index < |chains| ==> bound == first || bound == 2 || bound <= chains[index].first)
  }

  lemma FinishSector(bytes: seq<byte>, chains: seq<Chain>, first: nat, index: nat, bound: nat, offset: nat)
    requires offset == first * 4
    requires Ordered(chains) && Filling(bytes, chains, first, index, bound)
    requires index < |chains| ==> chains[index].first >= first + ENTRIES_PER_SECTOR
    ensures FatImage(bytes, chains, offset)
  {
    var last := first + ENTRIES_PER_SECTOR;
    if bound < last {
      forall cluster | bound <= cluster < last ensures FatValue(chains, cluster) == 0 {
        GapIsFree(chains, index, cluster);
      }
      FillFree(bytes, chains, first, bound, last);
    }
  }

  ghost predicate Passed(chains: seq<Chain>, index: nat, bound: nat) {
    index <= |chains| && forall k :: 0 <= k < index ==> chains[k].End() <= bound
  }

  ghost predicate Beyond(chains: seq<Chain>, index: nat, last: nat) {
    index < |chains| ==> chains[index].first >= last
  }

  /** Where the entries of a run start in a sector. */
  function RunStart(chain: Chain, first: nat): nat {
    MaxNat(MaxNat(first, chain.first), 2)
  }

  lemma FillToRun(bytes: seq<byte>, chains: seq<Chain>, first: nat, index: nat, bound: nat)
    requires Ordered(chains) && Filling(bytes, chains, first, index, bound)
    requires index < |chains| && chains[index].first < first + ENTRIES_PER_SECTOR
    ensures bound <= RunStart(chains[index], first)
    ensures FilledTo(bytes, chains, first, RunStart(chains[index], first))
  {
    var start := RunStart(chains[index], first);
    forall c | bound <= c < start ensures FatValue(chains, c) == 0 {
      GapIsFree(chains, index, c);
    }
    FillFree(bytes, chains, first, bound, start);
  }

  /** Writes the entries of one run that fall into the sector. */
  method FillRun(chains: seq<Chain>, index: nat, target: array<byte>, first: nat, ghost bound: nat)
    returns (ghost next: nat)
    requires Ordered(chains) && index < |chains| && target.Length == FAT_SECTOR
    requires Filling(target[..], chains, first, index, bound)
    requires chains[index].first < first + ENTRIES_PER_SECTOR
    modifies target
    ensures Filling(target[..], chains, first, index + 1, next)
  {
    var end := MinNat(first + ENTRIES_PER_SECTOR, chains[index].End());
    var cluster := RunStart(chains[index], first);
    FillToRun(target[..], chains, first, index, bound);
    while cluster < end
      invariant RunStart(chains[index], first) <= cluster <= end
      invariant FilledTo(target[..], chains, first, cluster)
    {
      WriteEntry(chains, index, target, first, cluster);
      cluster := cluster + 1;
    }
    next := cluster;
    assert index + 1 < |chains| ==> chains[index].End() <= chains[index + 1].first;
  }

  method WriteEntry(chains: seq<Chain>, index: nat, target: array<byte>, first: nat, cluster: nat)
    requires Ordered(chains) && index < |chains| && target.Length == FAT_SECTOR
    requires Owns(chains[index], cluster) && first <= cluster < first + ENTRIES_PER_SECTOR
    requires FilledTo(target[..], chains, first, cluster)
    modifies target
    ensures FilledTo(target[..], chains, first, cluster + 1)
  {
    var value := cluster + 1;
    if cluster + 1 == chains[index].End() { value := END_OF_CHAIN; }
    OwnedEntry(chains, index, cluster);
    FillEntry(target[..], chains, first, cluster);
    PutUint32(target, (cluster - first) * 4, value);
  }
}
