/** A FAT32 driver that knows nothing but bytes: it decodes directory entries and follows table entries. */
module FatDriver {
  import opened Basics
  import opened Bytes
  import opened WiiFat

  /** The entries of a table, decoded from four bytes each. */
  function Links(table: seq<byte>): (links: seq<nat>)
    ensures |links| == |table| / 4
  {
    seq(|table| / 4, c requires 0 <= c < |table| / 4 => FromLittleEndian(table[4 * c..4 * c + 4]))
  }

  /**
   * The clusters that the links lead through, at most `limit` of them far. A link has 28 bits; from
   * 0x0ffffff8 on it ends the chain, and every other one leads on, also to a number that is no cluster.
   */
  function Chase(links: seq<nat>, cluster: nat, limit: nat): seq<nat>
    decreases limit
  {
    if limit == 0 || cluster >= |links| || links[cluster] % 0x1000_0000 >= 0x0fff_fff8 then [cluster]
    else [cluster] + Chase(links, links[cluster] % 0x1000_0000, limit - 1)
  }

  /** The first cluster that a 32-byte directory entry names. */
  function EntryCluster(e: seq<byte>): nat
    requires |e| == 32
  {
    FromLittleEndian(e[20..22]) * 0x1_0000 + FromLittleEndian(e[26..28])
  }

  function EntrySize(e: seq<byte>): nat
    requires |e| == 32
  {
    FromLittleEndian(e[28..32])
  }

  /** The links are the table entries of these runs. */
  ghost predicate LinksOf(links: seq<nat>, chains: seq<Chain>)
    requires Ordered(chains)
  {
    forall c :: 0 <= c < |links| ==> links[c] == FatValue(chains, c)
  }

  lemma LinksDecode(table: seq<byte>, chains: seq<Chain>)
    requires Ordered(chains) && IsTable(table, chains)
    ensures LinksOf(Links(table), chains)
  {
    forall c | 0 <= c < |table| / 4 ensures Links(table)[c] == FatValue(chains, c) {
      var entry := seq<byte>(4, i requires 0 <= i < 4 => FatByte(chains, 4 * c + i));
      assert table[4 * c..4 * c + 4] == entry;
      EntryDecodes(chains, c);
    }
  }

  ghost predicate Successive(clusters: seq<nat>, first: nat, count: nat) {
    |clusters| == count && forall j :: 0 <= j < count ==> clusters[j] == first + j
  }

  /** The links of one run: each cluster leads to the next, and the last one carries an end mark. */
  ghost predicate Linked(links: seq<nat>, first: nat, end: nat) {
    && end <= |links| && end <= 0x0fff_fff0
    && forall c :: first <= c < end ==> links[c] == if c + 1 == end then 0x0fff_ffff else c + 1
  }

  lemma {:induction false} ChaseLinked(links: seq<nat>, first: nat, end: nat, cluster: nat, limit: nat)
    requires Linked(links, first, end) && first <= cluster < end && end - cluster <= limit
    ensures Successive(Chase(links, cluster, limit), cluster, end - cluster)
    decreases limit
  {
    if cluster + 1 < end {
      ChaseLinked(links, first, end, cluster + 1, limit - 1);
      assert Chase(links, cluster, limit) == [cluster] + Chase(links, cluster + 1, limit - 1);
    }
  }

  /** A driver that starts at a run's first cluster visits the run, in order, and stops at its end. */
  lemma ChaseVisitsRun(links: seq<nat>, chains: seq<Chain>, i: nat, limit: nat)
    requires Ordered(chains) && LinksOf(links, chains)
    requires i < |chains| && chains[i].count <= limit && chains[i].End() <= |links|
    ensures Successive(Chase(links, chains[i].first, limit), chains[i].first, chains[i].count)
  {
    var first, end := chains[i].first, chains[i].End();
    forall c | first <= c < end ensures links[c] == if c + 1 == end then 0x0fff_ffff else c + 1 {
      OwnedEntry(chains, i, c);
    }
    ChaseLinked(links, first, end, first, limit);
  }
}
