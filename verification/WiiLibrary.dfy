/** Whole Wii libraries: the names of scanned games tell all files apart, and every file is read back by its name. */
module WiiLibrary {
  import opened Basics
  import opened Bytes
  import opened WiiGeometry
  import opened WiiFat
  import opened WiiLayout
  import opened WiiDisk
  import opened WiiRecords
  import opened WiiBuild
  import opened WiiVolume
  import opened FatBoot
  import opened FatDirectory
  import opened FatDriver
  import L = LongNames

  /** What the scanner takes for a game's id. */
  ghost predicate ScannedId(id: string) {
    |id| == 6 && forall k :: 0 <= k < 6 ==> 'A' <= id[k] <= 'Z' || '0' <= id[k] <= '9'
  }

  /** The scanner refuses a second game with the same id. */
  ghost predicate Scanned(games: seq<Game>) {
    && (forall i :: 0 <= i < |games| ==> ScannedId(games[i].id))
    && forall i, j :: 0 <= i < j < |games| ==> games[i].id != games[j].id
  }

  // ---- Numbers in names ----

  function FromDecimal(s: Name): int {
    if s == [] then 0 else FromDecimal(s[..|s| - 1]) * 10 + s[|s| - 1] as int - 0x30
  }

  lemma {:induction false} DecimalDecodes(n: nat)
    ensures FromDecimal(Decimal(n)) == n && 0x30 <= Decimal(n)[0] <= 0x39
    ensures n < 1000 ==> |Decimal(n)| <= 3
    ensures forall k :: 0 <= k < |Decimal(n)| ==> Decimal(n)[k] != 0
  {
    if n < 10 {
      assert FromDecimal([]) == 0;
    } else {
      DecimalDecodes(n / 10);
      assert Decimal(n)[..|Decimal(n)| - 1] == Decimal(n / 10);
      if n < 100 {
        assert |Decimal(n / 10)| == 1;
      } else if n < 1000 {
        assert |Decimal(n / 10 / 10)| == 1;
      }
    }
  }

  // ---- The order of segments ----

  lemma {:induction false} SegmentAt(g: Game, off: nat, k: nat)
    requires off % MAX_SEGMENT == 0 && k < |Segments(g, off)|
    ensures var f := Segments(g, off)[k];
      f.game == g && f.off == off + k * MAX_SEGMENT && f.length == Least(MAX_SEGMENT, g.size - f.off)
    decreases k
  {
    if k > 0 {
      assert SegmentLength(g.size, off) == MAX_SEGMENT;
      SegmentAt(g, off + MAX_SEGMENT, k - 1);
    }
  }

  /** The i-th file is segment `k` of game `m`: every segment but a game's last one has 4 GiB less 32 KiB. */
  ghost predicate IsSegment(games: seq<Game>, i: nat, m: nat, k: nat)
    requires i < |AllSegments(games)|
  {
    && m < |games| && i == |AllSegments(games[..m])| + k
    && AllSegments(games)[i].game == games[m] && AllSegments(games)[i].off == k * 4_294_934_528
    && AllSegments(games)[i].length == Least(4_294_934_528, games[m].size - k * 4_294_934_528)
  }

  function Least(a: int, b: int): int { if a < b then a else b }

  lemma {:induction false} SegmentIn(games: seq<Game>, i: nat) returns (m: nat, k: nat)
    requires i < |AllSegments(games)|
    ensures IsSegment(games, i, m, k)
  {
    var n := |games| - 1;
    var front := AllSegments(games[..n]);
    if i < |front| {
      m, k := SegmentIn(games[..n], i);
      assert games[..n][..m] == games[..m];
    } else {
      m, k := n, i - |front|;
      SegmentAt(games[n], 0, k);
    }
  }

  /** Two files differ in the id of their game or in the number of the segment. */
  lemma FilesDiffer(games: seq<Game>, i: nat, j: nat) returns (k: nat, n: nat)
    requires Scanned(games) && i < j < |AllSegments(games)|
    ensures var files := AllSegments(games);
      && ScannedId(files[i].game.id) && ScannedId(files[j].game.id)
      && files[i].off == k * MAX_SEGMENT && files[j].off == n * MAX_SEGMENT
      && (files[i].game.id == files[j].game.id ==> k < n)
  {
    var a, b;
    a, k := SegmentIn(games, i);
    b, n := SegmentIn(games, j);
    if a != b {
      assert games[a].id != games[b].id;
    }
  }

  // ---- Names ----

  lemma SegmentNumber(k: nat)
    ensures k * MAX_SEGMENT / MAX_SEGMENT == k && (k * MAX_SEGMENT <= 0 <==> k == 0)
  {
  }

  /** The name of a segment: the id, `.wbf`, and `s` or the number. */
  lemma NameIs(f: VirtualFile, k: nat)
    requires f.off == k * MAX_SEGMENT
    ensures NameOf(f) == Units(f.game.id) + [0x2e, 0x77, 0x62, 0x66] + if k == 0 then [0x73] else Decimal(k)
  {
    SegmentNumber(k);
  }

  lemma SameParts(a: Name, b: Name, dot: Name, x: Name, y: Name)
    requires |a| == |b| && a + dot + x == b + dot + y
    ensures a == b && x == y
  {
    assert (a + dot + x)[..|a|] == a && (b + dot + y)[..|b|] == b;
    assert (a + dot + x)[|a + dot|..] == x && (b + dot + y)[|b + dot|..] == y;
  }

  lemma SameUnits(a: string, b: string)
    requires ScannedId(a) && ScannedId(b) && Units(a) == Units(b)
    ensures a == b
  {
    forall k | 0 <= k < 6 ensures a[k] == b[k] {
      assert Units(a)[k] == Units(b)[k];
    }
  }

  lemma SameNumbers(k: nat, n: nat)
    requires (if k == 0 then [0x73] else Decimal(k)) == (if n == 0 then [0x73] else Decimal(n))
    ensures k == n
  {
    DecimalDecodes(k);
    DecimalDecodes(n);
  }

  /** No two files of a scanned library have the same name. */
  lemma NamesDiffer(games: seq<Game>, i: nat, j: nat)
    requires Scanned(games) && i < j < |AllSegments(games)|
    ensures NameOf(AllSegments(games)[i]) != NameOf(AllSegments(games)[j])
  {
    var a, b := AllSegments(games)[i], AllSegments(games)[j];
    var k, n := FilesDiffer(games, i, j);
    NameIs(a, k);
    NameIs(b, n);
    if NameOf(a) == NameOf(b) {
      SameParts(Units(a.game.id), Units(b.game.id), [0x2e, 0x77, 0x62, 0x66],
        if k == 0 then [0x73] else Decimal(k), if n == 0 then [0x73] else Decimal(n));
      SameUnits(a.game.id, b.game.id);
      SameNumbers(k, n);
      assert false;
    }
  }

  // ---- Every file can be presented ----

  /** The first segment of a game starts it, every other one starts where the file before it ends. */
  ghost predicate FollowsOn(files: seq<VirtualFile>, i: nat)
    requires i < |files|
  {
    files[i].off == 0 || (i > 0 && files[i].off == files[i - 1].off + files[i - 1].length)
  }

  lemma {:induction false} SegmentsFollow(g: Game, off: nat, k: nat)
    requires k < |Segments(g, off)|
    ensures k == 0 ==> Segments(g, off)[k].off == off
    ensures k > 0 ==> Segments(g, off)[k].off == Segments(g, off)[k - 1].off + Segments(g, off)[k - 1].length
    decreases k
  {
    if k > 0 {
      SegmentsFollow(g, off + SegmentLength(g.size, off), k - 1);
      if k > 1 {
        SegmentsFollow(g, off + SegmentLength(g.size, off), k - 2);
      }
    }
  }

  lemma {:induction false} AllFollow(games: seq<Game>, i: nat)
    requires i < |AllSegments(games)|
    ensures FollowsOn(AllSegments(games), i)
  {
    var n := |games| - 1;
    var front := AllSegments(games[..n]);
    if i < |front| {
      AllFollow(games[..n], i);
    } else {
      SegmentsFollow(games[n], 0, i - |front|);
    }
  }

  /** A file's offset is within what the clusters before it hold. */
  lemma {:induction false} OffsetCovered(games: seq<Game>, clusterSize: int, i: nat)
    requires clusterSize > 0 && i < |AllSegments(games)|
    ensures AllSegments(games)[i].off <= ClustersOf(AllSegments(games)[..i], clusterSize) * clusterSize
  {
    var files := AllSegments(games);
    AllFollow(games, i);
    NotNegative(ClustersOf(files[..i], clusterSize), clusterSize);
    if files[i].off != 0 {
      OffsetCovered(games, clusterSize, i - 1);
      ClustersStep(files, clusterSize, i - 1);
      Distributes(ClustersOf(files[..i - 1], clusterSize), ClustersForBytes(files[i - 1].length, clusterSize),
        clusterSize);
    }
  }

  lemma Distributes(a: int, b: int, c: int)
    ensures (a + b) * c == a * c + b * c
  {
  }

  /** On a disk of at most 2^32 sectors no segment has a number of four digits. */
  lemma NumberFits(games: seq<Game>, g: Geometry, i: nat, k: nat)
    requires Regular(g, AllSegments(games)) && Sized(g, AllSegments(games))
    requires i < |AllSegments(games)| && AllSegments(games)[i].off == k * MAX_SEGMENT
    ensures k < 1000
  {
    var files := AllSegments(games);
    OffsetCovered(games, g.clusterSize, i);
    ClustersGrow(files, g.clusterSize, i);
    Scaled(ClustersOf(files[..i], g.clusterSize), g.totalClusters, g.clusterSize);
  }

  lemma NameFits(f: VirtualFile, k: nat)
    requires ScannedId(f.game.id) && f.off == k * MAX_SEGMENT && k < 1000
    ensures 1 <= |NameOf(f)| <= 13 && forall i :: 0 <= i < |NameOf(f)| ==> NameOf(f)[i] != 0
  {
    NameIs(f, k);
    DecimalDecodes(k);
    var units := Units(f.game.id);
    forall i | 0 <= i < 6 ensures units[i] != 0 {
      assert f.game.id[i] as int < 0x100;
    }
  }

  lemma {:induction false} HexDigits(n: nat, d: nat)
    ensures forall i :: 0 <= i < d ==> 0x30 <= Hex(n, d)[i] <= 0x46
  {
    if d > 0 {
      HexDigits(n / 16, d - 1);
    }
  }

  lemma AliasFits(f: VirtualFile, hash: Name -> nat)
    requires ScannedId(f.game.id)
    ensures var s := AliasOf(f, hash);
      (forall k :: 0 <= k < 11 ==> !(0x61 <= s[k] <= 0x7a)) && s[0] != 0 && s[0] != 0xe5
  {
    var digits := Hex(hash(NameOf(f)), 6);
    HexDigits(hash(NameOf(f)), 6);
    var a, b := CharByte(f.game.id[0]), CharByte(f.game.id[1]);
    assert 0x30 <= a <= 0x5a && 0x30 <= b <= 0x5a;
    CapitalName(f.game.id, digits, a, b);
  }

  lemma CapitalName(id: string, digits: seq<byte>, a: byte, b: byte)
    requires |id| >= 2 && |digits| == 6 && a == CharByte(id[0]) && b == CharByte(id[1])
    requires 0x30 <= a <= 0x5a && 0x30 <= b <= 0x5a && forall i :: 0 <= i < 6 ==> 0x30 <= digits[i] <= 0x46
    ensures var s := ShortNameOf(id, digits); forall k :: 0 <= k < 11 ==> 0x30 <= s[k] <= 0x5a
  {
    assert ShortNameOf(id, digits) == [a, b] + digits + [0x57, 0x42, 0x46];
  }

  /** In a scanned library every file can be presented, and none hides another. */
  lemma ScannedPresentable(games: seq<Game>, g: Geometry, hash: Name -> nat)
    requires Scanned(games) && Regular(g, AllSegments(games)) && Sized(g, AllSegments(games))
    requires forall i :: 0 <= i < |AllSegments(games)| ==> GoodFile(AllSegments(games)[i])
    ensures var listed := ListedFiles(g, AllSegments(games), hash);
      AllPresentable(listed) && forall i :: 0 <= i < |listed| ==> FirstOfName(listed, i)
  {
    var files := AllSegments(games);
    var listed := ListedFiles(g, files, hash);
    forall i | 0 <= i < |listed| ensures Presentable(listed[i]) && FirstOfName(listed, i) {
      FilePresentable(games, g, hash, i);
      forall k | 0 <= k < i ensures listed[k].name != listed[i].name {
        NamesDiffer(games, k, i);
      }
    }
  }

  lemma FilePresentable(games: seq<Game>, g: Geometry, hash: Name -> nat, i: nat)
    requires Scanned(games) && Regular(g, AllSegments(games)) && Sized(g, AllSegments(games))
    requires i < |AllSegments(games)| && GoodFile(AllSegments(games)[i])
    ensures Presentable(ListedFiles(g, AllSegments(games), hash)[i])
  {
    var files := AllSegments(games);
    var m, k := SegmentIn(games, i);
    assert ScannedId(games[m].id);
    NumberFits(games, g, i, k);
    NameFits(files[i], k);
    AliasFits(files[i], hash);
    ClustersGrow(files, g.clusterSize, i);
  }

  /**
   * Every file of every scanned library whose sources are whole is read back from its disk by name:
   * the driver starts at the first sector and needs nothing but the disk's bytes.
   */
  lemma LibraryReadable(games: seq<Game>, d: Disk, g: Geometry, r: Records, hash: Name -> nat, signature: nat,
                        store: Store, copy: nat, i: nat, limit: nat, j: nat, b: nat)
    returns (v: Volume, found: Found, cluster: nat, pos: nat)
    requires Scanned(games) && AllContiguous(games) && i < |AllSegments(games)| && copy <= 1
    requires DiskFor(d, g, AllSegments(games), r) && Rendered(r, g, ListedFiles(g, AllSegments(games), hash), signature)
    requires AllOnline(store, AllSegments(games)[i].game.sources) && g.wbfsDirClusters <= limit
    requires j < ClustersForBytes(AllSegments(games)[i].length, g.clusterSize) <= limit && b < g.clusterSize
    ensures DiskVolume(d, store) == Some(v)
    ensures var links := LinksAt(d, store, v, copy);
      var visited := Chase(links, found.cluster, limit);
      && Lookup(d, store, v, links, NameOf(AllSegments(games)[i]), limit) == Some(found)
      && found.attribute == 0x20 && found.size == AllSegments(games)[i].length
      && j < |visited| && visited[j] == cluster
    ensures pos == v.ClusterByte(cluster) + b
    ensures ImageByte(d, store, pos) ==
      FileByte(AllSegments(games)[i], store, j * g.clusterSize + b)
  {
    SegmentsAreGood(games);
    ScannedPresentable(games, g, hash);
    v, found, cluster, pos := DiskToBytes(d, g, AllSegments(games), r, hash, signature, store, copy, i, limit, j, b);
  }
}
