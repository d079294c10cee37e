/** Directories as a driver reads them: slots, long names with their checksums, and the entry under a name. */
module FatDirectory {
  import opened Basics
  import opened Bytes
  import opened FatDriver
  import L = LongNames

  type Name = seq<L.unit>

  // ---- What a driver makes of a directory's bytes ----

  /** Where an entry leads, under its short name, and under a long one if its long entries belong to it. */
  datatype Found = Found(name: Option<Name>, short: seq<byte>, cluster: nat, size: nat, attribute: byte) {
    predicate IsDirectory() { attribute / 0x10 % 2 == 1 }
  }

  /** The slots of a directory. */
  function Chunks(data: seq<byte>): (entries: seq<L.entry>)
    ensures |entries| == |data| / L.ENTRY_SIZE
  {
    seq<L.entry>(|data| / L.ENTRY_SIZE, i requires 0 <= i < |data| / L.ENTRY_SIZE =>
      data[L.ENTRY_SIZE * i..L.ENTRY_SIZE * i + L.ENTRY_SIZE])
  }

  predicate IsLong(e: L.entry) { e[11] == 0x0f }

  /** The checksum of a short name's first `n` bytes: the sum is turned right by one bit before each byte is added. */
  function ShortSum(short: seq<byte>, n: nat): byte
    requires n <= |short|
  {
    if n == 0 then 0
    else
      var sum := ShortSum(short, n - 1);
      var turned := if sum % 2 == 1 then 128 + sum / 2 else sum / 2;
      (turned + short[n - 1]) % 256
  }

  /** The builder's checksum of a short name is the driver's. */
  lemma {:induction false} SumsAgree(short: seq<byte>, n: nat)
    requires n <= |short|
    ensures L.Checksum(short[n..], ShortSum(short, n)) == ShortSum(short, |short|)
    decreases |short| - n
  {
    if n < |short| {
      SumsAgree(short, n + 1);
      assert short[n..][1..] == short[n + 1..] && short[n..][0] == short[n];
    }
  }

  lemma ChecksumIs(short: seq<byte>)
    ensures L.Checksum(short, 0) == ShortSum(short, |short|)
  {
    SumsAgree(short, 0);
    assert short[0..] == short;
  }

  lemma SumAfter(short: seq<byte>, n: nat, sum: byte, next: byte)
    requires n < |short| && ShortSum(short, n) == sum
    requires next as int == (sum as int % 2 * 128 + sum as int / 2 + short[n] as int) % 256
    ensures ShortSum(short, n + 1) == next
  {
  }

  /** The checksum of the short name of `game.iso`. */
  lemma ChecksumOfGameIso(short: seq<byte>)
    requires short == [0x47, 0x41, 0x4d, 0x45, 0x20, 0x20, 0x20, 0x20, 0x49, 0x53, 0x4f]
    ensures L.Checksum(short, 0) == 0x1a
  {
    SumOfGameIso(short);
    ChecksumIs(short);
  }

  lemma SumOfGameIso(short: seq<byte>)
    requires short == [0x47, 0x41, 0x4d, 0x45, 0x20, 0x20, 0x20, 0x20, 0x49, 0x53, 0x4f]
    ensures ShortSum(short, 11) == 0x1a
  {
    SumAfter(short, 0, 0, 0x47);
    SumAfter(short, 1, 0x47, 0xe4);
    SumAfter(short, 2, 0xe4, 0xbf);
    SumAfter(short, 3, 0xbf, 0x24);
    SumAfter(short, 4, 0x24, 0x32);
    SumAfter(short, 5, 0x32, 0x39);
    SumAfter(short, 6, 0x39, 0xbc);
    SumAfter(short, 7, 0xbc, 0x7e);
    SumAfter(short, 8, 0x7e, 0x88);
    SumAfter(short, 9, 0x88, 0x97);
    SumAfter(short, 10, 0x97, 0x1a);
  }

  /** The long entries count down to one, the first is marked, and all carry the short name's checksum. */
  predicate Belong(long: seq<L.entry>, short: L.entry) {
    && long != [] && long[0][0] >= 0x40
    && forall i :: 0 <= i < |long| ==>
      long[i][0] % 0x40 == |long| - i && long[i][13] == ShortSum(short, 11)
  }

  function FoundIn(long: seq<L.entry>, short: L.entry): Found {
    Found(if Belong(long, short) then Some(L.DecodeName(long)) else None, short[..11],
      EntryCluster(short), EntrySize(short), short[11])
  }

  /** What a driver finds from here on: long entries wait for their short one, a zero ends the directory. */
  function Scan(entries: seq<L.entry>, long: seq<L.entry>): seq<Found>
    decreases |entries|
  {
    if entries == [] || entries[0][0] == 0 then []
    else if entries[0][0] == 0xe5 then Scan(entries[1..], [])
    else if IsLong(entries[0]) then Scan(entries[1..], long + [entries[0]])
    else if entries[0][11] / 8 % 2 == 1 then Scan(entries[1..], [])
    else [FoundIn(long, entries[0])] + Scan(entries[1..], [])
  }

  /** A name the format allows, and a short name that neither ends the directory nor marks a deleted entry. */
  ghost predicate Nameable(name: Name, short: seq<byte>) {
    && 1 <= |name| <= 255 && (forall k :: 0 <= k < |name| ==> name[k] != 0)
    && |short| == 11 && short[0] != 0 && short[0] != 0xe5
  }

  ghost predicate Stored(c: L.Child) {
    Nameable(c.name, c.short) && c.first < 0x1_0000_0000 && c.size < 0x1_0000_0000
  }

  function ChildFound(c: L.Child): Found {
    if c.directory then Found(Some(c.name), c.short, c.first, 0, 0x10)
    else Found(Some(c.name), c.short, c.first, c.size, 0x20)
  }

  lemma {:induction false} LongWaits(long: seq<L.entry>, rest: seq<L.entry>, before: seq<L.entry>)
    requires forall i :: 0 <= i < |long| ==> long[i][0] != 0 && long[i][0] != 0xe5 && IsLong(long[i])
    ensures Scan(long + rest, before) == Scan(rest, before + long)
    decreases |long|
  {
    if long == [] {
      assert long + rest == rest && before + long == before;
    } else {
      LongWaits(long[1..], rest, before + [long[0]]);
      assert (long + rest)[1..] == long[1..] + rest;
      assert before + [long[0]] + long[1..] == before + long;
    }
  }

  /** What the builder stores in the fixed bytes of a long entry. */
  lemma LongEntryBytes(name: Name, d: nat, checksum: byte)
    requires 1 <= |name| <= 255 && 1 <= d <= L.Slots(name)
    ensures var e := L.LfnEntry(name, d, checksum);
      && e[0] % 0x40 == d <= 20 && (e[0] >= 0x40 <==> d == L.Slots(name)) && e[0] != 0xe5
      && IsLong(e) && e[13] == checksum
  {
    L.SequenceNumbers(name, d, checksum);
  }

  lemma {:induction false} SumOfPrefix(short: seq<byte>, n: nat)
    requires n <= |short|
    ensures ShortSum(short[..n], n) == ShortSum(short, n)
    decreases n
  {
    if n > 0 {
      SumOfPrefix(short, n - 1);
      SumOfPrefix(short[..n], n - 1);
      assert short[..n][..n - 1] == short[..n - 1];
    }
  }

  lemma SumOfShort(name: seq<byte>, short: L.entry)
    requires |name| == 11 && short[..11] == name
    ensures L.Checksum(name, 0) == ShortSum(short, 11)
  {
    ChecksumIs(name);
    SumOfPrefix(short, 11);
  }

  lemma LongEntriesOf(name: Name, checksum: byte)
    requires 1 <= |name| <= 255
    ensures var long := L.LfnEntries(name, L.Slots(name), checksum);
      && long != [] && long[0][0] >= 0x40
      && (forall i :: 0 <= i < |long| ==> long[i][0] % 0x40 == |long| - i && long[i][13] == checksum)
      && forall i :: 0 <= i < |long| ==> long[i][0] != 0 && long[i][0] != 0xe5 && IsLong(long[i])
  {
    var long := L.LfnEntries(name, L.Slots(name), checksum);
    forall i | 0 <= i < |long|
      ensures long[i][0] % 0x40 == |long| - i && long[i][13] == checksum && (i == 0 ==> long[i][0] >= 0x40)
      ensures long[i][0] != 0 && long[i][0] != 0xe5 && IsLong(long[i])
    {
      LongEntryBytes(name, |long| - i, checksum);
    }
  }

  lemma LongEntriesBelong(c: L.Child, short: L.entry)
    requires Nameable(c.name, c.short) && short[..11] == c.short
    ensures var long := L.LfnEntries(c.name, L.Slots(c.name), L.Checksum(c.short, 0));
      && Belong(long, short) && L.DecodeName(long) == c.name
      && forall i :: 0 <= i < |long| ==> long[i][0] != 0 && long[i][0] != 0xe5 && IsLong(long[i])
  {
    var checksum := L.Checksum(c.short, 0);
    LongEntriesOf(c.name, checksum);
    SumOfShort(c.short, short);
    L.LongNameRoundTrip(c.name, checksum);
  }

  lemma ShortFound(c: L.Child, long: seq<L.entry>)
    requires Stored(c) && Belong(long, L.ShortOf(c)) && L.DecodeName(long) == c.name
    ensures FoundIn(long, L.ShortOf(c)) == ChildFound(c)
    ensures var e := L.ShortOf(c); e[0] == c.short[0] && !IsLong(e) && e[11] / 8 % 2 == 0
  {
    var size := if c.directory then 0 else c.size;
    L.ShortEntryDecodes(c.short, c.first, size, if c.directory then 0x10 else 0x20);
    assert L.ShortOf(c)[..11] == c.short;
  }

  /** A short entry ends the long entries that wait for it. */
  lemma ScanShort(e: L.entry, rest: seq<L.entry>, long: seq<L.entry>)
    requires e[0] != 0 && e[0] != 0xe5 && !IsLong(e) && e[11] / 8 % 2 == 0
    ensures Scan([e] + rest, long) == [FoundIn(long, e)] + Scan(rest, [])
  {
    assert ([e] + rest)[1..] == rest;
  }

  /** The entries of a child are found as that child, whatever follows. */
  lemma ScanChild(c: L.Child, rest: seq<L.entry>)
    requires Stored(c)
    ensures Scan(L.ChildEntries(c) + rest, []) == [ChildFound(c)] + Scan(rest, [])
  {
    var long := L.LfnEntries(c.name, L.Slots(c.name), L.Checksum(c.short, 0));
    var short := L.ShortOf(c);
    ShortBegins(c);
    LongEntriesBelong(c, short);
    ShortFound(c, long);
    ConcatAssociates(long, [short], rest);
    LongWaits(long, [short] + rest, []);
    assert [] + long == long;
    ScanShort(short, rest, long);
  }

  lemma ShortBegins(c: L.Child)
    requires |c.short| == 11
    ensures L.ShortOf(c)[..11] == c.short
  {
  }

  /** What stands in front of the children: a volume name that no driver lists, or the two dot entries. */
  function Dots(d: L.Directory): seq<Found> {
    if d.root then []
    else
      [Found(None, [0x2e, 0x20, 0x20, 0x20, 0x20, 0x20, 0x20, 0x20, 0x20, 0x20, 0x20], d.first, 0, 0x10),
       Found(None, [0x2e, 0x2e, 0x20, 0x20, 0x20, 0x20, 0x20, 0x20, 0x20, 0x20, 0x20], d.parent, 0, 0x10)]
  }

  function AllFound(d: L.Directory, n: nat): (found: seq<Found>)
    requires n <= |d.children|
    ensures |found| == n && forall k :: 0 <= k < n ==> found[k] == ChildFound(d.children[k])
  {
    seq(n, k requires 0 <= k < n => ChildFound(d.children[k]))
  }

  ghost predicate StoredDirectory(d: L.Directory) {
    && |d.volume| == 11 && d.volume[0] != 0 && d.volume[0] != 0xe5
    && d.first < 0x1_0000_0000 && d.parent < 0x1_0000_0000
    && forall k :: 0 <= k < |d.children| ==> Stored(d.children[k])
  }

  lemma DotFound(name: seq<byte>, cluster: nat)
    requires |name| == 11 && cluster < 0x1_0000_0000
    ensures var e := L.ShortEntry(name, cluster, 0, 0x10);
      FoundIn([], e) == Found(None, name, cluster, 0, 0x10) && e[0] == name[0] && e[11] == 0x10
  {
    L.ShortEntryDecodes(name, cluster, 0, 0x10);
  }

  lemma ScanHead(d: L.Directory, rest: seq<L.entry>)
    requires StoredDirectory(d)
    ensures Scan(L.HeadEntries(d) + rest, []) == Dots(d) + Scan(rest, [])
  {
    var head := L.HeadEntries(d);
    if d.root {
      VolumeSkipped(d.volume, rest);
    } else {
      DotFound(L.DOT, d.first);
      DotFound(L.DOT_DOT, d.parent);
      ConcatAssociates([head[0]], [head[1]], rest);
      ScanShort(head[0], [head[1]] + rest, []);
      ScanShort(head[1], rest, []);
    }
  }

  lemma VolumeSkipped(volume: seq<byte>, rest: seq<L.entry>)
    requires |volume| == 11 && volume[0] != 0 && volume[0] != 0xe5
    ensures Scan([L.ShortEntry(volume, 0, 0, 0x08)] + rest, []) == Scan(rest, [])
  {
    var e := L.ShortEntry(volume, 0, 0, 0x08);
    assert ([e] + rest)[1..] == rest;
  }

  lemma OneMoreFound(d: L.Directory, n: nat)
    requires 0 < n <= |d.children|
    ensures AllFound(d, n) == AllFound(d, n - 1) + [ChildFound(d.children[n - 1])]
  {
  }

  lemma Regrouped<T>(a: seq<T>, b: seq<T>, c: seq<T>, d: seq<T>)
    ensures a + b + (c + d) == a + (b + c) + d
  {
  }

  lemma {:induction false} ScanEntries(d: L.Directory, n: nat, rest: seq<L.entry>)
    requires L.ShortNamesFit(d) && StoredDirectory(d) && n <= |d.children|
    ensures Scan(L.Entries(d, n) + rest, []) == Dots(d) + AllFound(d, n) + Scan(rest, [])
    decreases n
  {
    if n == 0 {
      ScanHead(d, rest);
      assert Dots(d) + AllFound(d, 0) == Dots(d);
    } else {
      var c := d.children[n - 1];
      ConcatAssociates(L.Entries(d, n - 1), L.ChildEntries(c), rest);
      ScanEntries(d, n - 1, L.ChildEntries(c) + rest);
      ScanChild(c, rest);
      OneMoreFound(d, n);
      Regrouped(Dots(d), AllFound(d, n - 1), [ChildFound(c)], Scan(rest, []));
    }
  }

  lemma SlotInBytes(data: seq<byte>, entries: seq<L.entry>, i: nat)
    requires i < |entries| && L.ENTRY_SIZE * |entries| <= |data|
    requires data[..L.ENTRY_SIZE * |entries|] == L.Flatten(entries)
    ensures Chunks(data)[i] == entries[i]
  {
    L.FlattenedAt(entries, i);
    var flat := L.Flatten(entries);
    assert data[L.ENTRY_SIZE * i..L.ENTRY_SIZE * i + L.ENTRY_SIZE]
      == flat[L.ENTRY_SIZE * i..L.ENTRY_SIZE * i + L.ENTRY_SIZE];
  }

  /** The slots of written entries are these entries, and the first one behind them, if any, is zero. */
  lemma SlotsOf(data: seq<byte>, entries: seq<L.entry>) returns (rest: seq<L.entry>)
    requires L.Holds(data, entries)
    ensures Chunks(data) == entries + rest
    ensures rest == [] || rest[0][0] == 0
  {
    var flat, slots := L.Flatten(entries), Chunks(data);
    rest := slots[|entries|..];
    assert data[..|flat|] == flat;
    forall i | 0 <= i < |entries| ensures slots[i] == entries[i] {
      SlotInBytes(data, entries, i);
    }
    if rest != [] {
      assert rest[0] == slots[|entries|];
      assert rest[0][0] == data[L.ENTRY_SIZE * |entries|];
    }
  }

  /** Scanning a directory's bytes finds exactly its children, in order, behind the dot entries. */
  lemma DirectoryScans(d: L.Directory)
    requires L.ShortNamesFit(d) && StoredDirectory(d)
    ensures Scan(Chunks(L.DirectoryBytes(d)), []) == Dots(d) + AllFound(d, |d.children|)
  {
    L.EntriesCounted(d, |d.children|);
    var rest := SlotsOf(L.DirectoryBytes(d), L.Entries(d, |d.children|));
    ScanEntries(d, |d.children|, rest);
    assert Scan(rest, []) == [];
    assert Dots(d) + AllFound(d, |d.children|) + [] == Dots(d) + AllFound(d, |d.children|);
  }

  // ---- Finding a name ----

  /** The first place of a name, or the end. */
  function FirstPlace(names: seq<Option<Name>>, name: Name): (i: nat)
    ensures i <= |names| && (i < |names| ==> names[i] == Some(name))
    ensures forall k :: 0 <= k < i ==> names[k] != Some(name)
  {
    if names == [] || names[0] == Some(name) then 0 else 1 + FirstPlace(names[1..], name)
  }

  /** There is only one first place. */
  lemma FirstPlaceIs(names: seq<Option<Name>>, name: Name, i: nat)
    requires i <= |names| && (i < |names| ==> names[i] == Some(name))
    requires forall k :: 0 <= k < i ==> names[k] != Some(name)
    ensures FirstPlace(names, name) == i
  {
    var j := FirstPlace(names, name);
    assert i < |names| ==> j <= i;
    assert j < |names| ==> i <= j;
  }

  function NamesFound(found: seq<Found>): (names: seq<Option<Name>>)
    ensures |names| == |found|
  {
    seq(|found|, k requires 0 <= k < |found| => found[k].name)
  }

  function Pick(found: seq<Found>, name: Name): Option<Found> {
    var i := FirstPlace(NamesFound(found), name);
    if i < |found| then Some(found[i]) else None
  }

  /** The first entry under an 8.3 name. */
  function PickShort(found: seq<Found>, short: seq<byte>): Option<Found> {
    if found == [] then None
    else if found[0].short == short then Some(found[0])
    else PickShort(found[1..], short)
  }
}
