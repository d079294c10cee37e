/** The two directories of the Wii disk: file names, their short forms, and the entries as they are stored. */
module WiiRecords {
  import opened Basics
  import opened Bytes
  import opened WiiGeometry
  import opened WiiLayout
  import opened FatDriver
  import opened FatDirectory
  import L = LongNames

  /** An 8.3 name, padded with blanks. */
  type shortName = s: seq<byte> | |s| == 11 witness seq<byte>(11, _ => 0x20)

  const VOLUME_NAME: shortName := [0x57, 0x49, 0x49, 0x42, 0x52, 0x49, 0x44, 0x47, 0x45, 0x20, 0x20]
  const WBFS: shortName := [0x57, 0x42, 0x46, 0x53, 0x20, 0x20, 0x20, 0x20, 0x20, 0x20, 0x20]

  // ---- Names ----

  function Decimal(n: nat): (s: Name)
    ensures s != []
  {
    if n < 10 then [0x30 + n] else Decimal(n / 10) + [0x30 + n % 10]
  }

  function Units(s: string): (units: Name)
    ensures |units| == |s|
  {
    seq(|s|, i requires 0 <= i < |s| => s[i] as int % 0x1_0000)
  }

  /** The first segment of a game ends in `.wbfs`, segment n in `.wbf` and n. */
  function NameOf(f: VirtualFile): Name {
    Units(f.game.id) + [0x2e, 0x77, 0x62, 0x66] + if f.off <= 0 then [0x73] else Decimal(f.off / MAX_SEGMENT)
  }

  function HexDigit(n: nat): byte
    requires n < 16
  {
    if n < 10 then 0x30 + n else 0x37 + n
  }

  /** The last `d` hexadecimal digits, in capitals. */
  function Hex(n: nat, d: nat): (s: seq<byte>)
    ensures |s| == d
  {
    if d == 0 then [] else Hex(n / 16, d - 1) + [HexDigit(n % 16)]
  }

  /** The short name: two characters of the id, six digits and `WBF`; blanks fill the first eight. */
  function ShortNameOf(id: string, digits: seq<byte>): shortName
    requires |digits| == 6
  {
    if |id| >= 2 then [CharByte(id[0]), CharByte(id[1])] + digits + [0x57, 0x42, 0x46]
    else if |id| == 1 then [CharByte(id[0])] + digits + [0x20, 0x57, 0x42, 0x46]
    else digits + [0x20, 0x20, 0x57, 0x42, 0x46]
  }

  /** A file's short name carries digits of a hash of its long one. */
  function AliasOf(f: VirtualFile, hash: Name -> nat): shortName {
    ShortNameOf(f.game.id, Hex(hash(NameOf(f)), 6))
  }

  function CharByte(c: char): byte { c as int % 0x100 }

  /** One entry holds no more than thirteen units. */
  function Clipped(name: Name): (n: Name)
    ensures |n| <= 13
  {
    if |name| > 13 then name[..13] else name
  }

  function UpperByte(b: byte): byte { if 0x61 <= b <= 0x7a then b - 0x20 else b }

  function Upper(s: shortName): shortName {
    seq<byte>(11, i requires 0 <= i < 11 => UpperByte(s[i]))
  }

  // ---- Entries ----

  /** What differs between the entries of files. */
  datatype Listed = Listed(name: Name, short: shortName, first: nat, size: nat)

  /** A file's long entry, with the checksum of its short name, and the short one, in capitals. */
  function FileEntries(f: Listed): seq<L.entry> {
    [L.LfnEntry(Clipped(f.name), 1, L.Checksum(f.short, 0)), L.ShortEntry(Upper(f.short), f.first, f.size, 0x20)]
  }

  /** The entries of the WBFS directory, whose first cluster is 3. */
  function DirectoryEntries(files: seq<Listed>, n: nat): (es: seq<L.entry>)
    requires n <= |files|
    ensures |es| == 2 + 2 * n
  {
    if n == 0 then [L.ShortEntry(L.DOT, 3, 0, 0x10), L.ShortEntry(L.DOT_DOT, 0, 0, 0x10)]
    else DirectoryEntries(files, n - 1) + FileEntries(files[n - 1])
  }

  function RootEntries(): seq<L.entry> {
    [L.ShortEntry(VOLUME_NAME, 0, 0, 0x08), L.ShortEntry(WBFS, 3, 0, 0x10)]
  }

  /** Writes the entries of one file after another. */
  method MakeDirectory(files: seq<Listed>) returns (bytes: seq<byte>)
    ensures bytes == L.Flatten(DirectoryEntries(files, |files|))
  {
    bytes := L.ShortEntry(L.DOT, 3, 0, 0x10) + L.ShortEntry(L.DOT_DOT, 0, 0, 0x10);
    DirectoryBegun(files);
    for n := 0 to |files|
      invariant bytes == L.Flatten(DirectoryEntries(files, n))
    {
      var f := files[n];
      var long := L.MakeEntry(Clipped(f.name), 1, L.Checksum(f.short, 0));
      DirectoryGrows(files, n);
      bytes := bytes + long + L.ShortEntry(Upper(f.short), f.first, f.size, 0x20);
    }
  }

  lemma DirectoryBegun(files: seq<Listed>)
    ensures L.Flatten(DirectoryEntries(files, 0))
      == L.ShortEntry(L.DOT, 3, 0, 0x10) + L.ShortEntry(L.DOT_DOT, 0, 0, 0x10)
  {
    TwoEntries(L.ShortEntry(L.DOT, 3, 0, 0x10), L.ShortEntry(L.DOT_DOT, 0, 0, 0x10));
  }

  lemma TwoEntries(a: L.entry, b: L.entry)
    ensures L.Flatten([a, b]) == a + b
  {
    FlattenTwo([], a, b);
    assert [] + [a, b] == [a, b];
  }

  lemma DirectoryGrows(files: seq<Listed>, n: nat)
    requires n < |files|
    ensures var f := files[n];
      L.Flatten(DirectoryEntries(files, n + 1)) == L.Flatten(DirectoryEntries(files, n))
        + L.LfnEntry(Clipped(f.name), 1, L.Checksum(f.short, 0)) + L.ShortEntry(Upper(f.short), f.first, f.size, 0x20)
  {
    var f := files[n];
    FlattenTwo(DirectoryEntries(files, n), L.LfnEntry(Clipped(f.name), 1, L.Checksum(f.short, 0)),
      L.ShortEntry(Upper(f.short), f.first, f.size, 0x20));
  }

  lemma FlattenTwo(es: seq<L.entry>, a: L.entry, b: L.entry)
    ensures L.Flatten(es + [a, b]) == L.Flatten(es) + a + b
  {
    assert (es + [a, b])[..|es| + 1] == es + [a] && (es + [a])[..|es|] == es;
  }

  // ---- What a driver finds ----

  /** The name fits one entry, and the short name has no small letter and begins like a name. */
  ghost predicate Presentable(f: Listed) {
    && 1 <= |f.name| <= 13 && (forall k :: 0 <= k < |f.name| ==> f.name[k] != 0)
    && (forall k :: 0 <= k < 11 ==> !(0x61 <= f.short[k] <= 0x7a)) && f.short[0] != 0 && f.short[0] != 0xe5
    && f.first < 0x1_0000_0000 && f.size < 0x1_0000_0000
  }

  function ListedFound(f: Listed): Found { Found(Some(f.name), f.short, f.first, f.size, 0x20) }

  function AsChild(f: Listed): L.Child { L.Child(f.name, f.short, f.first, f.size, false) }

  /** Such a file is stored like any other child. */
  lemma StoredAsChild(f: Listed)
    requires Presentable(f)
    ensures FileEntries(f) == L.ChildEntries(AsChild(f)) && Stored(AsChild(f))
  {
    assert Upper(f.short) == f.short;
    var checksum := L.Checksum(f.short, 0);
    assert L.Slots(f.name) == 1 && Clipped(f.name) == f.name;
    assert L.LfnEntries(f.name, 1, checksum) == [L.LfnEntry(f.name, 1, checksum)];
  }

  ghost predicate AllPresentable(files: seq<Listed>) {
    forall i :: 0 <= i < |files| ==> Presentable(files[i])
  }

  function FilesFound(files: seq<Listed>): (found: seq<Found>)
    ensures |found| == |files| && forall k :: 0 <= k < |found| ==> found[k] == ListedFound(files[k])
  {
    seq(|files|, k requires 0 <= k < |files| => ListedFound(files[k]))
  }

  /** The WBFS directory as the general form of a directory. */
  function AsDirectory(files: seq<Listed>): L.Directory {
    L.Directory(false, VOLUME_NAME, 3, 0, seq(|files|, k requires 0 <= k < |files| => AsChild(files[k])))
  }

  lemma {:induction false} SameEntries(files: seq<Listed>, n: nat)
    requires AllPresentable(files) && n <= |files|
    ensures L.ShortNamesFit(AsDirectory(files)) && DirectoryEntries(files, n) == L.Entries(AsDirectory(files), n)
  {
    if n > 0 {
      SameEntries(files, n - 1);
      StoredAsChild(files[n - 1]);
    }
  }

  /** `.` leads to cluster 3, and `..` to the root. */
  function TwoDots(): seq<Found> {
    [Found(None, [0x2e, 0x20, 0x20, 0x20, 0x20, 0x20, 0x20, 0x20, 0x20, 0x20, 0x20], 3, 0, 0x10),
     Found(None, [0x2e, 0x2e, 0x20, 0x20, 0x20, 0x20, 0x20, 0x20, 0x20, 0x20, 0x20], 0, 0, 0x10)]
  }

  /** Scanning the directory finds every file, under its own name, in order, behind the dot entries. */
  lemma FilesScan(files: seq<Listed>, rest: seq<L.entry>)
    requires AllPresentable(files) && (rest == [] || rest[0][0] == 0)
    ensures Scan(DirectoryEntries(files, |files|) + rest, []) == TwoDots() + FilesFound(files)
  {
    var d := AsDirectory(files);
    SameEntries(files, |files|);
    forall k | 0 <= k < |files| ensures Stored(d.children[k]) {
      StoredAsChild(files[k]);
    }
    ScanEntries(d, |files|, rest);
    assert Scan(rest, []) == [];
    assert AllFound(d, |files|) == FilesFound(files);
    assert Dots(d) + FilesFound(files) + [] == Dots(d) + FilesFound(files);
  }

  /** The root lists the WBFS directory only, at cluster 3. */
  lemma RootScan(rest: seq<L.entry>)
    requires rest == [] || rest[0][0] == 0
    ensures Scan(RootEntries() + rest, []) ==
      [Found(None, [0x57, 0x42, 0x46, 0x53, 0x20, 0x20, 0x20, 0x20, 0x20, 0x20, 0x20], 3, 0, 0x10)]
  {
    var wbfs := L.ShortEntry(WBFS, 3, 0, 0x10);
    ConcatAssociates([L.ShortEntry(VOLUME_NAME, 0, 0, 0x08)], [wbfs], rest);
    assert RootEntries() == [L.ShortEntry(VOLUME_NAME, 0, 0, 0x08)] + [wbfs];
    VolumeSkipped(VOLUME_NAME, [wbfs] + rest);
    DotFound(WBFS, 3);
    ScanShort(wbfs, rest, []);
    assert Scan(rest, []) == [];
  }

  // ---- Small letters ----

  /** The checksum is taken before the short name is put in capitals: a driver accepts the long name if both agree. */
  lemma LongNameAccepted(f: Listed)
    requires 1 <= |f.name| <= 13
    ensures Belong([FileEntries(f)[0]], FileEntries(f)[1]) <==>
      L.Checksum(f.short, 0) == L.Checksum(Upper(f.short), 0)
  {
    var long, short := FileEntries(f)[0], FileEntries(f)[1];
    assert L.Slots(f.name) == 1 && Clipped(f.name) == f.name;
    LongEntryBytes(f.name, 1, L.Checksum(f.short, 0));
    assert short[..11] == Upper(f.short);
    SumOfShort(Upper(f.short), short);
  }

  /** The ids of the scanner have no small letters; the builder itself would hide such a game's long name. */
  lemma SmallLettersHide(f: Listed)
    requires 1 <= |f.name| <= 13
    requires f.short == [0x61, 0x62, 0x30, 0x30, 0x30, 0x30, 0x30, 0x30, 0x57, 0x42, 0x46]
    ensures !Belong([FileEntries(f)[0]], FileEntries(f)[1])
  {
    var small, capital := f.short, Upper(f.short);
    SmallSum(small);
    CapitalSum(capital);
    ChecksumIs(small);
    ChecksumIs(capital);
    LongNameAccepted(f);
  }

  lemma SmallSum(s: shortName)
    requires s == [0x61, 0x62, 0x30, 0x30, 0x30, 0x30, 0x30, 0x30, 0x57, 0x42, 0x46]
    ensures ShortSum(s, 11) == 0x01
  {
    SumAfter(s, 0, 0x00, 0x61);
    SumAfter(s, 1, 0x61, 0x12);
    SumAfter(s, 2, 0x12, 0x39);
    SumAfter(s, 3, 0x39, 0xcc);
    SumAfter(s, 4, 0xcc, 0x96);
    SumAfter(s, 5, 0x96, 0x7b);
    SumAfter(s, 6, 0x7b, 0xed);
    SumAfter(s, 7, 0xed, 0x26);
    SumAfter(s, 8, 0x26, 0x6a);
    SumAfter(s, 9, 0x6a, 0x77);
    SumAfter(s, 10, 0x77, 0x01);
  }

  lemma CapitalSum(s: shortName)
    requires s == [0x41, 0x42, 0x30, 0x30, 0x30, 0x30, 0x30, 0x30, 0x57, 0x42, 0x46]
    ensures ShortSum(s, 11) == 0x88
  {
    SumAfter(s, 0, 0x00, 0x41);
    SumAfter(s, 1, 0x41, 0xe2);
    SumAfter(s, 2, 0xe2, 0xa1);
    SumAfter(s, 3, 0xa1, 0x00);
    SumAfter(s, 4, 0x00, 0x30);
    SumAfter(s, 5, 0x30, 0x48);
    SumAfter(s, 6, 0x48, 0x54);
    SumAfter(s, 7, 0x54, 0x5a);
    SumAfter(s, 8, 0x5a, 0x84);
    SumAfter(s, 9, 0x84, 0x84);
    SumAfter(s, 10, 0x84, 0x88);
  }
}
