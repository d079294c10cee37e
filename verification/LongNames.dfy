/** FAT directory entries: VFAT long names and the directories that hold them. */
module LongNames {
  import opened Bytes

  const ENTRY_SIZE: nat := 32
  const CLUSTER_SIZE: nat := 32768

  /** One 32-byte slot of a directory. */
  type entry = e: seq<byte> | |e| == ENTRY_SIZE witness seq<byte>(ENTRY_SIZE, _ => 0)

  /** A UTF-16 code unit. */
  type unit = u: int | 0 <= u < 0x1_0000

  function Slots(name: seq<unit>): nat { (|name| + 12) / 13 }

  /** Unit `k` of a stored name: the name, a terminator, then filler. */
  function NameUnit(name: seq<unit>, k: nat): unit {
    if k < |name| then name[k] else if k == |name| then 0 else 0xffff
  }

  /** Where unit `i` of an entry is stored. */
  const POSITIONS: seq<nat> := [1, 3, 5, 7, 9, 14, 16, 18, 20, 22, 24, 28, 30]

  /** Which unit the bytes of an entry belong to; 13 for the bytes between the units. */
  function UnitOf(i: nat): nat {
    if 1 <= i < 11 then (i - 1) / 2
    else if 14 <= i < 26 then 5 + (i - 14) / 2
    else if 28 <= i < 32 then 11 + (i - 28) / 2
    else 13
  }

  /** The sequence byte: the entry's number, with a mark on the one stored first. */
  function Sequence(slots: nat, d: nat): byte {
    var b := d % 0x100;
    if d == slots && b / 0x40 % 2 == 0 then b + 0x40 else b
  }

  function FixedByte(slots: nat, d: nat, checksum: byte, i: nat): byte {
    if i == 0 then Sequence(slots, d)
    else if i == 11 then 0x0f
    else if i == 13 then checksum
    else 0
  }

  /** Byte `i` of the entry that holds the d-th thirteen units of a name. */
  function LfnByte(name: seq<unit>, d: nat, checksum: byte, i: nat): byte
    requires d >= 1
  {
    var u := UnitOf(i);
    if u == 13 then FixedByte(Slots(name), d, checksum, i)
    else
      Digit(NameUnit(name, (d - 1) * 13 + u),
        if i < 14 || i >= 28 then (i - (if i < 14 then 1 else 28)) % 2 else (i - 14) % 2)
  }

  function LfnEntry(name: seq<unit>, d: nat, checksum: byte): (e: entry)
    requires d >= 1
  {
    seq<byte>(ENTRY_SIZE, i requires 0 <= i < ENTRY_SIZE => LfnByte(name, d, checksum, i))
  }

  /** The entries from number `d` down to 1, in the order in which they are stored. */
  function LfnEntries(name: seq<unit>, d: nat, checksum: byte): (es: seq<entry>)
    ensures |es| == d && forall k :: 0 <= k < d ==> es[k] == LfnEntry(name, d - k, checksum)
  {
    if d == 0 then [] else [LfnEntry(name, d, checksum)] + LfnEntries(name, d - 1, checksum)
  }

  lemma PositionsOf()
    ensures |POSITIONS| == 13
    ensures forall u :: 0 <= u < 13 ==>
      POSITIONS[u] + 1 < ENTRY_SIZE && UnitOf(POSITIONS[u]) == u && UnitOf(POSITIONS[u] + 1) == u
    ensures forall i :: 0 <= i < ENTRY_SIZE && UnitOf(i) < 13 ==>
      i == POSITIONS[UnitOf(i)] || i == POSITIONS[UnitOf(i)] + 1
  {
  }

  lemma UnitBytes(name: seq<unit>, d: nat, checksum: byte, u: nat)
    requires d >= 1 && u < 13
    ensures LfnByte(name, d, checksum, POSITIONS[u]) == Digit(NameUnit(name, (d - 1) * 13 + u), 0)
    ensures LfnByte(name, d, checksum, POSITIONS[u] + 1) == Digit(NameUnit(name, (d - 1) * 13 + u), 1)
  {
  }

  /** Writes the entries of a name, the last thirteen units first. */
  method MakeLfn(name: seq<unit>, checksum: byte) returns (entries: seq<entry>)
    ensures entries == LfnEntries(name, Slots(name), checksum)
  {
    var slots := (|name| + 12) / 13;
    entries := [];
    var d := slots;
    while d >= 1
      invariant 0 <= d <= slots
      invariant entries + LfnEntries(name, d, checksum) == LfnEntries(name, slots, checksum)
    {
      var entry := MakeEntry(name, d, checksum);
      ConcatAssociates(entries, [entry], LfnEntries(name, d - 1, checksum));
      entries, d := entries + [entry], d - 1;
    }
  }

  /** The fixed bytes and the units before `index` are final. */
  ghost predicate WrittenTo(entry: seq<byte>, name: seq<unit>, d: nat, checksum: byte, index: nat)
    requires d >= 1
  {
    && |entry| == ENTRY_SIZE
    && forall i :: 0 <= i < ENTRY_SIZE && (UnitOf(i) < index || UnitOf(i) == 13) ==>
      entry[i] == LfnByte(name, d, checksum, i)
  }

  lemma WriteUnit(entry: seq<byte>, name: seq<unit>, d: nat, checksum: byte, index: nat, next: seq<byte>)
    requires d >= 1 && index < 13 && WrittenTo(entry, name, d, checksum, index) && |next| == ENTRY_SIZE
    requires var v := NameUnit(name, (d - 1) * 13 + index);
      next[POSITIONS[index]] == v % 0x100 && next[POSITIONS[index] + 1] == v / 0x100
    requires forall i :: 0 <= i < ENTRY_SIZE && i != POSITIONS[index] && i != POSITIONS[index] + 1 ==>
      next[i] == entry[i]
    ensures WrittenTo(next, name, d, checksum, index + 1)
  {
    UnitBytes(name, d, checksum, index);
    var v := NameUnit(name, (d - 1) * 13 + index);
    assert Digit(v, 0) == v % 0x100 && Digit(v, 1) == v / 0x100;
    forall i | 0 <= i < ENTRY_SIZE && (UnitOf(i) < index + 1 || UnitOf(i) == 13)
      ensures next[i] == LfnByte(name, d, checksum, i)
    {
      PositionsOf();
      if i != POSITIONS[index] && i != POSITIONS[index] + 1 {
        assert UnitOf(i) != index;
      }
    }
  }

  method MakeEntry(name: seq<unit>, d: nat, checksum: byte) returns (bytes: entry)
    requires d >= 1
    ensures bytes == LfnEntry(name, d, checksum)
  {
    var entry := new byte[ENTRY_SIZE](_ => 0xff);
    entry[0] := Sequence(Slots(name), d);
    entry[11], entry[12], entry[13] := 0x0f, 0, checksum;
    entry[26], entry[27] := 0, 0;
    var index := 0;
    while index < 13
      invariant 0 <= index <= 13
      invariant WrittenTo(entry[..], name, d, checksum, index)
    {
      var value := NameUnit(name, (d - 1) * 13 + index);
      ghost var before := entry[..];
      entry[POSITIONS[index]], entry[POSITIONS[index] + 1] := value % 0x100, value / 0x100;
      WriteUnit(before, name, d, checksum, index, entry[..]);
      index := index + 1;
    }
    bytes := entry[..];
    AllUnits();
  }

  lemma AllUnits()
    ensures forall i :: 0 <= i < ENTRY_SIZE ==> UnitOf(i) < 13 || UnitOf(i) == 13
  {
  }

  // ---- Decoding ----

  /** Unit `u` of a stored entry: five units from byte 1 on, six from byte 14 on and two from byte 28 on. */
  function StoredUnit(e: entry, u: nat): unit
    requires u < 13
  {
    var at := if u < 5 then 1 + 2 * u else if u < 11 then 14 + 2 * (u - 5) else 28 + 2 * (u - 11);
    var low: int, high: int := e[at], e[at + 1];
    low + 0x100 * high
  }

  /** The units of entries given in ascending order of their numbers. */
  function StoredUnits(entries: seq<entry>): seq<unit>
  {
    if entries == [] then []
    else seq<unit>(13, u requires 0 <= u < 13 => StoredUnit(entries[0], u)) + StoredUnits(entries[1..])
  }

  function UpToTerminator(units: seq<unit>): seq<unit> {
    if units == [] || units[0] == 0 then [] else [units[0]] + UpToTerminator(units[1..])
  }

  function Reversed<T>(s: seq<T>): (r: seq<T>)
    ensures |r| == |s| && forall k :: 0 <= k < |s| ==> r[k] == s[|s| - 1 - k]
  {
    if s == [] then [] else Reversed(s[1..]) + [s[0]]
  }

  /** What a driver reads: the units in ascending entry order, up to a terminator. */
  function DecodeName(stored: seq<entry>): seq<unit> {
    UpToTerminator(StoredUnits(Reversed(stored)))
  }

  /** The table of places and the driver's formula agree. */
  lemma Places(u: nat)
    requires u < 13
    ensures POSITIONS[u] == if u < 5 then 1 + 2 * u else if u < 11 then 14 + 2 * (u - 5) else 28 + 2 * (u - 11)
  {
  }

  lemma StoredUnitIs(name: seq<unit>, d: nat, checksum: byte, u: nat)
    requires d >= 1 && u < 13
    ensures StoredUnit(LfnEntry(name, d, checksum), u) == NameUnit(name, (d - 1) * 13 + u)
  {
    Places(u);
    UnitBytes(name, d, checksum, u);
    UnitDigits(NameUnit(name, (d - 1) * 13 + u));
  }

  lemma UnitDigits(v: unit)
    ensures Digit(v, 0) as int + 0x100 * (Digit(v, 1) as int) == v
  {
    assert Digit(v, 1) == v / 0x100;
  }

  /** Entries number `from`, `from + 1`, … of a name hold its units from thirteen times `from - 1` on. */
  lemma {:induction false} UnitsStored(name: seq<unit>, from: nat, checksum: byte, entries: seq<entry>)
    requires from >= 1 && forall k :: 0 <= k < |entries| ==> entries[k] == LfnEntry(name, from + k, checksum)
    ensures |StoredUnits(entries)| == 13 * |entries|
    ensures forall k :: 0 <= k < 13 * |entries| ==> StoredUnits(entries)[k] == NameUnit(name, (from - 1) * 13 + k)
    decreases |entries|
  {
    if entries != [] {
      UnitsStored(name, from + 1, checksum, entries[1..]);
      forall u | 0 <= u < 13 ensures StoredUnit(entries[0], u) == NameUnit(name, (from - 1) * 13 + u) {
        StoredUnitIs(name, from, checksum, u);
      }
      var units := StoredUnits(entries);
      forall k | 0 <= k < 13 * |entries| ensures units[k] == NameUnit(name, (from - 1) * 13 + k) {
        if k >= 13 {
          assert units[k] == StoredUnits(entries[1..])[k - 13];
        }
      }
    }
  }

  /** A terminator right behind the name, or nothing behind it, ends the name. */
  lemma {:induction false} TerminatorEnds(name: seq<unit>, units: seq<unit>)
    requires |name| <= |units| && (|units| > |name| ==> units[|name|] == 0)
    requires forall k :: 0 <= k < |name| ==> units[k] == name[k] != 0
    ensures UpToTerminator(units) == name
  {
    if name != [] {
      TerminatorEnds(name[1..], units[1..]);
      assert units[0] == name[0];
      Uncons(name);
    }
  }

  /** In ascending order entry k is number k + 1. */
  lemma Ascending(name: seq<unit>, checksum: byte, k: nat)
    requires k < Slots(name)
    ensures Reversed(LfnEntries(name, Slots(name), checksum))[k] == LfnEntry(name, 1 + k, checksum)
  {
  }

  /**
   * Decoding the stored entries gives the name back. There are no more entries than the name needs, and
   * what follows its terminator is filled with 0xffff.
   */
  lemma LongNameRoundTrip(name: seq<unit>, checksum: byte)
    requires forall k :: 0 <= k < |name| ==> name[k] != 0
    ensures DecodeName(LfnEntries(name, Slots(name), checksum)) == name
    ensures var units := StoredUnits(Reversed(LfnEntries(name, Slots(name), checksum)));
      && |name| <= |units| < |name| + 13
      && forall k :: |name| < k < |units| ==> units[k] == 0xffff
  {
    var ascending := Reversed(LfnEntries(name, Slots(name), checksum));
    forall k | 0 <= k < |ascending| ensures ascending[k] == LfnEntry(name, 1 + k, checksum) {
      Ascending(name, checksum, k);
    }
    UnitsStored(name, 1, checksum, ascending);
    TerminatorEnds(name, StoredUnits(ascending));
  }

  /**
   * For names that the format allows, entry d carries number d, and only the first stored one the end mark;
   * every entry is marked as part of a long name and carries the checksum.
   */
  lemma SequenceNumbers(name: seq<unit>, d: nat, checksum: byte)
    requires 1 <= |name| <= 255 && 1 <= d <= Slots(name)
    ensures LfnEntry(name, d, checksum)[0] % 0x40 == d <= 20
    ensures LfnEntry(name, d, checksum)[0] >= 0x40 <==> d == Slots(name)
    ensures var e := LfnEntry(name, d, checksum);
      e[11] == 0x0f && e[12] == 0 && e[13] == checksum && e[26] == 0 && e[27] == 0
  {
  }

  // ---- Directories ----

  datatype Child = Child(name: seq<unit>, short: seq<byte>, first: nat, size: nat, directory: bool)

  datatype Directory = Directory(root: bool, volume: seq<byte>, first: nat, parent: nat, children: seq<Child>)

  ghost predicate ShortNamesFit(d: Directory) {
    |d.volume| == 11 && forall i :: 0 <= i < |d.children| ==> |d.children[i].short| == 11
  }

  /** A short entry: name, attribute, first cluster in two halves, size. */
  function ShortEntry(name: seq<byte>, cluster: nat, size: nat, attribute: byte): (e: entry)
    requires |name| == 11
  {
    name + [attribute] + [0, 0, 0, 0, 0, 0, 0, 0] + LittleEndian(2, cluster / 0x1_0000) + [0, 0, 0, 0]
      + LittleEndian(2, cluster) + LittleEndian(4, size)
  }

  /** A driver reads the first cluster and the size back; no times are stored. */
  lemma ShortEntryDecodes(name: seq<byte>, cluster: nat, size: nat, attribute: byte)
    requires |name| == 11 && cluster < 0x1_0000_0000 && size < 0x1_0000_0000
    ensures var e := ShortEntry(name, cluster, size, attribute);
      && e[..11] == name && e[11] == attribute
      && (forall i :: 12 <= i < 20 || 22 <= i < 26 ==> e[i] == 0)
      && FromLittleEndian(e[20..22]) * 0x1_0000 + FromLittleEndian(e[26..28]) == cluster
      && FromLittleEndian(e[28..32]) == size
  {
    Capacities();
    var e := ShortEntry(name, cluster, size, attribute);
    assert e[20..22] == LittleEndian(2, cluster / 0x1_0000);
    assert e[26..28] == LittleEndian(2, cluster);
    assert e[28..32] == LittleEndian(4, size);
    LittleEndianRoundTrip(2, cluster / 0x1_0000);
    LowerDigits(2, cluster);
    LittleEndianRoundTrip(4, size);
  }

  /** A field that is too narrow keeps the value's lower part. */
  lemma {:induction false} LowerDigits(n: nat, v: nat)
    ensures FromLittleEndian(LittleEndian(n, v)) == v % Capacity(n)
  {
    if n > 0 {
      LowerDigits(n - 1, v / 0x100);
      assert LittleEndian(n, v)[1..] == LittleEndian(n - 1, v / 0x100);
      SplitModulo(v, Capacity(n - 1));
    }
  }

  lemma SplitModulo(v: nat, p: nat)
    requires p > 0
    ensures v % (0x100 * p) == v % 0x100 + 0x100 * (v / 0x100 % p)
  {
    var q := v / 0x100 / p;
    var r := v / 0x100 % p;
    assert v / 0x100 == q * p + r;
    assert v == q * (0x100 * p) + (v % 0x100 + 0x100 * r);
    Remainder(v, 0x100 * p, q, v % 0x100 + 0x100 * r);
  }

  lemma Remainder(v: nat, m: nat, q: nat, r: nat)
    requires m > 0 && v == q * m + r && r < m
    ensures v % m == r
  {
    var other := v / m;
    assert other * m <= v < other * m + m;
    Scales(other + 1, q, m);
    Scales(q + 1, other, m);
  }

  lemma Scales(a: int, b: int, m: nat)
    ensures a <= b ==> a * m <= b * m
  {
    if a <= b {
      assert (b - a) * m >= 0;
    }
  }

  /** The 8.3 checksum that ties long entries to their short one. */
  function Checksum(short: seq<byte>, sum: byte): byte {
    if short == [] then sum
    else Checksum(short[1..], (sum % 2 * 0x80 + sum / 2 + short[0]) % 0x100)
  }

  const DOT: seq<byte> := [0x2e, 0x20, 0x20, 0x20, 0x20, 0x20, 0x20, 0x20, 0x20, 0x20, 0x20]
  const DOT_DOT: seq<byte> := [0x2e, 0x2e, 0x20, 0x20, 0x20, 0x20, 0x20, 0x20, 0x20, 0x20, 0x20]

  function HeadEntries(d: Directory): seq<entry>
    requires |d.volume| == 11
  {
    if d.root then [ShortEntry(d.volume, 0, 0, 0x08)]
    else [ShortEntry(DOT, d.first, 0, 0x10), ShortEntry(DOT_DOT, d.parent, 0, 0x10)]
  }

  function ShortOf(c: Child): entry
    requires |c.short| == 11
  {
    ShortEntry(c.short, c.first, if c.directory then 0 else c.size, if c.directory then 0x10 else 0x20)
  }

  function ChildEntries(c: Child): seq<entry>
    requires |c.short| == 11
  {
    LfnEntries(c.name, Slots(c.name), Checksum(c.short, 0)) + [ShortOf(c)]
  }

  function Entries(d: Directory, n: nat): seq<entry>
    requires ShortNamesFit(d) && n <= |d.children|
  {
    if n == 0 then HeadEntries(d) else Entries(d, n - 1) + ChildEntries(d.children[n - 1])
  }

  /** What the builder counts before it reserves clusters for a directory. */
  function EntryCount(d: Directory, n: nat): nat
    requires n <= |d.children|
  {
    if n == 0 then (if d.root then 1 else 2) else EntryCount(d, n - 1) + Slots(d.children[n - 1].name) + 1
  }

  function ReservedClusters(d: Directory): (n: int)
    ensures n >= 1 && EntryCount(d, |d.children|) * ENTRY_SIZE <= n * CLUSTER_SIZE
  {
    var n := (EntryCount(d, |d.children|) * ENTRY_SIZE + CLUSTER_SIZE - 1) / CLUSTER_SIZE;
    if n < 1 then 1 else n
  }

  lemma {:induction false} EntriesCounted(d: Directory, n: nat)
    requires ShortNamesFit(d) && n <= |d.children|
    ensures |Entries(d, n)| == EntryCount(d, n)
    decreases n
  {
    if n > 0 {
      EntriesCounted(d, n - 1);
    }
  }

  lemma {:induction false} CountGrows(d: Directory, n: nat)
    requires n <= |d.children|
    ensures EntryCount(d, n) <= EntryCount(d, |d.children|)
    decreases |d.children| - n
  {
    if n < |d.children| {
      CountGrows(d, n + 1);
    }
  }

  function Flatten(entries: seq<entry>): (s: seq<byte>)
    ensures |s| == ENTRY_SIZE * |entries|
  {
    if entries == [] then [] else Flatten(entries[..|entries| - 1]) + entries[|entries| - 1]
  }

  lemma {:induction false} FlattenedAt(entries: seq<entry>, e: nat)
    requires e < |entries|
    ensures Flatten(entries)[ENTRY_SIZE * e..ENTRY_SIZE * e + ENTRY_SIZE] == entries[e]
    decreases |entries|
  {
    var front := entries[..|entries| - 1];
    if e < |front| {
      FlattenedAt(front, e);
      assert Flatten(entries)[..|Flatten(front)|] == Flatten(front);
    }
  }

  function Padded(data: seq<byte>, size: nat): (s: seq<byte>)
    requires |data| <= size
    ensures |s| == size
  {
    data + seq<byte>(size - |data|, _ => 0)
  }

  /** The directory's clusters: its entries, then zeros. */
  function DirectoryBytes(d: Directory): (s: seq<byte>)
    requires ShortNamesFit(d)
    ensures |s| == ReservedClusters(d) * CLUSTER_SIZE
  {
    var entries := Entries(d, |d.children|);
    EntriesCounted(d, |d.children|);
    Padded(Flatten(entries), ReservedClusters(d) * CLUSTER_SIZE)
  }

  /** The name, attribute and first cluster of an entry that stands in some bytes. */
  ghost predicate EntryAt(s: seq<byte>, at: nat, name: seq<byte>, attribute: byte, cluster: nat) {
    && at + 32 <= |s| && s[at..at + 11] == name && s[at + 11] == attribute
    && FromLittleEndian(s[at + 20..at + 22]) * 0x1_0000 + FromLittleEndian(s[at + 26..at + 28]) == cluster
  }

  lemma ShortEntryAt(s: seq<byte>, at: nat, name: seq<byte>, attribute: byte, cluster: nat)
    requires |name| == 11 && cluster < 0x1_0000_0000
    requires at + 32 <= |s| && s[at..at + 32] == ShortEntry(name, cluster, 0, attribute)
    ensures EntryAt(s, at, name, attribute, cluster)
  {
    ShortEntryDecodes(name, cluster, 0, attribute);
    PartOfSlice(s, at, 32, 0, 11);
    PartOfSlice(s, at, 32, 20, 22);
    PartOfSlice(s, at, 32, 26, 28);
  }

  lemma PartOfSlice(s: seq<byte>, at: nat, size: nat, from: nat, to: nat)
    requires from <= to <= size && at + size <= |s|
    ensures s[at..at + size][from..to] == s[at + from..at + to]
  {
    var a, b := s[at..at + size][from..to], s[at + from..at + to];
    forall k | 0 <= k < to - from ensures a[k] == b[k] {
    }
  }

  /** A root directory begins with the volume name; any other one with `.` for itself and `..` for its parent. */
  lemma DirectoryBegins(d: Directory)
    requires ShortNamesFit(d) && d.first < 0x1_0000_0000 && d.parent < 0x1_0000_0000
    ensures d.root ==> EntryAt(DirectoryBytes(d), 0, d.volume, 8, 0)
    ensures !d.root ==>
      EntryAt(DirectoryBytes(d), 0, [0x2e, 0x20, 0x20, 0x20, 0x20, 0x20, 0x20, 0x20, 0x20, 0x20, 0x20], 0x10, d.first)
    ensures !d.root ==>
      EntryAt(DirectoryBytes(d), 32, [0x2e, 0x2e, 0x20, 0x20, 0x20, 0x20, 0x20, 0x20, 0x20, 0x20, 0x20], 0x10, d.parent)
  {
    var s := DirectoryBytes(d);
    HeadInBytes(d, 0);
    if d.root {
      ShortEntryAt(s, 0, d.volume, 8, 0);
    } else {
      HeadInBytes(d, 1);
      ShortEntryAt(s, 0, DOT, 0x10, d.first);
      ShortEntryAt(s, 32, DOT_DOT, 0x10, d.parent);
    }
  }

  lemma HeadInBytes(d: Directory, i: nat)
    requires ShortNamesFit(d) && i < |HeadEntries(d)|
    ensures 32 * i + 32 <= |DirectoryBytes(d)| && DirectoryBytes(d)[32 * i..32 * i + 32] == HeadEntries(d)[i]
  {
    var n := |d.children|;
    EntriesCounted(d, n);
    HeadComesFirst(d, n, i);
    var flat := Flatten(Entries(d, n));
    FlattenedAt(Entries(d, n), i);
    assert DirectoryBytes(d)[32 * i..32 * i + 32] == flat[32 * i..32 * i + 32];
  }

  lemma {:induction false} HeadComesFirst(d: Directory, n: nat, i: nat)
    requires ShortNamesFit(d) && n <= |d.children| && i < |HeadEntries(d)|
    ensures i < |Entries(d, n)| && Entries(d, n)[i] == HeadEntries(d)[i]
    decreases n
  {
    if n > 0 {
      HeadComesFirst(d, n - 1, i);
    }
  }

  /** The buffer holds these entries and zeros behind them. */
  ghost predicate Holds(data: seq<byte>, entries: seq<entry>) {
    ENTRY_SIZE * |entries| <= |data| && data == Padded(Flatten(entries), |data|)
  }

  lemma HoldsMore(data: seq<byte>, entries: seq<entry>, e: entry)
    requires Holds(data, entries) && ENTRY_SIZE * |entries| + ENTRY_SIZE <= |data|
    ensures Holds(Patch(data, ENTRY_SIZE * |entries|, e), entries + [e])
  {
    assert (entries + [e])[..|entries|] == entries;
    assert Patch(data, ENTRY_SIZE * |entries|, e) == Padded(Flatten(entries) + e, |data|);
  }

  method PutEntry(data: array<byte>, offset: nat, e: entry, ghost entries: seq<entry>) returns (next: nat)
    requires Holds(data[..], entries) && offset == ENTRY_SIZE * |entries| && offset + ENTRY_SIZE <= data.Length
    modifies data
    ensures Holds(data[..], entries + [e]) && next == offset + ENTRY_SIZE
  {
    HoldsMore(data[..], entries, e);
    CopyInto(data, offset, e);
    next := offset + ENTRY_SIZE;
  }

  /** The volume name, or the two dot entries. */
  method PutHead(data: array<byte>, d: Directory) returns (offset: nat)
    requires |d.volume| == 11 && Holds(data[..], []) && 2 * ENTRY_SIZE <= data.Length
    modifies data
    ensures Holds(data[..], HeadEntries(d)) && offset == ENTRY_SIZE * |HeadEntries(d)|
  {
    var none: seq<entry> := [];
    if d.root {
      offset := PutEntry(data, 0, ShortEntry(d.volume, 0, 0, 0x08), none);
    } else {
      offset := PutEntry(data, 0, ShortEntry(DOT, d.first, 0, 0x10), none);
      offset := PutEntry(data, offset, ShortEntry(DOT_DOT, d.parent, 0, 0x10), [ShortEntry(DOT, d.first, 0, 0x10)]);
    }
  }

  /** Writes a directory into the clusters reserved for it; the reservation is never overrun. */
  method BuildDirectory(d: Directory) returns (bytes: seq<byte>, overflow: bool)
    requires ShortNamesFit(d)
    ensures !overflow && bytes == DirectoryBytes(d)
  {
    var data := new byte[ReservedClusters(d) * CLUSTER_SIZE](_ => 0);
    NothingYet(data[..]);
    Room(d, 0);
    var offset := PutHead(data, d);
    var n := 0;
    while n < |d.children|
      invariant 0 <= n <= |d.children|
      invariant Holds(data[..], Entries(d, n)) && offset == ENTRY_SIZE * EntryCount(d, n)
    {
      Room(d, n + 1);
      offset, overflow := PutNext(data, offset, d, n);
      if overflow { return [], true; }
      n := n + 1;
    }
    bytes, overflow := data[..], false;
  }

  /** Writes the entries of the n-th child behind those before it. */
  method PutNext(data: array<byte>, offset: nat, d: Directory, n: nat) returns (next: nat, overflow: bool)
    requires ShortNamesFit(d) && n < |d.children|
    requires Holds(data[..], Entries(d, n)) && offset == ENTRY_SIZE * EntryCount(d, n)
    requires ENTRY_SIZE * EntryCount(d, n + 1) <= data.Length
    modifies data
    ensures !overflow && Holds(data[..], Entries(d, n + 1)) && next == ENTRY_SIZE * EntryCount(d, n + 1)
  {
    EntriesCounted(d, n);
    next, overflow := PutChild(data, offset, d.children[n], Entries(d, n));
  }

  lemma Room(d: Directory, n: nat)
    requires n <= |d.children|
    ensures ENTRY_SIZE * EntryCount(d, n) <= ReservedClusters(d) * CLUSTER_SIZE
    ensures CLUSTER_SIZE <= ReservedClusters(d) * CLUSTER_SIZE
  {
    CountGrows(d, n);
  }

  lemma NothingYet(data: seq<byte>)
    requires forall i :: 0 <= i < |data| ==> data[i] == 0
    ensures Holds(data, [])
  {
  }

  method PutChild(data: array<byte>, offset: nat, c: Child, ghost before: seq<entry>)
    returns (next: nat, overflow: bool)
    requires |c.short| == 11 && Holds(data[..], before) && offset == ENTRY_SIZE * |before|
    requires offset + ENTRY_SIZE * (Slots(c.name) + 1) <= data.Length
    modifies data
    ensures !overflow && Holds(data[..], before + ChildEntries(c)) && next == offset + ENTRY_SIZE * (Slots(c.name) + 1)
  {
    var entries := MakeLfn(c.name, Checksum(c.short, 0));
    next := offset;
    var k := 0;
    assert before + entries[..0] == before;
    while k < |entries|
      invariant 0 <= k <= |entries|
      invariant Holds(data[..], before + entries[..k]) && next == offset + ENTRY_SIZE * k
    {
      if next + ENTRY_SIZE > data.Length { return next, true; }
      next := PutEntry(data, next, entries[k], before + entries[..k]);
      assert before + entries[..k] + [entries[k]] == before + entries[..k + 1];
      k := k + 1;
    }
    assert entries[..k] == entries;
    var short := ShortEntry(c.short, c.first, if c.directory then 0 else c.size, if c.directory then 0x10 else 0x20);
    next := PutEntry(data, next, short, before + entries);
    ConcatAssociates(before, entries, [short]);
    overflow := false;
  }
}
