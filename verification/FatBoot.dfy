/** The partition table and the boot sector of both virtual disks, and what a driver takes from them. */
module FatBoot {
  import opened Basics
  import opened Bytes
  import opened FatInfo

  // ---- What the builders write ----

  /** One FAT32 partition, and the signature that identifies the disk. */
  function MbrSector(start: nat, sectors: nat, signature: nat): (s: seq<byte>)
    ensures |s| == SECTOR
  {
    Zeros(440) + LittleEndian(4, signature) + Zeros(2)
    + ([0x00, 0x20, 0x21, 0x00, 0x0c, 0xfe, 0xff, 0xff] + LittleEndian(4, start) + LittleEndian(4, sectors))
    + Zeros(48) + [0x55, 0xaa]
  }

  /** What differs between boot sectors. */
  datatype Boot = Boot(sectorsPerCluster: nat, sectors: nat, fatSectors: nat, root: nat, volumeId: nat,
                       name: seq<byte>)

  function BootStart(b: Boot): (s: seq<byte>)
    ensures |s| == 16
  {
    [0xeb, 0x58, 0x90] + [0x57, 0x49, 0x49, 0x42, 0x52, 0x44, 0x47, 0x20] + LittleEndian(2, 512)
    + LittleEndian(1, b.sectorsPerCluster) + LittleEndian(2, 32)
  }

  function BootMiddle(): (s: seq<byte>)
    ensures |s| == 16
  {
    [2, 0, 0, 0, 0, 0xf8, 0, 0] + LittleEndian(2, 63) + LittleEndian(2, 255) + LittleEndian(4, 2048)
  }

  function BootSizes(b: Boot): (s: seq<byte>)
    ensures |s| == 16
  {
    LittleEndian(4, b.sectors) + LittleEndian(4, b.fatSectors) + Zeros(4) + LittleEndian(4, b.root)
  }

  function BootPlaces(): (s: seq<byte>)
    ensures |s| == 16
  {
    LittleEndian(2, 1) + LittleEndian(2, 6) + Zeros(12)
  }

  function BootNames(b: Boot): (s: seq<byte>)
    requires |b.name| == 11
    ensures |s| == 26
  {
    [0x80, 0, 0x29] + LittleEndian(4, b.volumeId) + b.name + [0x46, 0x41, 0x54, 0x33, 0x32, 0x20, 0x20, 0x20]
  }

  function BootSector(b: Boot): (s: seq<byte>)
    requires |b.name| == 11
    ensures |s| == SECTOR
  {
    BootStart(b) + BootMiddle() + BootSizes(b) + BootPlaces() + BootNames(b) + (Zeros(420) + [0x55, 0xaa])
  }

  // ---- What a driver takes from them ----

  /** A mounted volume; places and sizes are in sectors of 512 bytes. */
  datatype Volume = Volume(start: nat, sectors: nat, sectorsPerCluster: nat, reserved: nat, tables: nat,
                           tableSectors: nat, root: nat, info: nat, backup: nat) {
    /** The first byte of a copy of the table. */
    function TableByte(copy: nat): nat { (start + reserved + copy * tableSectors) * 512 }

    /** The first byte of a cluster. */
    function ClusterByte(cluster: nat): int {
      (start + reserved + tables * tableSectors + (cluster - 2) * sectorsPerCluster) * 512
    }

    function ClusterBytes(): nat { sectorsPerCluster * 512 }
  }

  /** Where the first partition begins, if it is a FAT32 partition addressed by sector numbers. */
  function PartitionOf(mbr: seq<byte>): Option<nat>
    requires |mbr| == 512
  {
    if mbr[510..512] == [0x55, 0xaa] && mbr[450] == 0x0c then Some(FromLittleEndian(mbr[454..458])) else None
  }

  /** The volume that the first sectors of the disk and of its partition describe. */
  function MountFrom(mbr: seq<byte>, boot: seq<byte>): Option<Volume>
    requires |mbr| == 512 && |boot| == 512
  {
    if PartitionOf(mbr) == None || boot[510..512] != [0x55, 0xaa] || FromLittleEndian(boot[11..13]) != 512 then None
    else
      Some(Volume(PartitionOf(mbr).value, FromLittleEndian(boot[32..36]), boot[13], FromLittleEndian(boot[14..16]),
        boot[16], FromLittleEndian(boot[36..40]), FromLittleEndian(boot[44..48]), FromLittleEndian(boot[48..50]),
        FromLittleEndian(boot[50..52])))
  }

  // ---- The driver reads what the builder wrote ----

  lemma MbrDecodes(start: nat, sectors: nat, signature: nat)
    requires start < 0x1_0000_0000 && sectors < 0x1_0000_0000
    ensures var mbr := MbrSector(start, sectors, signature);
      PartitionOf(mbr) == Some(start) && FromLittleEndian(mbr[458..462]) == sectors
    ensures signature < 0x1_0000_0000 ==> FromLittleEndian(MbrSector(start, sectors, signature)[440..444]) == signature
  {
    var entry: seq<byte> := [0x00, 0x20, 0x21, 0x00, 0x0c, 0xfe, 0xff, 0xff];
    var mbr := MbrSector(start, sectors, signature);
    MbrSlices(LittleEndian(4, signature), entry, LittleEndian(4, start), LittleEndian(4, sectors), mbr);
    Capacities();
    if signature < 0x1_0000_0000 {
      LittleEndianRoundTrip(4, signature);
    }
    LittleEndianRoundTrip(4, start);
    LittleEndianRoundTrip(4, sectors);
  }

  lemma MbrSlices(signature: seq<byte>, entry: seq<byte>, start: seq<byte>, sectors: seq<byte>, mbr: seq<byte>)
    requires |signature| == 4 && |entry| == 8 && |start| == 4 && |sectors| == 4
    requires mbr == Zeros(440) + signature + Zeros(2) + (entry + start + sectors) + Zeros(48) + [0x55, 0xaa]
    ensures |mbr| == 512 && mbr[440..444] == signature && mbr[510..512] == [0x55, 0xaa] && mbr[450] == entry[4]
    ensures mbr[454..458] == start && mbr[458..462] == sectors
  {
  }

  lemma BootStartDecodes(b: Boot)
    requires b.sectorsPerCluster < 0x100
    ensures var s := BootStart(b);
      FromLittleEndian(s[11..13]) == 512 && s[13] == b.sectorsPerCluster && FromLittleEndian(s[14..16]) == 32
  {
    var s := BootStart(b);
    assert s[11..13] == LittleEndian(2, 512) && s[14..16] == LittleEndian(2, 32);
    assert s[13..14] == LittleEndian(1, b.sectorsPerCluster);
    assert LittleEndian(1, b.sectorsPerCluster)[0] == s[13];
    Capacities();
    LittleEndianRoundTrip(2, 512);
    LittleEndianRoundTrip(2, 32);
  }

  lemma BootSizesDecode(b: Boot)
    requires b.sectors < 0x1_0000_0000 && b.fatSectors < 0x1_0000_0000 && b.root < 0x1_0000_0000
    ensures var s := BootSizes(b);
      && FromLittleEndian(s[0..4]) == b.sectors && FromLittleEndian(s[4..8]) == b.fatSectors
      && FromLittleEndian(s[12..16]) == b.root
  {
    var s := BootSizes(b);
    assert s[0..4] == LittleEndian(4, b.sectors) && s[4..8] == LittleEndian(4, b.fatSectors);
    assert s[12..16] == LittleEndian(4, b.root);
    Capacities();
    LittleEndianRoundTrip(4, b.sectors);
    LittleEndianRoundTrip(4, b.fatSectors);
    LittleEndianRoundTrip(4, b.root);
  }

  lemma BootPlacesDecode()
    ensures var s := BootPlaces(); FromLittleEndian(s[0..2]) == 1 && FromLittleEndian(s[2..4]) == 6
  {
    var s := BootPlaces();
    assert s[0..2] == LittleEndian(2, 1) && s[2..4] == LittleEndian(2, 6);
    Capacities();
    LittleEndianRoundTrip(2, 1);
    LittleEndianRoundTrip(2, 6);
  }

  /** The five parts of a boot sector, where a driver looks for them. */
  lemma BootParts(b: Boot)
    requires |b.name| == 11
    ensures var s := BootSector(b);
      && s[11..13] == BootStart(b)[11..13] && s[13] == BootStart(b)[13] && s[14..16] == BootStart(b)[14..16]
      && s[16] == 2
    ensures var s := BootSector(b);
      && s[32..36] == BootSizes(b)[0..4] && s[36..40] == BootSizes(b)[4..8] && s[44..48] == BootSizes(b)[12..16]
    ensures var s := BootSector(b);
      s[48..50] == BootPlaces()[0..2] && s[50..52] == BootPlaces()[2..4] && s[510..512] == [0x55, 0xaa]
  {
    SixParts(BootStart(b), BootMiddle(), BootSizes(b), BootPlaces(), BootNames(b), Zeros(420) + [0x55, 0xaa]);
  }

  lemma SixParts(a: seq<byte>, m: seq<byte>, c: seq<byte>, d: seq<byte>, e: seq<byte>, z: seq<byte>)
    requires |a| == |m| == |c| == |d| == 16 && |e| == 26 && |z| == 422
    ensures var s := a + m + c + d + e + z;
      && s[11..13] == a[11..13] && s[13] == a[13] && s[14..16] == a[14..16] && s[16] == m[0]
      && s[32..36] == c[0..4] && s[36..40] == c[4..8] && s[44..48] == c[12..16]
      && s[48..50] == d[0..2] && s[50..52] == d[2..4] && s[510..512] == z[420..422]
    ensures var s := a + m + c + d + e + z;
      s[21] == m[5] && s[28..32] == m[12..16] && s[66] == e[2] && s[67..71] == e[3..7] && s[71..82] == e[7..18]
  {
  }

  /** What identifies the volume, and how many sectors lie before it. */
  lemma BootIdentity(b: Boot)
    requires |b.name| == 11 && b.volumeId < 0x1_0000_0000
    ensures var s := BootSector(b);
      && s[21] == 0xf8 && FromLittleEndian(s[28..32]) == 2048 && s[66] == 0x29
      && FromLittleEndian(s[67..71]) == b.volumeId && s[71..82] == b.name
  {
    SixParts(BootStart(b), BootMiddle(), BootSizes(b), BootPlaces(), BootNames(b), Zeros(420) + [0x55, 0xaa]);
    MiddleDecodes();
    NamesDecode(b);
  }

  lemma MiddleDecodes()
    ensures BootMiddle()[5] == 0xf8 && FromLittleEndian(BootMiddle()[12..16]) == 2048
  {
    assert BootMiddle()[12..16] == LittleEndian(4, 2048);
    Capacities();
    LittleEndianRoundTrip(4, 2048);
  }

  lemma NamesDecode(b: Boot)
    requires |b.name| == 11 && b.volumeId < 0x1_0000_0000
    ensures var s := BootNames(b); s[2] == 0x29 && FromLittleEndian(s[3..7]) == b.volumeId && s[7..18] == b.name
  {
    assert BootNames(b)[3..7] == LittleEndian(4, b.volumeId);
    Capacities();
    LittleEndianRoundTrip(4, b.volumeId);
  }

  /** A driver mounts exactly the volume that the builder described. */
  lemma Mounts(start: nat, signature: nat, b: Boot)
    requires start < 0x1_0000_0000 && |b.name| == 11 && b.sectorsPerCluster < 0x100
    requires b.sectors < 0x1_0000_0000 && b.fatSectors < 0x1_0000_0000 && b.root < 0x1_0000_0000
    ensures MountFrom(MbrSector(start, b.sectors, signature), BootSector(b))
      == Some(Volume(start, b.sectors, b.sectorsPerCluster, 32, 2, b.fatSectors, b.root, 1, 6))
  {
    MbrDecodes(start, b.sectors, signature);
    BootParts(b);
    BootStartDecodes(b);
    BootSizesDecode(b);
    BootPlacesDecode();
  }
}
