/** The FSInfo sector of both virtual disks, and what its free count has to be. */
module FatInfo {
  import opened Bytes
  import opened WiiFat

  const SECTOR: int := 512

  function Zeros(n: nat): (s: seq<byte>)
    ensures |s| == n
  {
    seq<byte>(n, _ => 0)
  }

  /** The FSInfo sector with its free count and its hint. */
  function FsInfo(free: nat, next: nat): (s: seq<byte>)
    ensures |s| == SECTOR
  {
    [0x52, 0x52, 0x61, 0x41] + Zeros(480) + [0x72, 0x72, 0x41, 0x61] + LittleEndian(4, free) + LittleEndian(4, next)
    + Zeros(14) + [0x55, 0xaa]
  }

  lemma FsInfoDecodes(free: nat, next: nat)
    requires free < 0x1_0000_0000 && next < 0x1_0000_0000
    ensures FromLittleEndian(FsInfo(free, next)[488..492]) == free
    ensures FromLittleEndian(FsInfo(free, next)[492..496]) == next
  {
    Capacities();
    LittleEndianRoundTrip(4, free);
    LittleEndianRoundTrip(4, next);
    assert FsInfo(free, next)[488..492] == LittleEndian(4, free);
    assert FsInfo(free, next)[492..496] == LittleEndian(4, next);
  }

  /** The marks by which a driver knows an information sector. */
  lemma FsInfoMarks(free: nat, next: nat)
    ensures var s := FsInfo(free, next);
      s[0..4] == [0x52, 0x52, 0x61, 0x41] && s[484..488] == [0x72, 0x72, 0x41, 0x61] && s[510..512] == [0x55, 0xaa]
  {
  }

  /** How many entries from `lo` up to `hi` are zero. */
  ghost function ZeroEntries(chains: seq<Chain>, lo: nat, hi: nat): nat
    requires Ordered(chains) && lo <= hi
    decreases hi
  {
    if lo == hi then 0 else ZeroEntries(chains, lo, hi - 1) + if FatValue(chains, hi - 1) == 0 then 1 else 0
  }
}
