/** The read-only Wii disk: metadata sectors, a synthesized FAT and source extents behind one `ReadAt`. */
module WiiDisk {
  import opened Basics
  import opened Bytes
  import opened Search
  import opened WiiGeometry
  import opened WiiFat
  import opened WiiLayout

  datatype Disk = Disk(
    size: int,
    sectorsPerCluster: int,
    metadata: map<int, seq<byte>>,
    fatStart: int,
    fatSectors: int,
    chains: seq<Chain>,
    extents: seq<Extent>)

  // ---- The flat image ----

  /** The table sector that a disk sector shows, in the first or the second copy. */
  function FatSectorIndex(d: Disk, sector: int): (r: Option<nat>)
    ensures r.Some? <==> d.fatSectors > 0 && d.fatStart <= sector < d.fatStart + 2 * d.fatSectors
    ensures r.Some? ==>
      r.value < d.fatSectors && (sector == d.fatStart + r.value || sector == d.fatStart + d.fatSectors + r.value)
  {
    var relative := sector - d.fatStart;
    if 0 <= relative < d.fatSectors then Some(relative)
    else if 0 <= relative - d.fatSectors < d.fatSectors then Some(relative - d.fatSectors)
    else None
  }

  ghost predicate Ascending(extents: seq<Extent>) {
    && (forall i :: 0 <= i < |extents| ==> extents[i].length > 0)
    && (forall i, j :: 0 <= i < j < |extents| ==> extents[i].End() <= extents[j].start)
  }

  /** Extents leave no gap between them, so the only gaps are before the first and after the last. */
  ghost predicate Consecutive(extents: seq<Extent>, payload: int) {
    && (extents != [] ==> extents[0].start == payload)
    && (forall i :: 0 < i < |extents| ==> extents[i].start == extents[i - 1].End())
  }

  /** Metadata sectors are whole and outside the table; the payload lies behind both. */
  ghost predicate WellFormed(d: Disk, payload: int) {
    && TableClear(d) && Ascending(d.extents) && Consecutive(d.extents, payload) && payload % SECTOR_SIZE == 0
    && (d.fatStart + 2 * d.fatSectors) * SECTOR_SIZE <= payload
    && (forall s :: s in d.metadata ==> |d.metadata[s]| == SECTOR_SIZE && (s + 1) * SECTOR_SIZE <= payload)
    && (forall i :: 0 <= i < |d.extents| ==> GoodExtent(d.extents[i], payload))
  }

  /** No metadata sector hides a sector of the table. */
  ghost predicate TableClear(d: Disk) {
    && Ordered(d.chains) && d.fatStart >= 0 && d.fatSectors > 0
    && (forall s :: s in d.metadata ==> s < d.fatStart || s >= d.fatStart + 2 * d.fatSectors)
  }

  ghost predicate GoodExtent(e: Extent, payload: int) {
    && e.start >= payload
    && (e.Mapped? ==> 0 <= e.sourceOffset && e.sourceOffset + e.length <= e.source.length)
  }

  /** One byte of the disk. */
  ghost function ImageByte(d: Disk, store: Store, pos: nat): byte
    requires Ordered(d.chains)
  {
    var sector, inSector := pos / SECTOR_SIZE, pos % SECTOR_SIZE;
    if sector in d.metadata then if inSector < |d.metadata[sector]| then d.metadata[sector][inSector] else 0
    else match FatSectorIndex(d, sector)
      case Some(i) => FatByte(d.chains, i * FAT_SECTOR + inSector)
      case None => Content(d.extents, store, pos)
  }

  lemma InSectors(first: nat, offset: nat)
    ensures (first * SECTOR_SIZE + offset) / SECTOR_SIZE == first + offset / SECTOR_SIZE
    ensures (first * SECTOR_SIZE + offset) % SECTOR_SIZE == offset % SECTOR_SIZE
  {
  }

  /** Both copies of the table read as the flat table at every byte, and so alike. */
  lemma FatCopiesAgree(d: Disk, store: Store, copy: nat, offset: nat)
    requires TableClear(d) && offset < d.fatSectors * SECTOR_SIZE
    requires copy == d.fatStart || copy == d.fatStart + d.fatSectors
    ensures ImageByte(d, store, copy * SECTOR_SIZE + offset) == FatByte(d.chains, offset)
  {
    InSectors(copy, offset);
    var i := offset / SECTOR_SIZE;
    assert FatSectorIndex(d, copy + i) == Some(i);
    assert offset == i * FAT_SECTOR + offset % SECTOR_SIZE;
  }

  // ---- Reading ----

  datatype ReadError = NoError | EndOfDisk | SourceFailed

  /** Binary search for the first extent that ends beyond a position. */
  function FindExtent(extents: seq<Extent>, pos: int): (i: nat)
    requires Ascending(extents)
    ensures i == ExtentAt(extents, pos)
  {
    var beyond := (i: nat) => i < |extents| && extents[i].End() > pos;
    assert Upward(|extents|, beyond) by {
      forall i: nat, j: nat | i <= j < |extents| && beyond(i) ensures beyond(j) {
        assert i == j || extents[i].End() <= extents[j].start;
      }
    }
    var i := FirstIndex(|extents|, beyond);
    assert forall k :: 0 <= k < i ==> extents[k].End() <= pos by {
      forall k | 0 <= k < i ensures extents[k].End() <= pos {
        assert !beyond(k);
      }
    }
    FirstIsExtentAt(extents, pos, i);
    i
  }

  lemma FirstIsExtentAt(extents: seq<Extent>, pos: int, i: nat)
    requires i <= |extents| && (i < |extents| ==> extents[i].End() > pos)
    requires forall k :: 0 <= k < i ==> extents[k].End() <= pos
    ensures i == ExtentAt(extents, pos)
  {
  }

  lemma InOrder(extents: seq<Extent>, i: nat, j: nat)
    requires Ascending(extents) && j < |extents|
    ensures i < j ==> extents[i].End() <= extents[j].start
  {
  }

  lemma FollowsOn(extents: seq<Extent>, payload: int, i: nat)
    requires Consecutive(extents, payload) && i < |extents|
    ensures extents[i].start == if i == 0 then payload else extents[i - 1].End()
  {
  }

  ghost predicate AllSourcesOnline(d: Disk, store: Store) {
    forall i :: 0 <= i < |d.extents| && d.extents[i].Mapped? ==> Online(store, d.extents[i].source)
  }

  /** A stretch of the flat disk. */
  ghost function Image(d: Disk, store: Store, off: nat, n: nat): (s: seq<byte>)
    requires Ordered(d.chains)
    ensures |s| == n
  {
    seq<byte>(n, i requires 0 <= i < n => ImageByte(d, store, off + i))
  }

  /** Reading in pieces gives the same bytes as reading at once. */
  lemma ImageSplit(d: Disk, store: Store, off: nat, n: nat, m: nat)
    requires Ordered(d.chains)
    ensures Image(d, store, off, n + m) == Image(d, store, off, n) + Image(d, store, off + n, m)
  {
    var whole, pieces := Image(d, store, off, n + m), Image(d, store, off, n) + Image(d, store, off + n, m);
    forall i | 0 <= i < n + m ensures whole[i] == pieces[i] {
      assert i >= n ==> off + i == off + n + (i - n);
    }
  }

  lemma IsImage(d: Disk, store: Store, off: nat, data: seq<byte>)
    requires Ordered(d.chains) && forall i :: 0 <= i < |data| ==> data[i] == ImageByte(d, store, off + i)
    ensures data == Image(d, store, off, |data|)
  {
  }

  /** The first `n` bytes of the buffer are those of the disk from `off` on. */
  ghost predicate Delivered(d: Disk, store: Store, off: nat, p: seq<byte>, n: nat)
    requires Ordered(d.chains)
  {
    n <= |p| && p[..n] == Image(d, store, off, n)
  }

  /** Reads like one flat image: everything asked for, or a correct prefix and a source failure. */
  method ReadAt(d: Disk, p: array<byte>, off: int, store: Store, reliable: bool, ghost payload: int)
    returns (n: nat, err: ReadError)
    requires WellFormed(d, payload)
    modifies p
    ensures err == EndOfDisk <==> off < 0 || p.Length > d.size - off
    ensures err == EndOfDisk ==> n == 0 && p[..] == old(p[..])
    ensures err != EndOfDisk ==> Delivered(d, store, off, p[..], n)
    ensures err == NoError ==> n == p.Length
    ensures reliable && AllSourcesOnline(d, store) ==> err != SourceFailed
  {
    if off < 0 || p.Length > d.size - off { return 0, EndOfDisk; }
    n, err := 0, NoError;
    while n < p.Length && err == NoError
      invariant Delivered(d, store, off, p[..], n)
      invariant err != EndOfDisk
      invariant reliable && AllSourcesOnline(d, store) ==> err == NoError
      decreases p.Length - n, err == NoError
    {
      n, err := ReadNext(d, p, off, n, store, reliable, payload);
    }
  }

  /** One piece of a read: metadata, a table sector, a gap or an extent. */
  method ReadNext(d: Disk, p: array<byte>, off: nat, done: nat, store: Store, reliable: bool, ghost payload: int)
    returns (n: nat, err: ReadError)
    requires WellFormed(d, payload) && done < p.Length && p.Length <= d.size - off
    requires Delivered(d, store, off, p[..], done)
    modifies p
    ensures done <= n <= p.Length && Delivered(d, store, off, p[..], n)
    ensures err == SourceFailed || (err == NoError && n > done)
    ensures reliable && AllSourcesOnline(d, store) ==> err == NoError
  {
    var pos := off + done;
    var sector := pos / SECTOR_SIZE;
    err := NoError;
    if sector in d.metadata {
      n := ReadMetadata(d, p, off, done, store, payload);
    } else if FatSectorIndex(d, sector).Some? {
      n := ReadFat(d, p, off, done, store, payload);
    } else {
      n, err := ReadPayload(d, p, off, done, store, reliable, payload);
    }
  }

  method ReadPayload(d: Disk, p: array<byte>, off: nat, done: nat, store: Store, reliable: bool, ghost payload: int)
    returns (n: nat, err: ReadError)
    requires WellFormed(d, payload) && done < p.Length && (off + done) / SECTOR_SIZE !in d.metadata
    requires FatSectorIndex(d, (off + done) / SECTOR_SIZE) == None
    requires Delivered(d, store, off, p[..], done)
    modifies p
    ensures done <= n <= p.Length && Delivered(d, store, off, p[..], n)
    ensures err == SourceFailed || (err == NoError && n > done)
    ensures reliable && AllSourcesOnline(d, store) ==> err == NoError
  {
    err := NoError;
    var index := FindExtent(d.extents, off + done);
    if index == |d.extents| || d.extents[index].start > off + done {
      n := ReadGap(d, p, off, done, store, payload);
    } else {
      n, err := ReadExtent(d, p, off, done, index, store, reliable, payload);
    }
  }

  /** Appending correct bytes keeps the delivered prefix correct. */
  lemma Deliver(d: Disk, store: Store, off: nat, before: seq<byte>, done: nat, data: seq<byte>)
    requires Ordered(d.chains) && Delivered(d, store, off, before, done) && done + |data| <= |before|
    requires data == Image(d, store, off + done, |data|)
    ensures Delivered(d, store, off, Patch(before, done, data), done + |data|)
  {
    ImageSplit(d, store, off, done, |data|);
    assert Patch(before, done, data)[..done + |data|] == before[..done] + data;
  }

  method ReadMetadata(d: Disk, p: array<byte>, off: nat, done: nat, store: Store, ghost payload: int) returns (n: nat)
    requires WellFormed(d, payload) && done < p.Length && (off + done) / SECTOR_SIZE in d.metadata
    requires Delivered(d, store, off, p[..], done)
    modifies p
    ensures done < n <= p.Length && Delivered(d, store, off, p[..], n)
  {
    var pos := off + done;
    var inSector := pos % SECTOR_SIZE;
    var count := MinNat(p.Length - done, SECTOR_SIZE - inSector);
    var data := d.metadata[pos / SECTOR_SIZE][inSector..inSector + count];
    forall i | 0 <= i < count ensures data[i] == ImageByte(d, store, pos + i) {
      SameUnit(pos, i, SECTOR_SIZE);
    }
    IsImage(d, store, pos, data);
    Deliver(d, store, off, p[..], done, data);
    CopyInto(p, done, data);
    n := done + count;
  }

  lemma FatSlice(d: Disk, store: Store, pos: nat, table: nat, sector: seq<byte>, i: nat)
    requires Ordered(d.chains) && pos / SECTOR_SIZE !in d.metadata
    requires FatSectorIndex(d, pos / SECTOR_SIZE) == Some(table)
    requires FatImage(sector, d.chains, table * FAT_SECTOR) && pos % SECTOR_SIZE + i < SECTOR_SIZE
    ensures ImageByte(d, store, pos + i) == sector[pos % SECTOR_SIZE + i]
  {
    SameUnit(pos, i, SECTOR_SIZE);
    assert table * FAT_SECTOR + (pos + i) % SECTOR_SIZE == table * FAT_SECTOR + (pos % SECTOR_SIZE + i);
  }

  lemma FatSlices(d: Disk, store: Store, pos: nat, table: nat, sector: seq<byte>, count: nat)
    requires Ordered(d.chains) && pos / SECTOR_SIZE !in d.metadata
    requires FatSectorIndex(d, pos / SECTOR_SIZE) == Some(table)
    requires FatImage(sector, d.chains, table * FAT_SECTOR) && pos % SECTOR_SIZE + count <= SECTOR_SIZE
    ensures sector[pos % SECTOR_SIZE..pos % SECTOR_SIZE + count] == Image(d, store, pos, count)
  {
    var data := sector[pos % SECTOR_SIZE..pos % SECTOR_SIZE + count];
    forall i | 0 <= i < count ensures data[i] == ImageByte(d, store, pos + i) {
      FatSlice(d, store, pos, table, sector, i);
    }
    IsImage(d, store, pos, data);
  }

  method ReadFat(d: Disk, p: array<byte>, off: nat, done: nat, store: Store, ghost payload: int) returns (n: nat)
    requires WellFormed(d, payload) && done < p.Length && (off + done) / SECTOR_SIZE !in d.metadata
    requires FatSectorIndex(d, (off + done) / SECTOR_SIZE).Some?
    requires Delivered(d, store, off, p[..], done)
    modifies p
    ensures done < n <= p.Length && Delivered(d, store, off, p[..], n)
  {
    var pos := off + done;
    var inSector := pos % SECTOR_SIZE;
    var count := MinNat(p.Length - done, SECTOR_SIZE - inSector);
    var fatSector := FatSectorIndex(d, pos / SECTOR_SIZE).value;
    var scratch := new byte[FAT_SECTOR](_ => 0);
    FillFatSector(d.chains, scratch, fatSector);
    FatSlices(d, store, pos, fatSector, scratch[..], count);
    var data := scratch[..][inSector..inSector + count];
    Deliver(d, store, off, p[..], done, data);
    CopyInto(p, done, data);
    n := done + count;
  }

  lemma GapReadsZero(d: Disk, store: Store, payload: int, pos: nat, k: nat)
    requires WellFormed(d, payload) && pos % SECTOR_SIZE + k < SECTOR_SIZE
    requires var i := ExtentAt(d.extents, pos); i == |d.extents| || d.extents[i].start > pos
    ensures Content(d.extents, store, pos + k) == 0
  {
    SameUnit(pos, k, SECTOR_SIZE);
    var i, j := ExtentAt(d.extents, pos), ExtentAt(d.extents, pos + k);
    if i < |d.extents| {
      FollowsOn(d.extents, payload, i);
      assert pos / SECTOR_SIZE < payload / SECTOR_SIZE;
    }
  }

  /** Outside every extent a sector reads as zeros up to its end, or up to the next extent in it. */
  method ReadGap(d: Disk, p: array<byte>, off: nat, done: nat, store: Store, ghost payload: int) returns (n: nat)
    requires WellFormed(d, payload) && done < p.Length && (off + done) / SECTOR_SIZE !in d.metadata
    requires FatSectorIndex(d, (off + done) / SECTOR_SIZE) == None
    requires var i := ExtentAt(d.extents, off + done); i == |d.extents| || d.extents[i].start > off + done
    requires Delivered(d, store, off, p[..], done)
    modifies p
    ensures done < n <= p.Length && Delivered(d, store, off, p[..], n)
  {
    var pos := off + done;
    var count := MinNat(p.Length - done, SECTOR_SIZE - pos % SECTOR_SIZE);
    var data := seq<byte>(count, _ => 0);
    forall i | 0 <= i < count ensures data[i] == ImageByte(d, store, pos + i) {
      SameUnit(pos, i, SECTOR_SIZE);
      GapReadsZero(d, store, payload, pos, i);
    }
    IsImage(d, store, pos, data);
    Deliver(d, store, off, p[..], done, data);
    CopyInto(p, done, data);
    n := done + count;
  }

  lemma ExtentSlice(d: Disk, store: Store, payload: int, pos: nat, index: nat, data: seq<byte>)
    requires WellFormed(d, payload)
    requires index < |d.extents| && d.extents[index].start <= pos && pos + |data| <= d.extents[index].End()
    requires forall i :: 0 <= i < |data| ==> data[i] == ExtentByte(d.extents[index], store, pos + i)
    ensures data == Image(d, store, pos, |data|)
  {
    forall i | 0 <= i < |data| ensures data[i] == ImageByte(d, store, pos + i) {
      InsideExtent(d, store, payload, index, pos + i);
    }
    IsImage(d, store, pos, data);
  }

  /** Inside an extent: zeros, or a checked source file read that may stop early. */
  method ReadExtent(d: Disk, p: array<byte>, off: nat, done: nat, index: nat, store: Store, reliable: bool,
                    ghost payload: int)
    returns (n: nat, err: ReadError)
    requires WellFormed(d, payload) && done < p.Length && index == ExtentAt(d.extents, off + done) < |d.extents|
    requires d.extents[index].start <= off + done
    requires Delivered(d, store, off, p[..], done)
    modifies p
    ensures done <= n <= p.Length && Delivered(d, store, off, p[..], n)
    ensures err != EndOfDisk && (err == NoError ==> n > done)
    ensures reliable && AllSourcesOnline(d, store) ==> err == NoError
  {
    var pos := off + done;
    var e := d.extents[index];
    var count := MinNat(p.Length - done, e.End() - pos);
    var data;
    err := NoError;
    if e.Zero? {
      data := seq<byte>(count, _ => 0);
    } else if !Online(store, e.source) {
      return done, SourceFailed;
    } else {
      var from := e.sourceOffset + pos - e.start;
      var failed: bool := *;
      if failed && !reliable {
        var partial: nat :| partial <= count;
        count, err := partial, SourceFailed;
      }
      data := store[e.source.path][from..from + count];
    }
    ExtentSlice(d, store, payload, pos, index, data);
    Deliver(d, store, off, p[..], done, data);
    CopyInto(p, done, data);
    n := done + count;
  }

  /** Every byte of an extent is payload, and no other extent holds it. */
  lemma InsideExtent(d: Disk, store: Store, payload: int, index: nat, pos: nat)
    requires WellFormed(d, payload) && index < |d.extents| && d.extents[index].start <= pos < d.extents[index].End()
    ensures ImageByte(d, store, pos) == ExtentByte(d.extents[index], store, pos)
  {
    var sector := pos / SECTOR_SIZE;
    assert sector * SECTOR_SIZE >= payload;
    assert sector !in d.metadata && FatSectorIndex(d, sector) == None;
    var j := ExtentAt(d.extents, pos);
    InOrder(d.extents, j, index);
  }
}
