/** Reading a CISO disc image: a block map over the stored blocks, presented as one sparse image. */
module Ciso {
  import opened Basics
  import opened Bytes

  const HEADER: int := 0x8000
  const BLOCK: int := 0x20_0000
  const MAP_SIZE: nat := 1024
  const MAGIC: seq<byte> := [0x43, 0x49, 0x53, 0x4f]

  /** How many of the first `i` blocks are stored. */
  function Rank(blocks: seq<byte>, i: nat): nat
    requires i <= |blocks|
  {
    if i == 0 then 0 else Rank(blocks, i - 1) + if blocks[i - 1] != 0 then 1 else 0
  }

  lemma {:induction false} RankGrows(blocks: seq<byte>, i: nat, j: nat)
    requires i <= j <= |blocks|
    ensures Rank(blocks, i) <= Rank(blocks, j) <= Rank(blocks, i) + j - i
    decreases j
  {
    if i < j {
      RankGrows(blocks, i, j - 1);
    }
  }

  datatype Opened = Reader(blocks: seq<byte>) | Truncated | Unsupported | InvalidMap

  /** The file has a header, the right geometry, at least one stored block, and room for all of them. */
  ghost predicate Accepted(file: seq<byte>) {
    && |file| >= 0x8000 && file[..4] == [0x43, 0x49, 0x53, 0x4f] && FromLittleEndian(file[4..8]) == 0x20_0000
    && Rank(file[8..1032], 1024) > 0 && 0x8000 + Rank(file[8..1032], 1024) * 0x20_0000 <= |file|
  }

  method NewReader(file: seq<byte>) returns (r: Opened)
    ensures r.Reader? <==> Accepted(file)
    ensures r.Reader? ==> r.blocks == file[8..1032]
  {
    if |file| < HEADER { return Truncated; }
    if file[..4] != MAGIC || FromLittleEndian(file[4..8]) != BLOCK { return Unsupported; }
    var blocks := file[8..8 + MAP_SIZE];
    var present := 0;
    for i := 0 to |blocks|
      invariant present == Rank(blocks, i)
    {
      if blocks[i] != 0 { present := present + 1; }
    }
    if present == 0 || HEADER + present * BLOCK > |file| { return InvalidMap; }
    r := Reader(blocks);
  }

  /** The map comes from an accepted file. */
  ghost predicate Valid(blocks: seq<byte>, file: seq<byte>) {
    Accepted(file) && blocks == file[8..1032]
  }

  ghost predicate LastStored(blocks: seq<byte>, last: int) {
    0 <= last < |blocks| && blocks[last] != 0 && forall i :: last < i < |blocks| ==> blocks[i] == 0
  }

  /** The end of the last stored block among the first `n`. */
  function End(blocks: seq<byte>, n: nat): nat
    requires n <= |blocks|
  {
    if n == 0 then 0 else if blocks[n - 1] != 0 then n * BLOCK else End(blocks, n - 1)
  }

  lemma {:induction false} EndBehindZeros(blocks: seq<byte>, n: nat, k: nat)
    requires k <= n <= |blocks| && forall i :: k <= i < n ==> blocks[i] == 0
    ensures End(blocks, n) == End(blocks, k)
    decreases n
  {
    if k < n {
      EndBehindZeros(blocks, n - 1, k);
    }
  }

  /** Searches from the last block down. */
  method LogicalSize(blocks: seq<byte>) returns (size: nat)
    ensures size == End(blocks, |blocks|)
    ensures size > 0 ==> size % BLOCK == 0 && LastStored(blocks, size / BLOCK - 1)
    ensures size == 0 ==> forall i :: 0 <= i < |blocks| ==> blocks[i] == 0
  {
    var index := |blocks| - 1;
    while index >= 0
      invariant -1 <= index < |blocks|
      invariant forall i :: index < i < |blocks| ==> blocks[i] == 0
    {
      if blocks[index] != 0 {
        EndBehindZeros(blocks, |blocks|, index + 1);
        return (index + 1) * BLOCK;
      }
      index := index - 1;
    }
    EndBehindZeros(blocks, |blocks|, 0);
    size := 0;
  }

  /** Where a stored block lies in the file: after the stored blocks before it. */
  function Physical(blocks: seq<byte>, block: nat): int
    requires block <= |blocks|
  {
    HEADER + Rank(blocks, block) * BLOCK
  }

  /** Distinct stored blocks use distinct ranges, and all of them lie inside the file. */
  lemma StoredBlocksDisjoint(blocks: seq<byte>, file: seq<byte>, i: nat, j: nat)
    requires Valid(blocks, file) && i < j < |blocks| && blocks[i] != 0 && blocks[j] != 0
    ensures HEADER <= Physical(blocks, i) && Physical(blocks, i) + BLOCK <= Physical(blocks, j)
    ensures Physical(blocks, j) + BLOCK <= |file|
  {
    RankGrows(blocks, i + 1, j);
    StoredInside(blocks, file, j);
  }

  lemma StoredInside(blocks: seq<byte>, file: seq<byte>, i: nat)
    requires Valid(blocks, file) && i < |blocks| && blocks[i] != 0
    ensures HEADER <= Physical(blocks, i) && Physical(blocks, i) + BLOCK <= |file|
  {
    RankGrows(blocks, i + 1, |blocks|);
  }

  /** One byte of the sparse image. */
  ghost function SparseByte(blocks: seq<byte>, file: seq<byte>, pos: nat): byte {
    var block := pos / BLOCK;
    if block >= |blocks| || blocks[block] == 0 then 0
    else
      var at := Physical(blocks, block) + pos % BLOCK;
      if at < |file| then file[at] else 0
  }

  // ---- What a converter stores is what is read ----

  /** The blocks of an image that the map marks, one after another. */
  ghost function Packed(image: seq<byte>, blocks: seq<byte>, n: nat): seq<byte>
    requires n <= |blocks| && n * 0x20_0000 <= |image|
  {
    if n == 0 then []
    else
      Packed(image, blocks, n - 1)
      + if blocks[n - 1] != 0 then image[(n - 1) * 0x20_0000..n * 0x20_0000] else []
  }

  lemma {:induction false} PackedHolds(image: seq<byte>, blocks: seq<byte>, n: nat)
    requires n <= |blocks| && n * 0x20_0000 <= |image|
    ensures |Packed(image, blocks, n)| == Rank(blocks, n) * 0x20_0000
  {
    if n > 0 {
      PackedHolds(image, blocks, n - 1);
    }
  }

  lemma {:induction false} PackedAt(image: seq<byte>, blocks: seq<byte>, n: nat, i: nat, j: nat)
    requires i < n <= |blocks| && n * 0x20_0000 <= |image| && blocks[i] != 0 && j < 0x20_0000
    ensures var at := Rank(blocks, i) * 0x20_0000 + j;
      at < |Packed(image, blocks, n)| && Packed(image, blocks, n)[at] == image[i * 0x20_0000 + j]
    decreases n
  {
    PackedHolds(image, blocks, n - 1);
    if i < n - 1 {
      PackedAt(image, blocks, n - 1, i, j);
    } else {
      assert image[i * 0x20_0000..n * 0x20_0000][j] == image[i * 0x20_0000 + j];
    }
  }

  /** The map leaves out only blocks of zeros, and none lies behind the image. */
  ghost predicate Describes(image: seq<byte>, blocks: seq<byte>) {
    && |image| % 0x20_0000 == 0 && |image| <= |blocks| * 0x20_0000
    && (forall i :: 0 <= i < |blocks| && blocks[i] != 0 ==> (i + 1) * 0x20_0000 <= |image|)
    && forall pos :: 0 <= pos < |image| && blocks[pos / 0x20_0000] == 0 ==> image[pos] == 0
  }

  /** A header, a map and the marked blocks of an image, one after another. */
  ghost predicate Stores(file: seq<byte>, image: seq<byte>, blocks: seq<byte>) {
    && |file| >= 0x8000 && file[..8] == [0x43, 0x49, 0x53, 0x4f, 0, 0, 0x20, 0] && file[8..1032] == blocks
    && Describes(image, blocks) && file[0x8000..] == Packed(image, blocks, |image| / 0x20_0000)
  }

  /** A stored image is accepted, unless it is empty. */
  lemma PackedIsAccepted(file: seq<byte>, image: seq<byte>, blocks: seq<byte>)
    requires Stores(file, image, blocks) && exists i :: 0 <= i < |blocks| && blocks[i] != 0
    ensures Valid(blocks, file)
  {
    var n := |image| / 0x20_0000;
    var i :| 0 <= i < |blocks| && blocks[i] != 0;
    RankGrows(blocks, i + 1, n);
    RankStops(blocks, n);
    PackedHolds(image, blocks, n);
    assert file[..4] == file[..8][..4] && file[4..8] == file[..8][4..8] == [0, 0, 0x20, 0];
    FourByteWeights(file[4..8]);
  }

  /** A stored image is what is read back, with zeros behind it. */
  lemma PackedReadsBack(file: seq<byte>, image: seq<byte>, blocks: seq<byte>, pos: nat)
    requires Stores(file, image, blocks) && Valid(blocks, file)
    ensures SparseByte(blocks, file, pos) == if pos < |image| then image[pos] else 0
  {
    var block, inBlock := pos / 0x20_0000, pos % 0x20_0000;
    if block < |blocks| && blocks[block] != 0 {
      PackedAt(image, blocks, |image| / 0x20_0000, block, inBlock);
      DataAt(file, Rank(blocks, block) * 0x20_0000 + inBlock);
    }
  }

  lemma DataAt(file: seq<byte>, at: nat)
    requires 0x8000 + at < |file|
    ensures file[0x8000..][at] == file[0x8000 + at]
  {
  }

  lemma RankStops(blocks: seq<byte>, n: nat)
    requires n <= |blocks| && forall i :: n <= i < |blocks| ==> blocks[i] == 0
    ensures Rank(blocks, |blocks|) == Rank(blocks, n)
  {
    for k := n to |blocks|
      invariant Rank(blocks, k) == Rank(blocks, n)
    {
    }
  }

  datatype ReadError = NoError | Eof | FileFailed

  /** Reads like the sparse image up to its end; a read that reaches beyond it is short and reports the end. */
  method ReadAt(blocks: seq<byte>, file: seq<byte>, p: array<byte>, off: int, reliable: bool)
    returns (n: nat, err: ReadError)
    requires Valid(blocks, file)
    modifies p
    ensures n <= p.Length && (n > 0 ==> off >= 0)
    ensures forall k :: 0 <= k < n ==> p[k] == SparseByte(blocks, file, off + k)
    ensures off < 0 || off >= End(blocks, |blocks|) ==> n == 0 && err == Eof
    ensures 0 <= off < End(blocks, |blocks|) && err != FileFailed ==>
      n == MinNat(p.Length, End(blocks, |blocks|) - off) && (err == Eof <==> n < p.Length)
    ensures reliable ==> err != FileFailed
  {
    var size := LogicalSize(blocks);
    if off < 0 || off >= size { return 0, Eof; }
    n := 0;
    while n < p.Length && off + n < size
      invariant n <= p.Length && off + n <= size && size % BLOCK == 0 && size <= |blocks| * BLOCK
      invariant forall k :: 0 <= k < n ==> p[k] == SparseByte(blocks, file, off + k)
      decreases p.Length - n
    {
      var count, ok := ReadBlock(blocks, file, p, n, off + n, reliable);
      n := n + count;
      if !ok { return n, FileFailed; }
    }
    err := if n != p.Length then Eof else NoError;
  }

  /** The part of a read that falls into one block: zeros, or the stored block found by counting the ones before it. */
  method ReadBlock(blocks: seq<byte>, file: seq<byte>, p: array<byte>, done: nat, position: nat, reliable: bool)
    returns (count: nat, ok: bool)
    requires Valid(blocks, file) && done < p.Length && position / BLOCK < |blocks|
    modifies p
    ensures done + count <= p.Length && position % BLOCK + count <= BLOCK
    ensures forall k :: 0 <= k < done ==> p[k] == old(p[k])
    ensures forall k :: done <= k < done + count ==> p[k] == SparseByte(blocks, file, position + (k - done))
    ensures ok ==> count > 0
    ensures reliable ==> ok
  {
    var block, inBlock := position / BLOCK, position % BLOCK;
    count, ok := MinNat(p.Length - done, BLOCK - inBlock), true;
    var data;
    if blocks[block] == 0 {
      data := seq<byte>(count, _ => 0);
    } else {
      var physicalIndex := 0;
      for index := 0 to block
        invariant physicalIndex == Rank(blocks, index)
      {
        if blocks[index] != 0 { physicalIndex := physicalIndex + 1; }
      }
      StoredInside(blocks, file, block);
      var at := HEADER + physicalIndex * BLOCK + inBlock;
      var failed: bool := *;
      if failed && !reliable {
        var partial: nat :| partial <= count;
        count, ok := partial, false;
      }
      data := file[at..at + count];
    }
    forall k | 0 <= k < count ensures data[k] == SparseByte(blocks, file, position + k) {
      SameUnit(position, k, BLOCK);
    }
    ghost var before := p[..];
    CopyInto(p, done, data);
    forall k | 0 <= k < done + count
      ensures p[k] == if k < done then before[k] else data[k - done]
    {
      assert p[..][k] == Patch(before, done, data)[k];
    }
  }
}
