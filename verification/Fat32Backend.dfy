/** Reads and writes of a virtual FAT32 disk: save cards over metadata over read-only sources over zeros. */
module Fat32Backend {
  import opened Basics
  import opened Bytes
  import opened VirtualExtents

  type Cards = map<string, seq<byte>>

  /** Source files whose identity still verifies, with their contents. */
  type Files = map<string, seq<byte>>

  // ---- The disk as one flat image ----

  ghost predicate Separate(a: seq<Span>, b: seq<Span>) {
    forall i, j :: 0 <= i < |a| && 0 <= j < |b| ==> Disjoint(a[i], b[j])
  }

  ghost predicate StorageInBounds(l: Layout) {
    forall i :: 0 <= i < |l.meta| ==> l.meta[i].storage >= 0 && l.meta[i].storage + l.meta[i].length <= |l.metadata|
  }

  ghost predicate Ordered(l: Layout) {
    InOrder(MetaSpans(l.meta)) && InOrder(SourceSpans(l.sources)) && InOrder(SaveSpans(l.saves))
  }

  /** What validation establishes; the order of the lists is not among it. */
  ghost predicate Validated(l: Layout) {
    && InBounds(l) && OneExtentPerObject(l.saves) && StorageInBounds(l)
    && Separate(SaveSpans(l.saves), MetaSpans(l.meta)) && Separate(SaveSpans(l.saves), SourceSpans(l.sources))
    && Separate(MetaSpans(l.meta), SourceSpans(l.sources))
  }

  /** A validated map whose lists are in order, as the binary searches need them. */
  ghost predicate WellFormed(l: Layout) {
    Validated(l) && Ordered(l)
  }

  ghost function ByteAt(s: seq<byte>, i: int): byte { if 0 <= i < |s| then s[i] else 0 }

  ghost function CardByte(cards: Cards, e: SaveExtent, pos: int): byte {
    if e.objectId in cards then ByteAt(cards[e.objectId], e.cardOffset + pos - e.offset) else 0
  }

  ghost function SourceByte(files: Files, e: SourceExtent, pos: int): byte {
    if e.path in files then ByteAt(files[e.path], e.sourceOffset + pos - e.offset) else 0
  }

  ghost function BelowSaves(l: Layout, files: Files, pos: int): byte {
    match Holder(MetaSpans(l.meta), pos)
    case Some(i) => ByteAt(l.metadata, l.meta[i].storage + pos - l.meta[i].offset)
    case None =>
      match Holder(SourceSpans(l.sources), pos)
      case Some(i) => SourceByte(files, l.sources[i], pos)
      case None => 0
  }

  /** One byte of the disk: the save card, else the metadata, else the source, else zero. */
  ghost function ImageByte(l: Layout, cards: Cards, files: Files, pos: int): byte {
    match Holder(SaveSpans(l.saves), pos)
    case Some(i) => CardByte(cards, l.saves[i], pos)
    case None => BelowSaves(l, files, pos)
  }

  /** A stretch of the flat disk. */
  ghost function Image(l: Layout, cards: Cards, files: Files, off: int, n: nat): (s: seq<byte>)
    ensures |s| == n
  {
    seq<byte>(n, i requires 0 <= i < n => ImageByte(l, cards, files, off + i))
  }

  /** Splitting a read gives the same bytes. */
  lemma ImageSplit(l: Layout, cards: Cards, files: Files, off: int, n: nat, m: nat)
    ensures Image(l, cards, files, off, n + m) == Image(l, cards, files, off, n) + Image(l, cards, files, off + n, m)
  {
    var whole := Image(l, cards, files, off, n + m);
    var pieces := Image(l, cards, files, off, n) + Image(l, cards, files, off + n, m);
    forall i | 0 <= i < n + m ensures whole[i] == pieces[i] {
      assert i >= n ==> off + i == off + n + (i - n);
    }
  }

  lemma IsImage(l: Layout, cards: Cards, files: Files, off: int, data: seq<byte>)
    requires forall i :: 0 <= i < |data| ==> data[i] == ImageByte(l, cards, files, off + i)
    ensures data == Image(l, cards, files, off, |data|)
  {
  }

  ghost predicate Delivered(l: Layout, cards: Cards, files: Files, off: int, p: seq<byte>, n: nat) {
    n <= |p| && p[..n] == Image(l, cards, files, off, n)
  }

  lemma Deliver(l: Layout, cards: Cards, files: Files, off: int, before: seq<byte>, done: nat, data: seq<byte>)
    requires Delivered(l, cards, files, off, before, done) && done + |data| <= |before|
    requires data == Image(l, cards, files, off + done, |data|)
    ensures Delivered(l, cards, files, off, Patch(before, done, data), done + |data|)
  {
    ImageSplit(l, cards, files, off, done, |data|);
    assert Patch(before, done, data)[..done + |data|] == before[..done] + data;
  }

  /** A range of one list is not interrupted by the ranges of a list apart from it. */
  lemma Elsewhere(mine: seq<Span>, others: seq<Span>, i: nat, pos: int)
    requires Separate(others, mine) && i < |mine| && mine[i].Holds(pos)
    ensures Holder(others, pos) == None
  {
    forall j | 0 <= j < |others| ensures !others[j].Holds(pos) {
      assert Disjoint(others[j], mine[i]);
    }
  }

  lemma SaveSlice(l: Layout, cards: Cards, files: Files, i: nat, pos: int, data: seq<byte>)
    requires WellFormed(l) && i < |l.saves| && l.saves[i].offset <= pos
    requires pos + |data| <= l.saves[i].offset + l.saves[i].length
    requires forall k :: 0 <= k < |data| ==> data[k] == CardByte(cards, l.saves[i], pos + k)
    ensures data == Image(l, cards, files, pos, |data|)
  {
    forall k | 0 <= k < |data| ensures data[k] == ImageByte(l, cards, files, pos + k) {
      OnlyHolder(SaveSpans(l.saves), pos + k, i);
    }
    IsImage(l, cards, files, pos, data);
  }

  lemma MetadataSlice(l: Layout, cards: Cards, files: Files, i: nat, pos: int, data: seq<byte>)
    requires WellFormed(l) && i < |l.meta| && l.meta[i].offset <= pos
    requires pos + |data| <= l.meta[i].offset + l.meta[i].length
    requires var from := l.meta[i].storage + pos - l.meta[i].offset; data == l.metadata[from..from + |data|]
    ensures data == Image(l, cards, files, pos, |data|)
  {
    forall k | 0 <= k < |data| ensures data[k] == ImageByte(l, cards, files, pos + k) {
      OnlyHolder(MetaSpans(l.meta), pos + k, i);
      Elsewhere(MetaSpans(l.meta), SaveSpans(l.saves), i, pos + k);
    }
    IsImage(l, cards, files, pos, data);
  }

  lemma SourceSlice(l: Layout, cards: Cards, files: Files, i: nat, pos: int, data: seq<byte>)
    requires WellFormed(l) && i < |l.sources|
    requires l.sources[i].offset <= pos && pos + |data| <= l.sources[i].offset + l.sources[i].length
    requires forall k :: 0 <= k < |data| ==> data[k] == SourceByte(files, l.sources[i], pos + k)
    ensures data == Image(l, cards, files, pos, |data|)
  {
    forall k | 0 <= k < |data| ensures data[k] == ImageByte(l, cards, files, pos + k) {
      OnlyHolder(SourceSpans(l.sources), pos + k, i);
      Elsewhere(SourceSpans(l.sources), SaveSpans(l.saves), i, pos + k);
      Elsewhere(SourceSpans(l.sources), MetaSpans(l.meta), i, pos + k);
    }
    IsImage(l, cards, files, pos, data);
  }

  ghost predicate Unheld(l: Layout, pos: int) {
    && Holder(SaveSpans(l.saves), pos) == None && Holder(MetaSpans(l.meta), pos) == None
    && Holder(SourceSpans(l.sources), pos) == None
  }

  lemma ZeroSlice(l: Layout, cards: Cards, files: Files, pos: int, next: int, data: seq<byte>)
    requires Ordered(l) && Unheld(l, pos) && pos + |data| <= next && forall k :: 0 <= k < |data| ==> data[k] == 0
    requires forall i :: 0 <= i < |l.meta| ==> !(pos < MetaSpans(l.meta)[i].start < next)
    requires forall i :: 0 <= i < |l.sources| ==> !(pos < SourceSpans(l.sources)[i].start < next)
    requires forall i :: 0 <= i < |l.saves| ==> !(pos < SaveSpans(l.saves)[i].start < next)
    ensures data == Image(l, cards, files, pos, |data|)
  {
    forall k | 0 <= k < |data| ensures data[k] == ImageByte(l, cards, files, pos + k) {
      StaysUnheld(MetaSpans(l.meta), pos, next, pos + k);
      StaysUnheld(SourceSpans(l.sources), pos, next, pos + k);
      StaysUnheld(SaveSpans(l.saves), pos, next, pos + k);
    }
    IsImage(l, cards, files, pos, data);
  }

  // ---- The save store ----

  /**
   * The cards behind the disk, under an assumption: every call succeeds completely or fails without a
   * trace in the cards. A card on which no write fails midway behaves so; one whose base image cannot
   * be read after the append does not, nor does one whose checkpoint and rollback both fail.
   */
  class SaveStore {
    var cards: Cards
    const reliable: bool

    predicate InRange(id: string, count: int, offset: int)
      reads this
    {
      id in cards && 0 <= offset && offset + count <= |cards[id]|
    }

    constructor (cards: Cards, reliable: bool)
      ensures this.cards == cards && this.reliable == reliable
    {
      this.cards, this.reliable := cards, reliable;
    }

    method ReadSaveAt(id: string, count: nat, offset: int) returns (data: seq<byte>, ok: bool)
      ensures ok ==> InRange(id, count, offset) && |data| == count
      ensures InRange(id, count, offset) ==> |data| <= count && data == cards[id][offset..offset + |data|]
      ensures !InRange(id, count, offset) ==> data == []
      ensures InRange(id, count, offset) && reliable ==> ok
    {
      if !InRange(id, count, offset) { return [], false; }
      var n := count;
      if !reliable { n :| 0 <= n <= count; }
      data, ok := cards[id][offset..offset + n], n == count;
    }

    method WriteSaveAt(id: string, buffer: seq<byte>, offset: int) returns (n: nat, ok: bool)
      modifies this
      ensures ok ==> old(InRange(id, |buffer|, offset)) && n == |buffer|
      ensures ok ==> cards == old(cards)[id := Patch(old(cards)[id], offset, buffer)]
      ensures !ok ==> cards == old(cards) && n == 0
      ensures old(InRange(id, |buffer|, offset)) && reliable ==> ok
    {
      if !InRange(id, |buffer|, offset) { return 0, false; }
      var failed: bool := *;
      if failed && !reliable { return 0, false; }
      cards := cards[id := Patch(cards[id], offset, buffer)];
      n, ok := |buffer|, true;
    }
  }

  /** Every save extent lies on a card of the declared size. */
  ghost predicate CardsFit(l: Layout, cards: Cards) {
    forall i :: 0 <= i < |l.saves| ==>
      l.saves[i].objectId in cards && |cards[l.saves[i].objectId]| == l.saves[i].cardSize
  }

  // ---- Writes, on values ----

  /** The disk after a write inside save extent `i`. */
  function Written(l: Layout, cards: Cards, i: nat, buffer: seq<byte>, offset: int): Cards
    requires i < |l.saves| && l.saves[i].objectId in cards
    requires 0 <= l.saves[i].cardOffset + offset - l.saves[i].offset
    requires l.saves[i].cardOffset + offset - l.saves[i].offset + |buffer| <= |cards[l.saves[i].objectId]|
  {
    var e := l.saves[i];
    cards[e.objectId := Patch(cards[e.objectId], e.cardOffset + offset - e.offset, buffer)]
  }

  ghost predicate InsideSave(l: Layout, i: nat, offset: int, count: nat) {
    i < |l.saves| && l.saves[i].offset <= offset && offset + count <= l.saves[i].offset + l.saves[i].length
  }

  /** A write changes exactly its own bytes of the disk. One extent per object is what makes this so. */
  lemma WriteShowsExactly(l: Layout, cards: Cards, files: Files, i: nat, buffer: seq<byte>, offset: int, pos: int)
    requires WellFormed(l) && CardsFit(l, cards) && InsideSave(l, i, offset, |buffer|)
    ensures CardsFit(l, Written(l, cards, i, buffer, offset))
    ensures ImageByte(l, Written(l, cards, i, buffer, offset), files, pos)
      == if offset <= pos < offset + |buffer| then buffer[pos - offset] else ImageByte(l, cards, files, pos)
  {
    var after := Written(l, cards, i, buffer, offset);
    var h := Holder(SaveSpans(l.saves), pos);
    if offset <= pos < offset + |buffer| {
      OnlyHolder(SaveSpans(l.saves), pos, i);
    } else if h.Some? && h.value != i {
      OtherObject(l.saves, h.value, i);
    }
  }

  /** The disk after is the disk before with exactly these bytes replaced. */
  ghost predicate Overwrites(l: Layout, before: Cards, now: Cards, data: seq<byte>, offset: int) {
    forall pos, files :: ImageByte(l, now, files, pos) == Overwritten(l, before, files, data, offset, pos)
  }

  ghost function Overwritten(l: Layout, before: Cards, files: Files, data: seq<byte>, offset: int, pos: int): byte {
    if offset <= pos < offset + |data| then data[pos - offset] else ImageByte(l, before, files, pos)
  }

  lemma WriteOverwrites(l: Layout, before: Cards, i: nat, buffer: seq<byte>, offset: int)
    requires WellFormed(l) && CardsFit(l, before) && InsideSave(l, i, offset, |buffer|)
    ensures CardsFit(l, Written(l, before, i, buffer, offset))
    ensures Overwrites(l, before, Written(l, before, i, buffer, offset), buffer, offset)
  {
    WriteShowsExactly(l, before, map[], i, buffer, offset, 0);
    forall pos, files
      ensures ImageByte(l, Written(l, before, i, buffer, offset), files, pos)
        == Overwritten(l, before, files, buffer, offset, pos)
    {
      WriteShowsExactly(l, before, files, i, buffer, offset, pos);
    }
  }

  lemma OtherObject(saves: seq<SaveExtent>, i: nat, j: nat)
    requires OneExtentPerObject(saves) && i < |saves| && j < |saves| && i != j
    ensures saves[i].objectId != saves[j].objectId
  {
    assert i < j || j < i;
  }

  /** Two extents on one object: a write through the first also shows at the second. */
  lemma SharedObjectWouldShowTwice() returns (l: Layout, cards: Cards)
    ensures InBounds(l) && StorageInBounds(l) && Ordered(l) && CardsFit(l, cards) && !OneExtentPerObject(l.saves)
    ensures InsideSave(l, 0, 0, 1)
    ensures ImageByte(l, Written(l, cards, 0, [7], 0), map[], 8) == 7 != ImageByte(l, cards, map[], 8)
  {
    var a, b := SaveExtent(0, 4, "card", 0, 4), SaveExtent(8, 4, "card", 0, 4);
    l := Layout(16, [], [], [], [a, b]);
    cards := map["card" := [0, 0, 0, 0]];
    assert l.saves[0].objectId == l.saves[1].objectId;
    OnlyHolder(SaveSpans(l.saves), 8, 1);
  }

  // ---- The backend ----

  datatype ReadError = NoError | EndOfDisk | Closed | SaveFailed | SourceFailed

  datatype WriteError = WriteOk | WriteClosed | ReadOnly | OutsideExtent | CrossesBoundary | StoreFailed

  ghost function RefusalOf(l: Layout, closed: bool, stored: bool, buffer: seq<byte>, offset: int): WriteError {
    var holder := Holder(SaveSpans(l.saves), offset);
    if closed then WriteClosed
    else if l.saves == [] || !stored then ReadOnly
    else if offset < 0 || |buffer| == 0 || |buffer| > l.size - offset || holder == None then OutsideExtent
    else if |buffer| > SaveSpans(l.saves)[holder.value].end - offset then CrossesBoundary
    else WriteOk
  }

  /** Which writes are taken, and why the others are not. */
  lemma RefusalMeans(l: Layout, closed: bool, stored: bool, buffer: seq<byte>, offset: int)
    requires WellFormed(l)
    ensures var r := RefusalOf(l, closed, stored, buffer, offset);
      && (r == WriteOk <==> !closed && stored && buffer != [] && exists i :: InsideSave(l, i, offset, |buffer|))
      && (r == WriteClosed <==> closed)
      && (r == ReadOnly <==> !closed && (l.saves == [] || !stored))
      && (r == CrossesBoundary <==>
          && !closed && stored && 0 < |buffer| <= l.size - offset
          && (exists i :: InsideSave(l, i, offset, 1)) && !exists i :: InsideSave(l, i, offset, |buffer|))
      && r != StoreFailed
  {
    var spans := SaveSpans(l.saves);
    var holder := Holder(spans, offset);
    if holder.Some? {
      assert InsideSave(l, holder.value, offset, 1);
      assert SaveInBounds(l.saves[holder.value], l.size);
      if |buffer| <= spans[holder.value].end - offset {
        assert InsideSave(l, holder.value, offset, |buffer|);
      }
    }
    forall i: nat | InsideSave(l, i, offset, 1) || (buffer != [] && InsideSave(l, i, offset, |buffer|))
      ensures holder == Some(i)
    {
      OnlyHolder(spans, offset, i);
    }
  }

  ghost predicate NoDuplicates(s: seq<string>) {
    forall i, j :: 0 <= i < j < |s| ==> s[i] != s[j]
  }

  /** The list without one path, in order. */
  function Without(s: seq<string>, path: string): (r: seq<string>)
    ensures |r| <= |s| && path !in r && forall x :: x in r <==> x in s && x != path
    ensures NoDuplicates(s) ==> NoDuplicates(r)
    ensures path in s ==> |r| < |s|
  {
    if s == [] then []
    else if s[0] == path then Without(s[1..], path)
    else
      var rest := Without(s[1..], path);
      assert NoDuplicates(s) ==> s[0] !in s[1..];
      assert forall k :: 0 <= k < |rest| ==> rest[k] in s[1..];
      [s[0]] + rest
  }

  class Backend {
    const layout: Layout
    const limit: nat
    const store: SaveStore?
    var closed: bool
    /** Paths of the open source files, most recently used first. */
    var cache: seq<string>

    ghost predicate Valid()
      reads this, store
    {
      && WellFormed(layout) && 0 < limit && |cache| <= limit && NoDuplicates(cache)
      && (store == null ==> layout.saves == [])
      && (store != null ==> CardsFit(layout, store.cards))
    }

    ghost function Cards(): Cards
      reads this, store
    {
      if store == null then map[] else store.cards
    }

    constructor (layout: Layout, limit: nat, store: SaveStore?)
      requires Validated(layout) && 0 < limit
      requires store == null ==> layout.saves == []
      requires store != null ==> CardsFit(layout, store.cards)
      ensures (Ordered(layout) ==> Valid()) && !closed && this.layout == layout && this.store == store
      ensures this.limit == limit
    {
      this.layout, this.limit, this.store, closed, cache := layout, limit, store, false, [];
    }

    /** A full cache gives up its least recently used handle. */
    ghost function MakingRoom(paths: seq<string>): seq<string> {
      if paths != [] && |paths| >= limit then paths[..|paths| - 1] else paths
    }

    /** Brings a file to the front of the handle cache, closing the least recently used one when it is full. */
    method OpenSource(path: string, files: Files, reliable: bool) returns (ok: bool)
      requires Valid()
      modifies `cache
      ensures Valid()
      ensures ok ==> path in old(cache) || path in files
      ensures ok ==> cache == [path] + if path in old(cache) then Without(old(cache), path) else MakingRoom(old(cache))
      ensures path in files && reliable ==> ok
    {
      if path in cache {
        cache := [path] + Without(cache, path);
        return true;
      }
      if |cache| >= limit {
        cache := cache[..|cache| - 1];
        var closeFailed: bool := *;
        if closeFailed && !reliable { return false; }
      }
      var openFailed: bool := *;
      if path !in files || (openFailed && !reliable) { return false; }
      cache := [path] + cache;
      ok := true;
    }

    method DropCached(path: string)
      requires Valid()
      modifies `cache
      ensures Valid() && path !in cache && forall x :: x in cache <==> x in old(cache) && x != path
    {
      cache := Without(cache, path);
    }

    /** Every source answers and the save store is sound, so no read can fail half-way. */
    ghost predicate Sound(files: Files, reliable: bool)
      reads this, store
    {
      && reliable && (store != null ==> store.reliable)
      && forall i :: 0 <= i < |layout.sources| ==>
        layout.sources[i].path in files && layout.sources[i].sourceSize <= |files[layout.sources[i].path]|
    }

    /** Reads like the flat image: everything asked for, or a correct prefix and the failure that stopped it. */
    method ReadAt(buffer: array<byte>, offset: int, files: Files, reliable: bool) returns (n: nat, err: ReadError)
      requires Valid()
      modifies buffer, `cache
      ensures Valid()
      ensures err == EndOfDisk <==> offset < 0 || buffer.Length > layout.size - offset
      ensures err != EndOfDisk ==> (err == Closed <==> closed)
      ensures err == EndOfDisk || err == Closed ==> n == 0 && buffer[..] == old(buffer[..])
      ensures Delivered(layout, Cards(), files, offset, buffer[..], n)
      ensures err == NoError ==> n == buffer.Length
      ensures Sound(files, reliable) ==> err == EndOfDisk || err == Closed || err == NoError
    {
      if offset < 0 || buffer.Length > layout.size - offset { return 0, EndOfDisk; }
      if closed { return 0, Closed; }
      n, err := 0, NoError;
      while n < buffer.Length && err == NoError
        invariant Valid() && err != EndOfDisk && err != Closed
        invariant Delivered(layout, Cards(), files, offset, buffer[..], n)
        invariant Sound(files, reliable) ==> err == NoError
        decreases buffer.Length - n, err == NoError
      {
        var position := offset + n;
        var save := FindSpan(SaveSpans(layout.saves), position);
        if save.Some? {
          n, err := ReadSave(buffer, offset, n, save.value, files, reliable);
        } else {
          var meta := FindSpan(MetaSpans(layout.meta), position);
          if meta.Some? {
            n := ReadMetadata(buffer, offset, n, meta.value, files);
          } else {
            var source := FindSpan(SourceSpans(layout.sources), position);
            if source.Some? {
              n, err := ReadSource(buffer, offset, n, source.value, files, reliable);
            } else {
              n := ReadZeros(buffer, offset, n, files);
            }
          }
        }
      }
    }

    method ReadSave(buffer: array<byte>, offset: int, done: nat, i: nat, files: Files, reliable: bool)
      returns (n: nat, err: ReadError)
      requires Valid() && done < buffer.Length && i < |layout.saves|
      requires SaveSpans(layout.saves)[i].Holds(offset + done)
      requires Delivered(layout, Cards(), files, offset, buffer[..], done)
      modifies buffer
      ensures done <= n <= buffer.Length && Delivered(layout, Cards(), files, offset, buffer[..], n)
      ensures err == SaveFailed || (err == NoError && n > done)
      ensures Sound(files, reliable) ==> err == NoError
    {
      var e := layout.saves[i];
      var position := offset + done;
      var count := MinNat(buffer.Length - done, e.offset + e.length - position);
      assert SaveInBounds(e, layout.size);
      var data, ok := store.ReadSaveAt(e.objectId, count, e.cardOffset + position - e.offset);
      SaveSlice(layout, store.cards, files, i, position, data);
      Deliver(layout, Cards(), files, offset, buffer[..], done, data);
      CopyInto(buffer, done, data);
      n, err := done + |data|, if ok then NoError else SaveFailed;
    }

    method ReadMetadata(buffer: array<byte>, offset: int, done: nat, i: nat, files: Files) returns (n: nat)
      requires Valid() && done < buffer.Length && i < |layout.meta|
      requires MetaSpans(layout.meta)[i].Holds(offset + done)
      requires Delivered(layout, Cards(), files, offset, buffer[..], done)
      modifies buffer
      ensures done < n <= buffer.Length && Delivered(layout, Cards(), files, offset, buffer[..], n)
    {
      var e := layout.meta[i];
      var position := offset + done;
      var count := MinNat(buffer.Length - done, e.offset + e.length - position);
      var from := e.storage + position - e.offset;
      var data := layout.metadata[from..from + count];
      MetadataSlice(layout, Cards(), files, i, position, data);
      Deliver(layout, Cards(), files, offset, buffer[..], done, data);
      CopyInto(buffer, done, data);
      n := done + count;
    }

    /** Checks the file's identity, opens it through the cache and reads; a failure drops the handle. */
    method ReadSource(buffer: array<byte>, offset: int, done: nat, i: nat, files: Files, reliable: bool)
      returns (n: nat, err: ReadError)
      requires Valid() && done < buffer.Length && i < |layout.sources|
      requires SourceSpans(layout.sources)[i].Holds(offset + done)
      requires Delivered(layout, Cards(), files, offset, buffer[..], done)
      modifies buffer, `cache
      ensures Valid()
      ensures done <= n <= buffer.Length && Delivered(layout, Cards(), files, offset, buffer[..], n)
      ensures err == SourceFailed || (err == NoError && n > done)
      ensures Sound(files, reliable) ==> err == NoError
    {
      var e := layout.sources[i];
      var position := offset + done;
      assert SourceInBounds(e, layout.size);
      if e.path !in files || |files[e.path]| < e.sourceSize {
        DropCached(e.path);
        return done, SourceFailed;
      }
      var opens := OpenSource(e.path, files, reliable);
      if !opens { return done, SourceFailed; }
      var count := MinNat(buffer.Length - done, e.offset + e.length - position);
      var failed: bool := *;
      err := NoError;
      if failed && !reliable {
        var partial: nat :| partial <= count;
        count, err := partial, SourceFailed;
        DropCached(e.path);
      }
      var from := e.sourceOffset + position - e.offset;
      var data := files[e.path][from..from + count];
      SourceSlice(layout, Cards(), files, i, position, data);
      Deliver(layout, Cards(), files, offset, buffer[..], done, data);
      CopyInto(buffer, done, data);
      n := done + count;
    }

    /** Clears up to the next extent of any list. */
    method ReadZeros(buffer: array<byte>, offset: int, done: nat, files: Files) returns (n: nat)
      requires Valid() && done < buffer.Length && Unheld(layout, offset + done)
      requires Delivered(layout, Cards(), files, offset, buffer[..], done)
      modifies buffer
      ensures done < n <= buffer.Length && Delivered(layout, Cards(), files, offset, buffer[..], n)
    {
      var position := offset + done;
      var next := NextStart(MetaSpans(layout.meta), position, offset + buffer.Length);
      next := NextStart(SourceSpans(layout.sources), position, next);
      next := NextStart(SaveSpans(layout.saves), position, next);
      var count := next - position;
      if count < 1 { count := 1; }
      var data := seq<byte>(count, _ => 0);
      ZeroSlice(layout, Cards(), files, position, next, data);
      Deliver(layout, Cards(), files, offset, buffer[..], done, data);
      CopyInto(buffer, done, data);
      n := done + |data|;
    }

    // ---- Writes ----

    /** Why a write would be refused before it reaches a card. */
    ghost function Refusal(buffer: seq<byte>, offset: int): WriteError
      reads this
      requires WellFormed(layout)
    {
      RefusalOf(layout, closed, store != null, buffer, offset)
    }

    /** Writes only inside one save extent, changing exactly the requested bytes; otherwise nothing changes. */
    method WriteAt(buffer: seq<byte>, offset: int) returns (n: nat, err: WriteError)
      requires Valid()
      modifies store
      ensures Valid()
      ensures old(Refusal(buffer, offset)) != WriteOk ==> err == old(Refusal(buffer, offset)) && n == 0
      ensures old(Refusal(buffer, offset)) == WriteOk ==> err == WriteOk || err == StoreFailed
      ensures old(Refusal(buffer, offset)) == WriteOk && store != null && store.reliable ==> err == WriteOk
      ensures err != WriteOk ==> Cards() == old(Cards())
      ensures err == WriteOk ==> n == |buffer| && Overwrites(layout, old(Cards()), Cards(), buffer, offset)
      ensures err == WriteOk ==> InSaves(layout, offset, |buffer|)
    {
      if closed { return 0, WriteClosed; }
      if |layout.saves| == 0 || store == null { return 0, ReadOnly; }
      if offset < 0 || |buffer| == 0 || |buffer| > layout.size - offset { return 0, OutsideExtent; }
      var found := FindSpan(SaveSpans(layout.saves), offset);
      if found.None? { return 0, OutsideExtent; }
      var e := layout.saves[found.value];
      if |buffer| > e.offset + e.length - offset { return 0, CrossesBoundary; }
      ghost var before := store.cards;
      assert SaveInBounds(e, layout.size);
      var written, ok := store.WriteSaveAt(e.objectId, buffer, e.cardOffset + offset - e.offset);
      if !ok { return written, StoreFailed; }
      assert InsideSave(layout, found.value, offset, |buffer|);
      WriteOverwrites(layout, before, found.value, buffer, offset);
      n, err := written, WriteOk;
    }

    /** Drops every cached handle and refuses all later requests. */
    method Close()
      requires Valid()
      modifies this
      ensures Valid() && closed && cache == []
    {
      if closed { cache := []; return; }
      closed, cache := true, [];
    }
  }

  ghost predicate InSaves(l: Layout, offset: int, count: nat) {
    exists i :: InsideSave(l, i, offset, count)
  }

  /** Lists that are apart all together are apart one from another. */
  lemma ApartLists(l: Layout)
    requires Apart(AllSpans(l), false)
    ensures Separate(SaveSpans(l.saves), MetaSpans(l.meta)) && Separate(SaveSpans(l.saves), SourceSpans(l.sources))
    ensures Separate(MetaSpans(l.meta), SourceSpans(l.sources))
  {
    ApartPair(MetaSpans(l.meta) + SourceSpans(l.sources), SaveSpans(l.saves));
    ApartPair(MetaSpans(l.meta), SourceSpans(l.sources));
    var head := MetaSpans(l.meta) + SourceSpans(l.sources);
    forall i, j | 0 <= i < |l.saves| && 0 <= j < |l.meta|
      ensures Disjoint(SaveSpans(l.saves)[i], MetaSpans(l.meta)[j])
    {
      assert Disjoint(head[j], SaveSpans(l.saves)[i]);
    }
    forall i, j | 0 <= i < |l.saves| && 0 <= j < |l.sources|
      ensures Disjoint(SaveSpans(l.saves)[i], SourceSpans(l.sources)[j])
    {
      assert Disjoint(head[|l.meta| + j], SaveSpans(l.saves)[i]);
    }
  }

  lemma ApartPair(a: seq<Span>, b: seq<Span>)
    requires Apart(a + b, false)
    ensures Apart(a, false) && Separate(a, b)
  {
    var all := a + b;
    forall i, j | 0 <= i < j < |a| ensures Clear(a[i], a[j], false) {
      assert Clear(all[i], all[j], false);
    }
    forall i, j | 0 <= i < |a| && 0 <= j < |b| ensures Disjoint(a[i], b[j]) {
      assert Clear(all[i], all[|a| + j], false);
    }
  }

  method CheckStorage(l: Layout) returns (ok: bool)
    ensures ok <==> StorageInBounds(l) && forall i :: 0 <= i < |l.meta| ==> l.meta[i].length >= 0
  {
    for n := 0 to |l.meta|
      invariant forall i :: 0 <= i < n ==>
        l.meta[i].storage >= 0 && l.meta[i].storage + l.meta[i].length <= |l.metadata|
      invariant forall i :: 0 <= i < n ==> l.meta[i].length >= 0
    {
      var e := l.meta[n];
      if e.storage < 0 || e.length < 0 || e.storage > |l.metadata| - e.length { return false; }
    }
    ok := true;
  }

  /**
   * Opens a layout: whatever it accepts is validated, and can be served if its lists are in order;
   * every well-formed map is accepted.
   */
  method Open(l: Layout, limit: int, store: SaveStore?) returns (b: Backend?)
    requires store != null ==> CardsFit(l, store.cards)
    ensures b != null ==> fresh(b) && !b.closed && b.layout == l && b.store == store && b.limit == limit
    ensures b != null ==> Validated(l) && (Ordered(l) ==> b.Valid())
    ensures WellFormed(l) && Apart(AllSpans(l), true) && l.size > 0 && limit >= 1 ==>
      (l.saves != [] ==> store != null) ==> b != null
  {
    if l.size <= 0 || limit < 1 { return null; }
    if |l.saves| > 0 && store == null { return null; }
    var ok := CheckStorage(l);
    if !ok { return null; }
    ok := ValidateRanges(l);
    if !ok { return null; }
    ApartLists(l);
    b := new Backend(l, limit, store);
  }

  // ---- Runs ----

  datatype Request = ReadRequest(count: nat, offset: int) | WriteRequest(data: seq<byte>, offset: int) | CloseRequest

  /** A read's bytes, an acknowledged write, or nothing. */
  datatype Reply = Data(bytes: seq<byte>) | Acknowledged | Silent

  datatype Change = Change(offset: int, data: seq<byte>)

  /** A position of a flat array after some writes, in order. */
  ghost function After(changes: seq<Change>, pos: int, base: byte): byte {
    if changes == [] then base
    else
      var last := changes[|changes| - 1];
      if last.offset <= pos < last.offset + |last.data| then last.data[pos - last.offset]
      else After(changes[..|changes| - 1], pos, base)
  }

  /** The disk is the starting disk with the writes applied in order. */
  ghost predicate Tracks(l: Layout, start: Cards, now: Cards, changes: seq<Change>) {
    forall pos, files :: ImageByte(l, now, files, pos) == After(changes, pos, ImageByte(l, start, files, pos))
  }

  ghost predicate ChangesInSaves(l: Layout, changes: seq<Change>) {
    forall k :: 0 <= k < |changes| ==> InSaves(l, changes[k].offset, |changes[k].data|)
  }

  /** Bytes outside the save extents never change. */
  lemma {:induction false} OutsideNeverChanges(l: Layout, changes: seq<Change>, pos: int, base: byte)
    requires WellFormed(l) && ChangesInSaves(l, changes) && Holder(SaveSpans(l.saves), pos) == None
    ensures After(changes, pos, base) == base
  {
    if changes != [] {
      var last := changes[|changes| - 1];
      assert InSaves(l, last.offset, |last.data|);
      var i: nat :| InsideSave(l, i, last.offset, |last.data|);
      assert !SaveSpans(l.saves)[i].Holds(pos);
      OutsideNeverChanges(l, changes[..|changes| - 1], pos, base);
    }
  }

  /**
   * What a run starts from: the layout, the cards and the files, whether the backend is closed and
   * has a save store, and whether its reads and its writes can rely on their storage.
   */
  datatype Setting = Setting(
    layout: Layout, start: Cards, files: Files, closed: bool, stored: bool, readsSound: bool, writesSound: bool)

  ghost function SettingOf(b: Backend, files: Files, reliable: bool): Setting
    reads b, b.store
  {
    Setting(b.layout, b.Cards(), files, b.closed, b.store != null, b.Sound(files, reliable),
      b.store != null && b.store.reliable)
  }

  /** The acknowledged writes, in order. */
  ghost function Writes(requests: seq<Request>, replies: seq<Reply>): seq<Change>
    requires |requests| == |replies|
  {
    if replies == [] then []
    else
      var n := |replies| - 1;
      Writes(requests[..n], replies[..n]) + Adds(requests[n], replies[n])
  }

  ghost predicate ClosedBy(s: Setting, requests: seq<Request>) {
    s.closed || CloseRequest in requests
  }

  /**
   * The one right answer to a request, given the requests and replies before it. A read inside the
   * disk gets what the flat array holds at that moment, and only storage that fails can withhold it;
   * a write is acknowledged unless it is refused or its storage fails; nothing else is answered.
   */
  ghost predicate RightReply(s: Setting, requests: seq<Request>, replies: seq<Reply>, request: Request, reply: Reply)
    requires |requests| == |replies|
  {
    var closed := ClosedBy(s, requests);
    match request
    case ReadRequest(count, offset) =>
      var readable := !closed && 0 <= offset && count <= s.layout.size - offset;
      && (reply.Data? ==> readable && FlatBytes(s, Writes(requests, replies), offset, count, reply.bytes))
      && (readable && s.readsSound ==> reply.Data?) && !reply.Acknowledged?
    case WriteRequest(data, offset) =>
      var permitted := !closed && s.stored && data != [] && InSaves(s.layout, offset, |data|);
      && (reply.Acknowledged? ==> permitted)
      && (permitted && s.writesSound ==> reply.Acknowledged?) && !reply.Data?
    case CloseRequest => reply.Silent?
  }

  /** The bytes are a stretch of the starting disk with these writes applied. */
  ghost predicate FlatBytes(s: Setting, changes: seq<Change>, offset: int, count: nat, bytes: seq<byte>) {
    && |bytes| == count
    && forall i :: 0 <= i < count ==>
      bytes[i] == After(changes, offset + i, ImageByte(s.layout, s.start, s.files, offset + i))
  }

  /** Every reply so far is the right one for its request. */
  ghost predicate AllRight(s: Setting, requests: seq<Request>, replies: seq<Reply>) {
    && |replies| <= |requests|
    && forall k :: 0 <= k < |replies| ==> RightReply(s, requests[..k], replies[..k], requests[k], replies[k])
  }

  lemma OneMoreRight(s: Setting, requests: seq<Request>, replies: seq<Reply>, reply: Reply)
    requires |replies| < |requests| && AllRight(s, requests, replies)
    requires RightReply(s, requests[..|replies|], replies, requests[|replies|], reply)
    ensures AllRight(s, requests, replies + [reply])
  {
    var more := replies + [reply];
    forall k | 0 <= k < |more| ensures RightReply(s, requests[..k], more[..k], requests[k], more[k]) {
      assert more[..k] == if k < |replies| then replies[..k] else replies;
    }
  }

  lemma OneMoreWrite(requests: seq<Request>, replies: seq<Reply>, request: Request, reply: Reply)
    requires |requests| == |replies|
    ensures Writes(requests + [request], replies + [reply]) == Writes(requests, replies) + Adds(request, reply)
    ensures Adds(request, reply) == [] ==> Writes(requests + [request], replies + [reply]) == Writes(requests, replies)
  {
    var n := |replies|;
    assert Writes(requests, replies) + [] == Writes(requests, replies);
    assert (requests + [request])[..n] == requests && (replies + [reply])[..n] == replies;
  }

  /** What one request adds to the acknowledged writes. */
  ghost function Adds(request: Request, reply: Reply): seq<Change> {
    if reply.Acknowledged? && request.WriteRequest? then [Change(request.offset, request.data)] else []
  }

  lemma TrackWrite(l: Layout, start: Cards, before: Cards, now: Cards, changes: seq<Change>, data: seq<byte>,
                   offset: int)
    requires Tracks(l, start, before, changes) && ChangesInSaves(l, changes)
    requires Overwrites(l, before, now, data, offset) && InSaves(l, offset, |data|)
    ensures Tracks(l, start, now, changes + [Change(offset, data)])
    ensures ChangesInSaves(l, changes + [Change(offset, data)])
  {
    var all := changes + [Change(offset, data)];
    assert all[..|all| - 1] == changes;
    forall pos, files ensures ImageByte(l, now, files, pos) == After(all, pos, ImageByte(l, start, files, pos)) {
      assert ImageByte(l, before, files, pos) == After(changes, pos, ImageByte(l, start, files, pos));
    }
  }

  lemma ReadIsFlat(s: Setting, now: Cards, changes: seq<Change>, offset: int, bytes: seq<byte>)
    requires Tracks(s.layout, s.start, now, changes) && bytes == Image(s.layout, now, s.files, offset, |bytes|)
    ensures FlatBytes(s, changes, offset, |bytes|, bytes)
  {
    forall i | 0 <= i < |bytes|
      ensures bytes[i] == After(changes, offset + i, ImageByte(s.layout, s.start, s.files, offset + i))
    {
      assert bytes[i] == ImageByte(s.layout, now, s.files, offset + i);
    }
  }

  /** The backend is where a run of these requests and replies leads. */
  ghost predicate Reached(s: Setting, b: Backend, requests: seq<Request>, replies: seq<Reply>)
    requires |requests| == |replies|
    reads b, b.store
  {
    && b.Valid() && b.layout == s.layout && (b.store != null <==> s.stored) && b.closed == ClosedBy(s, requests)
    && Tracks(s.layout, s.start, b.Cards(), Writes(requests, replies))
    && ChangesInSaves(s.layout, Writes(requests, replies))
  }

  /** Answers one request. */
  method Serve(b: Backend, request: Request, files: Files, reliable: bool, ghost s: Setting,
               ghost requests: seq<Request>, ghost replies: seq<Reply>) returns (reply: Reply)
    requires |requests| == |replies| && Reached(s, b, requests, replies) && s.files == files
    requires s.readsSound == b.Sound(files, reliable) && s.writesSound == (b.store != null && b.store.reliable)
    modifies b, b.store
    ensures RightReply(s, requests, replies, request, reply)
    ensures Reached(s, b, requests + [request], replies + [reply])
  {
    match request {
      case ReadRequest(count, offset) =>
        reply := ServeRead(b, count, offset, files, reliable, s, Writes(requests, replies));
      case WriteRequest(data, offset) =>
        RefusalMeans(b.layout, b.closed, b.store != null, data, offset);
        reply := ServeWrite(b, data, offset, s, Writes(requests, replies));
      case CloseRequest =>
        b.Close();
        reply := Silent;
    }
    OneMoreWrite(requests, replies, request, reply);
  }

  method ServeRead(b: Backend, count: nat, offset: int, files: Files, reliable: bool,
                   ghost s: Setting, ghost changes: seq<Change>) returns (reply: Reply)
    requires b.Valid() && b.layout == s.layout && s.files == files && Tracks(s.layout, s.start, b.Cards(), changes)
    modifies b`cache
    ensures b.Valid() && !reply.Acknowledged?
    ensures var readable := !b.closed && 0 <= offset && count <= s.layout.size - offset;
      && (reply.Data? ==> readable && FlatBytes(s, changes, offset, count, reply.bytes))
      && (readable && b.Sound(files, reliable) ==> reply.Data?)
  {
    var buffer := new byte[count](_ => 0);
    var n, err := b.ReadAt(buffer, offset, files, reliable);
    if err != NoError { return Silent; }
    assert buffer[..] == buffer[..n];
    ReadIsFlat(s, b.Cards(), changes, offset, buffer[..]);
    reply := Data(buffer[..]);
  }

  method ServeWrite(b: Backend, data: seq<byte>, offset: int, ghost s: Setting, ghost changes: seq<Change>)
    returns (reply: Reply)
    requires b.Valid() && b.layout == s.layout && ChangesInSaves(s.layout, changes)
    requires Tracks(s.layout, s.start, b.Cards(), changes)
    modifies b.store
    ensures b.Valid() && !reply.Data?
    ensures reply.Acknowledged? ==> old(b.Refusal(data, offset)) == WriteOk
    ensures old(b.Refusal(data, offset)) == WriteOk && b.store != null && b.store.reliable ==> reply.Acknowledged?
    ensures var more := changes + Adds(WriteRequest(data, offset), reply);
      Tracks(s.layout, s.start, b.Cards(), more) && ChangesInSaves(s.layout, more)
  {
    ghost var before := b.Cards();
    var n, err := b.WriteAt(data, offset);
    if err == WriteOk {
      TrackWrite(s.layout, s.start, before, b.Cards(), changes, data, offset);
      return Acknowledged;
    }
    assert changes + [] == changes;
    reply := Silent;
  }

  /**
   * Any run of requests behaves like one flat array whose only writable part is the save extents:
   * every reply is the right one, and the disk ends as the acknowledged writes leave it.
   */
  method Run(b: Backend, requests: seq<Request>, files: Files, reliable: bool) returns (replies: seq<Reply>)
    requires b.Valid()
    modifies b, b.store
    ensures b.Valid() && |replies| == |requests|
    ensures AllRight(old(SettingOf(b, files, reliable)), requests, replies)
    ensures b.closed == (old(b.closed) || CloseRequest in requests)
    ensures Tracks(b.layout, old(b.Cards()), b.Cards(), Writes(requests, replies))
    ensures ChangesInSaves(b.layout, Writes(requests, replies))
  {
    ghost var s := SettingOf(b, files, reliable);
    replies := [];
    assert requests[..0] == [];
    while |replies| < |requests|
      invariant |replies| <= |requests| && AllRight(s, requests, replies)
      invariant Reached(s, b, requests[..|replies|], replies)
      decreases |requests| - |replies|
    {
      var request := requests[|replies|];
      var reply := Serve(b, request, files, reliable, s, requests[..|replies|], replies);
      OneMoreRight(s, requests, replies, reply);
      assert requests[..|replies| + 1] == requests[..|replies|] + [request];
      replies := replies + [reply];
    }
    assert requests[..|replies|] == requests;
  }
}
