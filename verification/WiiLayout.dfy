/** Games, their FAT32 segments, and the extents that map segments back to source files. */
module WiiLayout {
  import opened Bytes
  import opened WiiGeometry

  /** A stretch of a game's logical image that one source file holds. */
  datatype Source = Source(path: string, offset: int, length: int) {
    function End(): int { offset + length }
  }

  datatype Game = Game(id: string, size: int, sources: seq<Source>)

  /** The sources follow one another without gap or overlap and cover the image. */
  ghost predicate Contiguous(g: Game) {
    SourcesFrom(g.sources, 0, g.size)
  }

  ghost predicate SourcesFrom(sources: seq<Source>, from: int, to: int) {
    if sources == [] then from == to
    else sources[0].offset == from && sources[0].length >= 0 && SourcesFrom(sources[1..], sources[0].End(), to)
  }

  /** Files whose identity still verifies, with their contents. */
  type Store = map<string, seq<byte>>

  predicate Online(store: Store, s: Source) {
    s.path in store && s.length <= |store[s.path]|
  }

  ghost predicate AllOnline(store: Store, sources: seq<Source>) {
    forall i :: 0 <= i < |sources| ==> sources[i].length >= 0 && Online(store, sources[i])
  }

  /** The concatenated source files. */
  ghost function GameBytes(sources: seq<Source>, store: Store): seq<byte>
    requires AllOnline(store, sources)
  {
    if sources == [] then []
    else store[sources[0].path][..sources[0].length] + GameBytes(sources[1..], store)
  }

  /** One byte of a game. */
  ghost function GameByte(g: Game, store: Store, x: int): byte
    requires AllOnline(store, g.sources)
  {
    var bytes := GameBytes(g.sources, store);
    if 0 <= x < |bytes| then bytes[x] else 0
  }

  lemma {:induction false} GameBytesAt(sources: seq<Source>, store: Store, from: int, to: int, k: nat, x: int)
    requires SourcesFrom(sources, from, to) && k < |sources|
    requires AllOnline(store, sources)
    requires sources[k].offset <= x < sources[k].End()
    ensures from <= x && x - from < |GameBytes(sources, store)|
    ensures GameBytes(sources, store)[x - from] == store[sources[k].path][x - sources[k].offset]
  {
    if k > 0 {
      GameBytesAt(sources[1..], store, sources[0].End(), to, k - 1, x);
    }
  }

  lemma {:induction false} GameBytesLength(sources: seq<Source>, store: Store, from: int, to: int)
    requires SourcesFrom(sources, from, to)
    requires AllOnline(store, sources)
    ensures |GameBytes(sources, store)| == to - from
  {
    if sources != [] {
      GameBytesLength(sources[1..], store, sources[0].End(), to);
    }
  }

  /** Index of the first source that holds a logical offset, or the number of sources. */
  function Locate(sources: seq<Source>, logical: int): (i: nat)
    ensures i <= |sources|
    ensures i < |sources| ==> sources[i].offset <= logical < sources[i].End()
    ensures i == |sources| ==> forall s :: s in sources ==> !(s.offset <= logical < s.End())
  {
    if sources == [] then 0
    else if sources[0].offset <= logical < sources[0].End() then 0
    else 1 + Locate(sources[1..], logical)
  }

  lemma {:induction false} ContiguousLocates(sources: seq<Source>, from: int, to: int, logical: int)
    requires SourcesFrom(sources, from, to) && from <= logical < to
    ensures Locate(sources, logical) < |sources|
  {
    if sources != [] && !(sources[0].offset <= logical < sources[0].End()) {
      ContiguousLocates(sources[1..], sources[0].End(), to, logical);
    }
  }

  // ---- Segments ----

  datatype VirtualFile = VirtualFile(game: Game, off: int, length: int)

  function SegmentLength(size: int, off: int): int {
    if size - off > MAX_SEGMENT then MAX_SEGMENT else size - off
  }

  /** The FAT32-sized files of one game from an offset on. */
  function Segments(g: Game, off: int): seq<VirtualFile>
    decreases g.size - off
  {
    if off >= g.size then []
    else [VirtualFile(g, off, SegmentLength(g.size, off))] + Segments(g, off + SegmentLength(g.size, off))
  }

  function AllSegments(games: seq<Game>): seq<VirtualFile> {
    if games == [] then [] else AllSegments(games[..|games| - 1]) + Segments(games[|games| - 1], 0)
  }

  /** Files that tile one game from `off` to its size. */
  ghost predicate TilesGame(files: seq<VirtualFile>, g: Game, off: int) {
    if files == [] then off == g.size || (off == 0 && g.size <= 0)
    else
      && files[0].game == g && files[0].off == off && files[0].length > 0
      && TilesGame(files[1..], g, off + files[0].length)
  }

  lemma {:induction false} SegmentsTile(g: Game, off: int)
    requires 0 <= off && (off <= g.size || off == 0)
    ensures TilesGame(Segments(g, off), g, off)
    decreases g.size - off
  {
    if off < g.size {
      SegmentsTile(g, off + SegmentLength(g.size, off));
    }
  }

  /** Every virtual file is a non-empty stretch of its game, no longer than a segment may be. */
  ghost predicate GoodFile(f: VirtualFile) {
    0 <= f.off && 0 < f.length <= MAX_SEGMENT && f.off + f.length <= f.game.size
  }

  lemma {:induction false} SegmentsGood(g: Game, off: int)
    requires off >= 0
    ensures forall f :: f in Segments(g, off) ==> GoodFile(f) && f.game == g
    decreases g.size - off
  {
    if off < g.size {
      SegmentsGood(g, off + SegmentLength(g.size, off));
    }
  }

  lemma {:induction false} AllSegmentsGood(games: seq<Game>)
    ensures forall f :: f in AllSegments(games) ==> GoodFile(f) && f.game in games
  {
    if games != [] {
      AllSegmentsGood(games[..|games| - 1]);
      SegmentsGood(games[|games| - 1], 0);
    }
  }

  /** Rounded up to whole clusters, no segment reaches 4 GiB, so its size fits 32 bits. */
  lemma SegmentFitsChainLength(f: VirtualFile, sectorsPerCluster: int)
    requires GoodFile(f) && sectorsPerCluster in SECTORS_PER_CLUSTER
    ensures var clusterSize := SECTOR_SIZE * sectorsPerCluster;
      ClustersForBytes(f.length, clusterSize) * clusterSize <= MAX_SEGMENT < 0x1_0000_0000
  {
    var clusterSize := SECTOR_SIZE * sectorsPerCluster;
    var n := ClustersForBytes(f.length, clusterSize);
    var most := MAX_SEGMENT / clusterSize;
    assert most * clusterSize == MAX_SEGMENT;
    Scaled(most + 1, n, clusterSize);
    Scaled(n, most, clusterSize);
  }

  /** Splits every game at the segment boundary. */
  method SplitGames(games: seq<Game>) returns (files: seq<VirtualFile>)
    ensures files == AllSegments(games)
  {
    files := [];
    var n := 0;
    while n < |games|
      invariant 0 <= n <= |games|
      invariant files == AllSegments(games[..n])
    {
      var g := games[n];
      ghost var before := files;
      var off := 0;
      while off < g.size
        invariant before + Segments(g, 0) == files + Segments(g, off)
        decreases g.size - off
      {
        var length := g.size - off;
        if length > MAX_SEGMENT { length := MAX_SEGMENT; }
        files := files + [VirtualFile(g, off, length)];
        off := off + length;
      }
      assert games[..n + 1][..n] == games[..n];
      n := n + 1;
    }
    assert games[..n] == games;
  }

  // ---- Extents ----

  /** A run of disk bytes: part of a source file, or zero padding. */
  datatype Extent = Mapped(start: int, length: int, source: Source, sourceOffset: int) | Zero(start: int, length: int) {
    function End(): int { start + length }
  }

  datatype Extents = Gap | Laid(extents: seq<Extent>)

  function Append(before: seq<Extent>, rest: Extents): Extents {
    if rest == Gap then Gap else Laid(before + rest.extents)
  }

  /** The source pieces of `remaining` bytes of a game, placed from `at`. */
  function Pieces(sources: seq<Source>, gameOffset: int, remaining: int, at: int): Extents
    decreases remaining
  {
    if remaining <= 0 then Laid([])
    else
      var i := Locate(sources, gameOffset);
      if i == |sources| then Gap
      else
        var sourceOffset := gameOffset - sources[i].offset;
        var n := PieceLength(sources[i], sourceOffset, remaining);
        Append([Mapped(at, n, sources[i], sourceOffset)], Pieces(sources, gameOffset + n, remaining - n, at + n))
  }

  function PieceLength(s: Source, sourceOffset: int, remaining: int): int {
    if remaining > s.length - sourceOffset then s.length - sourceOffset else remaining
  }

  function Padding(f: VirtualFile, fileStart: int, clusterSize: int): seq<Extent>
    requires clusterSize > 0
  {
    var padding := ClustersForBytes(f.length, clusterSize) * clusterSize - f.length;
    if padding > 0 then [Zero(fileStart + f.length, padding)] else []
  }

  function FileExtents(f: VirtualFile, fileStart: int, clusterSize: int): Extents
    requires clusterSize > 0
  {
    match Pieces(f.game.sources, f.off, f.length, fileStart)
    case Gap => Gap
    case Laid(pieces) => Laid(pieces + Padding(f, fileStart, clusterSize))
  }

  /** All files one after another, each from its first cluster on. */
  function AllExtents(files: seq<VirtualFile>, start: int, clusterSize: int): Extents
    requires clusterSize > 0
  {
    if files == [] then Laid([])
    else match FileExtents(files[0], start, clusterSize)
      case Gap => Gap
      case Laid(extents) =>
        Append(extents,
          AllExtents(files[1..], start + ClustersForBytes(files[0].length, clusterSize) * clusterSize, clusterSize))
  }

  /** Extents that follow one another without gap from `lo` to `hi`. */
  ghost predicate Tiled(extents: seq<Extent>, lo: int, hi: int) {
    if extents == [] then lo == hi
    else extents[0].start == lo && extents[0].length > 0 && Tiled(extents[1..], extents[0].End(), hi)
  }

  lemma {:induction false} TiledAppend(a: seq<Extent>, b: seq<Extent>, lo: int, mid: int, hi: int)
    requires Tiled(a, lo, mid) && Tiled(b, mid, hi)
    ensures Tiled(a + b, lo, hi)
  {
    if a == [] {
      assert a + b == b;
    } else {
      TiledAppend(a[1..], b, a[0].End(), mid, hi);
      assert (a + b)[1..] == a[1..] + b;
    }
  }

  lemma {:induction false} PiecesTile(sources: seq<Source>, gameOffset: int, remaining: int, at: int)
    requires remaining >= 0 && Pieces(sources, gameOffset, remaining, at).Laid?
    ensures Tiled(Pieces(sources, gameOffset, remaining, at).extents, at, at + remaining)
    decreases remaining
  {
    if remaining > 0 {
      var i := Locate(sources, gameOffset);
      var n := PieceLength(sources[i], gameOffset - sources[i].offset, remaining);
      PiecesTile(sources, gameOffset + n, remaining - n, at + n);
      var all := Pieces(sources, gameOffset, remaining, at).extents;
      assert all[1..] == Pieces(sources, gameOffset + n, remaining - n, at + n).extents;
    }
  }

  lemma FileTiles(f: VirtualFile, fileStart: int, clusterSize: int)
    requires clusterSize > 0 && f.length > 0 && FileExtents(f, fileStart, clusterSize).Laid?
    ensures Tiled(FileExtents(f, fileStart, clusterSize).extents, fileStart,
                  fileStart + ClustersForBytes(f.length, clusterSize) * clusterSize)
  {
    var pieces := Pieces(f.game.sources, f.off, f.length, fileStart).extents;
    PiecesTile(f.game.sources, f.off, f.length, fileStart);
    var padding := Padding(f, fileStart, clusterSize);
    TiledAppend(pieces, padding, fileStart, fileStart + f.length,
                fileStart + ClustersForBytes(f.length, clusterSize) * clusterSize);
  }

  function Lengths(files: seq<VirtualFile>): seq<int> {
    seq(|files|, i requires 0 <= i < |files| => files[i].length)
  }

  /** Clusters of a run of files, first file first. */
  function ClustersOf(files: seq<VirtualFile>, clusterSize: int): (n: int)
    requires clusterSize > 0
    ensures n >= 0
  {
    if files == [] then 0 else ClustersForBytes(files[0].length, clusterSize) + ClustersOf(files[1..], clusterSize)
  }

  lemma {:induction false} AllTile(files: seq<VirtualFile>, start: int, clusterSize: int)
    requires clusterSize > 0 && forall i :: 0 <= i < |files| ==> files[i].length > 0
    requires AllExtents(files, start, clusterSize).Laid?
    ensures Tiled(AllExtents(files, start, clusterSize).extents, start,
      start + ClustersOf(files, clusterSize) * clusterSize)
  {
    if files != [] {
      AllTile(files[1..], start + ClustersForBytes(files[0].length, clusterSize) * clusterSize, clusterSize);
      ClustersSplit(files, start, clusterSize);
      FirstTiles(files, start, clusterSize, start + ClustersOf(files, clusterSize) * clusterSize);
    }
  }

  lemma FirstTiles(files: seq<VirtualFile>, start: int, clusterSize: int, end: int)
    requires clusterSize > 0 && files != [] && files[0].length > 0 && AllExtents(files, start, clusterSize).Laid?
    requires var next := start + ClustersForBytes(files[0].length, clusterSize) * clusterSize;
      Tiled(AllExtents(files[1..], next, clusterSize).extents, next, end)
    ensures Tiled(AllExtents(files, start, clusterSize).extents, start, end)
  {
    var next := start + ClustersForBytes(files[0].length, clusterSize) * clusterSize;
    FileTiles(files[0], start, clusterSize);
    TiledAppend(FileExtents(files[0], start, clusterSize).extents, AllExtents(files[1..], next, clusterSize).extents,
                start, next, end);
  }

  lemma ClustersSplit(files: seq<VirtualFile>, start: int, clusterSize: int)
    requires clusterSize > 0 && files != []
    ensures start + ClustersOf(files, clusterSize) * clusterSize
      == start + ClustersForBytes(files[0].length, clusterSize) * clusterSize
         + ClustersOf(files[1..], clusterSize) * clusterSize
  {
    SumScaled(ClustersForBytes(files[0].length, clusterSize), ClustersOf(files[1..], clusterSize), clusterSize);
  }

  lemma SumScaled(a: int, b: int, unit: int)
    ensures (a + b) * unit == a * unit + b * unit
  {
  }

  /** With contiguous sources no file meets an extent gap. */
  lemma {:induction false} PiecesNeverGap(g: Game, gameOffset: int, remaining: int, at: int)
    requires Contiguous(g) && 0 <= gameOffset && gameOffset + remaining <= g.size
    ensures Pieces(g.sources, gameOffset, remaining, at).Laid?
    decreases remaining
  {
    if remaining > 0 {
      ContiguousLocates(g.sources, 0, g.size, gameOffset);
      var i := Locate(g.sources, gameOffset);
      var n := PieceLength(g.sources[i], gameOffset - g.sources[i].offset, remaining);
      PiecesNeverGap(g, gameOffset + n, remaining - n, at + n);
    }
  }

  lemma {:induction false} NeverGap(files: seq<VirtualFile>, start: int, clusterSize: int)
    requires clusterSize > 0 && forall i :: 0 <= i < |files| ==> GoodFile(files[i]) && Contiguous(files[i].game)
    ensures AllExtents(files, start, clusterSize).Laid?
  {
    if files != [] {
      PiecesNeverGap(files[0].game, files[0].off, files[0].length, start);
      NeverGap(files[1..], start + ClustersForBytes(files[0].length, clusterSize) * clusterSize, clusterSize);
    }
  }

  // ---- What the extents hold ----

  /** One byte of an extent. */
  ghost function ExtentByte(e: Extent, store: Store, pos: int): byte {
    if e.Zero? || !Online(store, e.source) then 0
    else
      var i := e.sourceOffset + pos - e.start;
      if 0 <= i < |store[e.source.path]| then store[e.source.path][i] else 0
  }

  /** Index of the first extent that ends beyond a position. */
  ghost function ExtentAt(extents: seq<Extent>, pos: int): (i: nat)
    ensures i <= |extents|
    ensures i < |extents| ==> extents[i].End() > pos
    ensures forall k :: 0 <= k < i ==> extents[k].End() <= pos
  {
    if extents == [] then 0
    else if extents[0].End() > pos then 0
    else 1 + ExtentAt(extents[1..], pos)
  }

  ghost function Content(extents: seq<Extent>, store: Store, pos: int): byte {
    var i := ExtentAt(extents, pos);
    if i < |extents| && extents[i].start <= pos then ExtentByte(extents[i], store, pos) else 0
  }

  lemma {:induction false} ContentAppend(a: seq<Extent>, b: seq<Extent>, store: Store,
                                         lo: int, mid: int, hi: int, pos: int)
    requires Tiled(a, lo, mid) && Tiled(b, mid, hi)
    ensures pos < mid ==> Content(a + b, store, pos) == if lo <= pos then Content(a, store, pos) else 0
    ensures pos >= mid ==> Content(a + b, store, pos) == Content(b, store, pos)
  {
    if a == [] {
      assert a + b == b;
      if b != [] && pos < mid {
        assert ExtentAt(b, pos) == 0;
      }
    } else {
      assert (a + b)[1..] == a[1..] + b;
      ContentAppend(a[1..], b, store, a[0].End(), mid, hi, pos);
      TiledGrows(a[1..], a[0].End(), mid);
    }
  }

  lemma {:induction false} TiledGrows(a: seq<Extent>, lo: int, hi: int)
    requires Tiled(a, lo, hi)
    ensures lo <= hi
  {
    if a != [] {
      TiledGrows(a[1..], a[0].End(), hi);
    }
  }

  /** The first piece of a stretch that the sources cover, and where the next one goes. */
  lemma FirstPiece(g: Game, gameOffset: int, remaining: int, at: int) returns (piece: Extent, n: int)
    requires Contiguous(g) && 0 <= gameOffset && gameOffset + remaining <= g.size && remaining > 0
    ensures 0 < n <= remaining && piece.Mapped? && piece.start == at && piece.length == n
    ensures Pieces(g.sources, gameOffset + n, remaining - n, at + n).Laid?
    ensures Pieces(g.sources, gameOffset, remaining, at)
      == Laid([piece] + Pieces(g.sources, gameOffset + n, remaining - n, at + n).extents)
    ensures PieceOf(g, piece, gameOffset)
  {
    var i := Locate(g.sources, gameOffset);
    ContiguousLocates(g.sources, 0, g.size, gameOffset);
    var sourceOffset := gameOffset - g.sources[i].offset;
    n := PieceLength(g.sources[i], sourceOffset, remaining);
    piece := Mapped(at, n, g.sources[i], sourceOffset);
    assert InSource(g.sources[i], piece, gameOffset);
    PiecesNeverGap(g, gameOffset + n, remaining - n, at + n);
  }

  /** The piece lies in one source of the game, at the right place. */
  ghost predicate PieceOf(g: Game, piece: Extent, gameOffset: int) {
    && piece.Mapped?
    && exists i :: 0 <= i < |g.sources| && InSource(g.sources[i], piece, gameOffset)
  }

  ghost predicate InSource(s: Source, piece: Extent, gameOffset: int)
    requires piece.Mapped?
  {
    && piece.source == s && piece.sourceOffset == gameOffset - s.offset >= 0
    && piece.sourceOffset + piece.length <= s.length
  }

  lemma PieceByte(g: Game, store: Store, piece: Extent, gameOffset: int, pos: int)
    requires Contiguous(g) && AllOnline(store, g.sources) && PieceOf(g, piece, gameOffset)
    requires piece.start <= pos < piece.End()
    ensures ExtentByte(piece, store, pos) == GameByte(g, store, gameOffset + pos - piece.start)
  {
    var i :| 0 <= i < |g.sources| && InSource(g.sources[i], piece, gameOffset);
    GameBytesAt(g.sources, store, 0, g.size, i, gameOffset + pos - piece.start);
  }

  /** The extents of a piece list hold the game's own bytes. */
  lemma {:induction false} PiecesContent(g: Game, store: Store, gameOffset: int, remaining: int, at: int, pos: int)
    requires Contiguous(g) && AllOnline(store, g.sources)
    requires 0 <= gameOffset && gameOffset + remaining <= g.size && at <= pos < at + remaining
    ensures PiecesShow(g, store, gameOffset, remaining, at, pos)
    decreases remaining
  {
    var piece, n := FirstPiece(g, gameOffset, remaining, at);
    var rest := Pieces(g.sources, gameOffset + n, remaining - n, at + n).extents;
    if pos < at + n {
      FirstShows(g, store, piece, rest, gameOffset, pos);
    } else {
      PiecesContent(g, store, gameOffset + n, remaining - n, at + n, pos);
      LaterShows(g, store, piece, rest, gameOffset, remaining, at, pos);
    }
  }

  lemma LaterShows(g: Game, store: Store, piece: Extent, rest: seq<Extent>, gameOffset: int, remaining: int, at: int,
                   pos: int)
    requires AllOnline(store, g.sources) && pos >= piece.End() && piece.start == at
    requires Pieces(g.sources, gameOffset, remaining, at) == Laid([piece] + rest)
    requires Content(rest, store, pos) == GameByte(g, store, gameOffset + pos - at)
    ensures PiecesShow(g, store, gameOffset, remaining, at, pos)
  {
    TailByte(piece, rest, store, pos);
  }

  lemma FirstShows(g: Game, store: Store, piece: Extent, rest: seq<Extent>, gameOffset: int, pos: int)
    requires Contiguous(g) && AllOnline(store, g.sources) && PieceOf(g, piece, gameOffset)
    requires piece.start <= pos < piece.End()
    ensures Content([piece] + rest, store, pos) == GameByte(g, store, gameOffset + pos - piece.start)
  {
    HeadByte(piece, rest, store, pos);
    PieceByte(g, store, piece, gameOffset, pos);
  }

  ghost predicate PiecesShow(g: Game, store: Store, gameOffset: int, remaining: int, at: int, pos: int)
    requires AllOnline(store, g.sources)
  {
    match Pieces(g.sources, gameOffset, remaining, at)
    case Gap => false
    case Laid(pieces) => Content(pieces, store, pos) == GameByte(g, store, gameOffset + pos - at)
  }

  lemma TailByte(e: Extent, rest: seq<Extent>, store: Store, pos: int)
    requires pos >= e.End()
    ensures Content([e] + rest, store, pos) == Content(rest, store, pos)
  {
    assert ([e] + rest)[1..] == rest;
  }

  lemma HeadByte(e: Extent, rest: seq<Extent>, store: Store, pos: int)
    requires e.start <= pos < e.End()
    ensures Content([e] + rest, store, pos) == ExtentByte(e, store, pos)
  {
    assert ExtentAt([e] + rest, pos) == 0;
  }

  /** A file's bytes followed by zero padding up to the cluster boundary. */
  ghost function FileByte(f: VirtualFile, store: Store, k: int): byte
    requires AllOnline(store, f.game.sources)
  {
    if k < f.length then GameByte(f.game, store, f.off + k) else 0
  }

  lemma FileContent(f: VirtualFile, store: Store, fileStart: int, clusterSize: int, pos: int)
    requires clusterSize > 0 && GoodFile(f) && Contiguous(f.game) && AllOnline(store, f.game.sources)
    requires fileStart <= pos < fileStart + ClustersForBytes(f.length, clusterSize) * clusterSize
    ensures FileExtents(f, fileStart, clusterSize).Laid?
    ensures Content(FileExtents(f, fileStart, clusterSize).extents, store, pos) == FileByte(f, store, pos - fileStart)
  {
    var end := fileStart + ClustersForBytes(f.length, clusterSize) * clusterSize;
    PiecesNeverGap(f.game, f.off, f.length, fileStart);
    PiecesTile(f.game.sources, f.off, f.length, fileStart);
    var pieces := Pieces(f.game.sources, f.off, f.length, fileStart).extents;
    var padding := Padding(f, fileStart, clusterSize);
    assert Tiled(padding, fileStart + f.length, end);
    ContentAppend(pieces, padding, store, fileStart, fileStart + f.length, end, pos);
    if pos < fileStart + f.length {
      PiecesContent(f.game, store, f.off, f.length, fileStart, pos);
    }
  }

  ghost predicate GoodFiles(files: seq<VirtualFile>) {
    forall i :: 0 <= i < |files| ==> GoodFile(files[i]) && Contiguous(files[i].game)
  }

  /** Where file `i` starts when the files follow one another from `start`. */
  function FileStart(files: seq<VirtualFile>, start: int, clusterSize: int, i: nat): int
    requires clusterSize > 0 && i <= |files|
  {
    start + ClustersOf(files[..i], clusterSize) * clusterSize
  }

  /** The first file's extents come first, then those of the others from the next cluster on. */
  lemma FirstFile(files: seq<VirtualFile>, start: int, clusterSize: int, next: int)
    requires clusterSize > 0 && files != [] && GoodFiles(files)
    requires next == start + ClustersForBytes(files[0].length, clusterSize) * clusterSize
    ensures FileExtents(files[0], start, clusterSize).Laid? && AllExtents(files[1..], next, clusterSize).Laid?
    ensures Tiled(FileExtents(files[0], start, clusterSize).extents, start, next)
    ensures Tiled(AllExtents(files[1..], next, clusterSize).extents, next,
      next + ClustersOf(files[1..], clusterSize) * clusterSize)
    ensures AllExtents(files, start, clusterSize)
      == Laid(FileExtents(files[0], start, clusterSize).extents + AllExtents(files[1..], next, clusterSize).extents)
  {
    NeverGap(files, start, clusterSize);
    FileTiles(files[0], start, clusterSize);
    AllTile(files[1..], next, clusterSize);
  }

  lemma FileStartStep(files: seq<VirtualFile>, start: int, clusterSize: int, i: nat, next: int)
    requires clusterSize > 0 && 0 < i < |files|
    requires next == start + ClustersForBytes(files[0].length, clusterSize) * clusterSize
    ensures FileStart(files, start, clusterSize, i) == FileStart(files[1..], next, clusterSize, i - 1) >= next
  {
    assert files[..i][1..] == files[1..][..i - 1];
    ClustersSplit(files[..i], start, clusterSize);
    NotNegative(ClustersOf(files[1..][..i - 1], clusterSize), clusterSize);
  }

  /** Over a file's clusters the extents hold that file and its padding, whatever surrounds it. */
  lemma {:induction false} AllContent(files: seq<VirtualFile>, store: Store, start: int, clusterSize: int, i: nat,
                                      k: int)
    requires clusterSize > 0 && i < |files| && GoodFiles(files) && AllOnline(store, files[i].game.sources)
    requires 0 <= k < ClustersForBytes(files[i].length, clusterSize) * clusterSize
    ensures AllExtents(files, start, clusterSize).Laid?
    ensures Content(AllExtents(files, start, clusterSize).extents, store, FileStart(files, start, clusterSize, i) + k)
      == FileByte(files[i], store, k)
  {
    if i == 0 {
      FirstStart(files, start, clusterSize);
      FirstContent(files, store, start, clusterSize, start + k);
    } else {
      var next := NextStart(files[0], start, clusterSize);
      assert files[1..][i - 1] == files[i];
      AllContent(files[1..], store, next, clusterSize, i - 1, k);
      NextContent(files, store, start, clusterSize, i, k);
    }
  }

  /** Where the file after one placed at `start` begins. */
  function NextStart(f: VirtualFile, start: int, clusterSize: int): (next: int)
    requires clusterSize > 0
    ensures next == start + ClustersForBytes(f.length, clusterSize) * clusterSize
  {
    start + ClustersForBytes(f.length, clusterSize) * clusterSize
  }

  lemma FirstContent(files: seq<VirtualFile>, store: Store, start: int, clusterSize: int, pos: int)
    requires clusterSize > 0 && files != [] && GoodFiles(files) && AllOnline(store, files[0].game.sources)
    requires start <= pos < NextStart(files[0], start, clusterSize)
    ensures AllExtents(files, start, clusterSize).Laid?
    ensures Content(AllExtents(files, start, clusterSize).extents, store, pos) == FileByte(files[0], store, pos - start)
  {
    HeadContent(files, store, start, clusterSize, NextStart(files[0], start, clusterSize), pos);
    FileContent(files[0], store, start, clusterSize, pos);
  }

  lemma FirstStart(files: seq<VirtualFile>, start: int, clusterSize: int)
    requires clusterSize > 0
    ensures FileStart(files, start, clusterSize, 0) == start
  {
    assert files[..0] == [];
  }

  lemma NextContent(files: seq<VirtualFile>, store: Store, start: int, clusterSize: int, i: nat, k: int)
    requires clusterSize > 0 && 0 < i < |files| && GoodFiles(files) && k >= 0
    ensures AllExtents(files, start, clusterSize).Laid?
    ensures AllExtents(files[1..], NextStart(files[0], start, clusterSize), clusterSize).Laid?
    ensures Content(AllExtents(files, start, clusterSize).extents, store, FileStart(files, start, clusterSize, i) + k)
      == Content(AllExtents(files[1..], NextStart(files[0], start, clusterSize), clusterSize).extents, store,
                 FileStart(files[1..], NextStart(files[0], start, clusterSize), clusterSize, i - 1) + k)
  {
    var next := NextStart(files[0], start, clusterSize);
    FileStartStep(files, start, clusterSize, i, next);
    LaterContent(files, store, start, clusterSize, next, FileStart(files, start, clusterSize, i) + k);
  }

  lemma HeadContent(files: seq<VirtualFile>, store: Store, start: int, clusterSize: int, next: int, pos: int)
    requires clusterSize > 0 && files != [] && GoodFiles(files) && start <= pos < next
    requires next == start + ClustersForBytes(files[0].length, clusterSize) * clusterSize
    ensures AllExtents(files, start, clusterSize).Laid? && FileExtents(files[0], start, clusterSize).Laid?
    ensures Content(AllExtents(files, start, clusterSize).extents, store, pos)
      == Content(FileExtents(files[0], start, clusterSize).extents, store, pos)
  {
    FirstFile(files, start, clusterSize, next);
    ContentAppend(FileExtents(files[0], start, clusterSize).extents, AllExtents(files[1..], next, clusterSize).extents,
                  store, start, next, next + ClustersOf(files[1..], clusterSize) * clusterSize, pos);
  }

  lemma LaterContent(files: seq<VirtualFile>, store: Store, start: int, clusterSize: int, next: int, pos: int)
    requires clusterSize > 0 && files != [] && GoodFiles(files) && pos >= next
    requires next == start + ClustersForBytes(files[0].length, clusterSize) * clusterSize
    ensures AllExtents(files, start, clusterSize).Laid? && AllExtents(files[1..], next, clusterSize).Laid?
    ensures Content(AllExtents(files, start, clusterSize).extents, store, pos)
      == Content(AllExtents(files[1..], next, clusterSize).extents, store, pos)
  {
    FirstFile(files, start, clusterSize, next);
    ContentAppend(FileExtents(files[0], start, clusterSize).extents, AllExtents(files[1..], next, clusterSize).extents,
                  store, start, next, next + ClustersOf(files[1..], clusterSize) * clusterSize, pos);
  }

  lemma NotNegative(a: int, b: int)
    requires a >= 0 && b >= 0
    ensures a * b >= 0
  {
  }
}
