/** One emulated memory card: base image, dirty blocks, journal and crash-safe checkpoints. */
module SaveOverlay {
  import opened Basics
  import opened Bytes
  import opened SaveJournal
  import opened SaveDisk
  import opened SaveBlocks

  /** A read that fails on the base image still says how many bytes it delivered. */
  datatype ReadResult = Read(count: nat) | ReadOutside | ReadFailed(count: nat)

  /** A write that fails on the base image still says how many bytes the card took in. */
  datatype WriteResult =
    | Wrote(count: nat)
    | WriteOutside
    | CardBlocked
    | JournalLimit
    | JournalFailed
    | BaseFailed(count: nat)

  function RequestBlocks(offset: nat, length: nat): nat
    requires length > 0
  {
    NextBlock(offset, length) - offset / SAVE_BLOCK_SIZE
  }

  /** A request the configured limits can hold at all, even on an empty journal. */
  predicate WithinLimits(c: Config, offset: nat, length: nat)
    requires length > 0
  {
    && length <= c.maxPendingBytes && length + RECORD_HEADER_SIZE <= c.maxJournalBytes
    && RequestBlocks(offset, length) <= c.maxDirtyBlocks
  }

  /** The blocks of 512 bytes that a request touches. */
  ghost function Touched(offset: nat, length: nat): set<nat> {
    set p | offset <= p < offset + length :: p / 512
  }

  ghost function Range(lo: nat, hi: nat): (s: set<nat>)
    ensures |s| == (if lo < hi then hi - lo else 0) && forall b :: b in s <==> lo <= b < hi
    decreases hi
  {
    if lo >= hi then {} else Range(lo, hi - 1) + {hi - 1}
  }

  /** A request spans as many blocks as it touches. */
  lemma RequestBlocksTouched(offset: nat, length: nat)
    requires length > 0
    ensures |Touched(offset, length)| == RequestBlocks(offset, length)
  {
    var lo, hi := offset / 512, NextBlock(offset, length);
    var touched, range := Touched(offset, length), Range(lo, hi);
    forall b: nat ensures b in range <==> b in touched {
      if b in range {
        var p := if offset < b * 512 then b * 512 else offset;
        assert offset <= p < offset + length && p / 512 == b;
      }
    }
    assert range == touched;
  }

  /**
   * What the limits mean: startup would accept a journal of this one record, and the record touches no
   * more blocks than may be dirty.
   */
  lemma WithinLimitsMeans(c: Config, r: Record)
    requires c.Valid() && Fits(c.cardSize, r)
    ensures WithinLimits(c, r.offset, |r.data|) <==>
      Loads(c, Encode(c, r)) && |Touched(r.offset, |r.data|)| <= c.maxDirtyBlocks
  {
    RequestBlocksTouched(r.offset, |r.data|);
    WholeJournalAccepted(c, [r]);
    assert [r][..0] == [] && [r][0] == r;
    assert EncodeAll(c, [r]) == Encode(c, r) && Payload([r]) == |r.data|;
    RecordLayout(c, r);
  }

  class SaveCard {
    const c: Config
    const fs: FileSystem
    var file: Option<seq<byte>>
    var metadata: Metadata
    var dirty: Blocks
    var pendingBytes: nat
    var journalBytes: nat
    var blocked: bool

    /** The records in an unblocked card's journal, acknowledged or not. */
    ghost var recs: seq<Record>
    /** What a restart that accepts the journal yields; after a failed write not always the contents. */
    ghost var limbo: seq<byte>
    /**
     * A checkpoint failed and its rollback failed too. This is a note for whoever drives the
     * card; no operation consults it.
     */
    var stranded: bool

    constructor (c: Config, fs: FileSystem, file: seq<byte>, metadata: Metadata, journalBytes: nat)
      ensures this.c == c && this.fs == fs && this.file == Some(file) && this.metadata == metadata
      ensures dirty == map[] && pendingBytes == 0 && this.journalBytes == journalBytes
      ensures !blocked && recs == [] && limbo == file && !stranded
    {
      this.c, this.fs, this.file, this.metadata := c, fs, Some(file), metadata;
      dirty, pendingBytes, this.journalBytes, blocked := map[], 0, journalBytes, false;
      recs, limbo, stranded := [], file, false;
    }

    ghost predicate Opened()
      reads this
    {
      c.Valid() && file.Some? && |file.value| == c.cardSize && BlocksFit(c.cardSize, dirty)
    }

    /** The logical card that reads observe. */
    ghost function Contents(): seq<byte>
      reads this
      requires Opened()
    {
      Overlay(file.value, dirty)
    }

    /** The open image, the active image and any leftover previous one agree on `b`. */
    predicate HoldsImage(b: seq<byte>)
      reads this, fs`disk
    {
      && file == Some(b) && |b| == c.cardSize && Active in fs.disk.raw && fs.disk.raw[Active].bytes == b
      && metadata.owner == c.owner && metadata.cardSize == c.cardSize
      && PreviousIs(b)
    }

    /** Memory and disk agree that `b` is the confirmed image. */
    ghost predicate Holds(b: seq<byte>)
      reads this, fs`disk
    {
      HoldsImage(b) && Coherent(fs.disk)
    }

    /** A leftover previous image is this one, or an incomplete copy that startup refuses. */
    predicate PreviousIs(b: seq<byte>)
      reads this, fs`disk
    {
      Previous in fs.disk.raw ==>
        fs.disk.raw[Previous].bytes == b || |fs.disk.raw[Previous].bytes| != c.cardSize
    }

    /** The metadata, on disk and in memory, vouches for the active image. */
    ghost predicate CurrentVouches()
      reads this, fs`disk
    {
      && Active in fs.disk.raw && fs.disk.current.Some?
      && Matches(c, fs.disk.raw[Active], fs.disk.current.value)
      && metadata.sha == c.hash(fs.disk.raw[Active].bytes)
    }

    /** The metadata vouches for the active image, and a whole previous card decides. */
    ghost predicate Told()
      reads this, fs`disk
    {
      CurrentVouches() && (PreviousWhole(c, fs.disk) ==> PreviousDecides(c, fs.disk))
    }

    /** The metadata vouches for the active image, and any previous card decides. */
    ghost predicate Confirmed()
      reads this, fs`disk
    {
      CurrentVouches() && (Previous in fs.disk.raw ==> PreviousDecides(c, fs.disk))
    }

    /** The recorded checksum is that of the open image. */
    ghost predicate Trusted()
      reads this
    {
      file.Some? && metadata.sha == c.hash(file.value)
    }

    /** The card can get a second name: by a hard link, or by a copy that passes validation. */
    ghost predicate Keepable()
      reads this
    {
      fs.links || Trusted()
    }

    /** The journal, where startup accepts it, leads from the base and from the card itself to limbo. */
    ghost predicate JournalLeads(base: seq<byte>, flat: seq<byte>)
      reads this, fs`disk
    {
      && |base| == |flat| == |limbo| == c.cardSize && c.Digests()
      && Settles(c, base, fs.disk.journal, limbo, limbo)
      && Settles(c, flat, fs.disk.journal, limbo, limbo)
      && (!blocked ==> RecordsLead(fs.disk.journal, base, flat))
      && CountersFit()
    }

    /** The journal is its records, and they take the base and the card itself to limbo. */
    ghost predicate RecordsLead(journal: seq<byte>, base: seq<byte>, flat: seq<byte>)
      requires c.Digests()
      reads this
    {
      && |base| == |flat| == c.cardSize && AllFit(c.cardSize, recs) && journal == EncodeAll(c, recs)
      && Replay(base, recs) == limbo && Replay(flat, recs) == limbo
    }

    ghost predicate CountersFit()
      reads this
    {
      && pendingBytes <= c.maxPendingBytes && journalBytes <= c.maxJournalBytes
      && (dirty == map[] ==> pendingBytes == 0 && journalBytes == 0)
    }

    /** The counters cover what is in the journal: no record of a failed write escapes them. */
    ghost predicate Counted()
      reads this, fs`disk
    {
      |fs.disk.journal| <= journalBytes && Payload(recs) <= pendingBytes
    }

    /** No write failed midway since the last checkpoint: a restart yields the contents. */
    ghost predicate Intact()
      reads this, fs`disk
      requires Opened()
    {
      !blocked && limbo == Contents() && Counted()
    }

    ghost predicate JournalAgrees()
      reads this, fs`disk
      requires Opened()
    {
      JournalLeads(file.value, Contents())
    }

    ghost predicate Consistent()
      reads this, fs`disk
    {
      !stranded && Opened() && Holds(file.value) && JournalAgrees()
    }

    /** The invariant of every open card. */
    ghost predicate Valid()
      reads this, fs`disk
    {
      Consistent() && |dirty| <= c.maxDirtyBlocks
    }

    /** What a crash of the card as it stands leads to. */
    ghost function Standing(): Promise
      reads this, fs`disk
      requires Opened()
    {
      Promise(c, Contents(), limbo, Told(), Loads(c, fs.disk.journal), Confirmed() && fs.reliable && fs.links,
        Quiet(fs.disk), [])
    }

    /** A promise that the base and the contents both honour, with this journal. */
    ghost predicate Fitting(k: Promise)
      reads this, fs`disk
      requires Opened()
    {
      && Settling(k, file.value) && Settling(k, Contents())
      && (Contents() == k.x || Contents() == k.y)
      && (k.sound ==> CurrentVouches())
    }

    lemma StandingEndures()
      requires Consistent()
      ensures Endures(Standing(), fs.disk) && Fitting(Standing())
    {
      if Previous in fs.disk.raw {
        EnduresPrevious(Standing(), fs.disk);
      } else {
        EnduresPlain(Standing(), fs.disk);
      }
    }

    /**
     * Startup accepts the journal of an unblocked card exactly when its records, those of failed
     * writes included, are within both limits; the counters vouch for that only while they cover it.
     */
    lemma LoadsWithinLimits()
      requires Opened() && JournalAgrees() && !blocked
      ensures Loads(c, fs.disk.journal)
        <==> |fs.disk.journal| <= c.maxJournalBytes && Payload(recs) <= c.maxPendingBytes
      ensures Counted() ==> Loads(c, fs.disk.journal)
    {
      WholeJournalAccepted(c, recs);
    }

    // ---- Reads ----

    /** Reads from the base image; a failure leaves a shorter prefix. */
    method FileReadAt(buffer: array<byte>, at: nat, length: nat, offset: nat) returns (count: nat)
      requires Opened() && at + length <= buffer.Length && offset + length <= c.cardSize
      modifies buffer, fs`faults
      ensures count <= length && fs.Settle(count == length)
      ensures buffer[at..at + count] == file.value[offset..offset + count]
      ensures buffer[..at] == old(buffer[..at])
      ensures buffer[at + length..] == old(buffer[at + length..])
    {
      var base := file.value;
      count := length;
      if length > 0 {
        var ok := fs.Attempt();
        if !ok {
          count :| 0 <= count < length;
        }
      }
      for i := 0 to count
        invariant fs.Settle(count == length)
        invariant buffer[at..at + i] == base[offset..offset + i]
        invariant buffer[..at] == old(buffer[..at])
        invariant buffer[at + length..] == old(buffer[at + length..])
      {
        buffer[at + i] := base[offset + i];
      }
    }

    /**
     * Reads the flat card, coalescing each run of clean blocks into one base read. A base read that
     * fails ends it: the count says how many bytes are there, and they are the card's.
     */
    method ReadSaveAt(buffer: array<byte>, offset: int) returns (r: ReadResult)
      requires Opened()
      modifies buffer, fs`faults
      ensures r == ReadOutside <==> offset < 0 || buffer.Length > c.cardSize - offset
      ensures r == ReadOutside ==> buffer[..] == old(buffer[..])
      ensures r.Read? ==> r.count == buffer.Length
      ensures r.ReadFailed? ==> r.count < buffer.Length
      ensures r != ReadOutside ==> buffer[..r.count] == Contents()[offset..offset + r.count]
      ensures fs.Settle(!r.ReadFailed?)
    {
      if offset < 0 || buffer.Length > c.cardSize - offset {
        return ReadOutside;
      }
      var count: nat;
      if |dirty| == 0 {
        assert dirty == map[];
        count := FileReadAt(buffer, 0, buffer.Length, offset);
        assert buffer[..count] == buffer[0..0 + count];
        OverlayNothing(file.value);
      } else {
        count := ReadMixed(buffer, offset);
      }
      r := if count == buffer.Length then Read(count) else ReadFailed(count);
    }

    /** Reads block by block: dirty blocks from memory, clean runs from the base. */
    method ReadMixed(buffer: array<byte>, offset: nat) returns (done: nat)
      requires Opened() && offset + buffer.Length <= c.cardSize
      modifies buffer, fs`faults
      ensures done <= buffer.Length && fs.Settle(done == buffer.Length)
      ensures buffer[..done] == Contents()[offset..offset + done]
    {
      ghost var flat := Contents();
      done := 0;
      while done < buffer.Length
        invariant 0 <= done <= buffer.Length && fs.Settle(true)
        invariant buffer[..done] == flat[offset..offset + done]
      {
        ghost var before := buffer[..done];
        var length, ok := ReadRun(buffer, done, offset + done);
        assert buffer[..done + length] == before + buffer[done..done + length];
        SliceGrows(flat, offset, done, length);
        done := done + length;
        if !ok { return; }
      }
    }

    /** One step of a mixed read: part of a dirty block, or a run of clean bytes, whole or cut short. */
    method ReadRun(buffer: array<byte>, done: nat, position: nat) returns (length: nat, ok: bool)
      requires Opened() && done < buffer.Length && position + (buffer.Length - done) <= c.cardSize
      modifies buffer, fs`faults
      ensures length <= buffer.Length - done && (ok ==> length > 0)
      ensures fs.Settle(ok) && (!ok ==> length < buffer.Length - done)
      ensures buffer[done..done + length] == Contents()[position..position + length]
      ensures buffer[..done] == old(buffer[..done])
    {
      var block := position / SAVE_BLOCK_SIZE;
      var inBlock := position % SAVE_BLOCK_SIZE;
      if block in dirty {
        length, ok := RestOfBlock(position, buffer.Length - done), true;
        CopyInto(buffer, done, dirty[block][inBlock..inBlock + length]);
        DirtySpan(position, length);
      } else {
        var run := CleanRun(position, buffer.Length - done);
        length := FileReadAt(buffer, done, run, position);
        ok := length == run;
        CleanSpan(position, length);
      }
    }

    ghost predicate Clean(position: nat, length: nat)
      reads this
    {
      forall p :: position <= p < position + length ==> p / SAVE_BLOCK_SIZE !in dirty
    }

    /** Extends a clean block's bytes over the clean blocks that follow it. */
    method CleanRun(position: nat, remaining: nat) returns (length: nat)
      requires remaining > 0 && position / SAVE_BLOCK_SIZE !in dirty
      ensures 0 < length <= remaining && Clean(position, length)
      ensures length < remaining ==> (position + length) / SAVE_BLOCK_SIZE in dirty
    {
      length := RestOfBlock(position, remaining);
      SameBlock(position, length);
      while length < remaining && (position + length) / SAVE_BLOCK_SIZE !in dirty
        invariant 0 < length <= remaining
        invariant length == remaining || (position + length) % SAVE_BLOCK_SIZE == 0
        invariant Clean(position, length)
      {
        var more := MinNat(remaining - length, SAVE_BLOCK_SIZE);
        SameBlock(position + length, more);
        length := length + more;
      }
    }

    lemma CleanSpan(position: nat, length: nat)
      requires Opened() && position + length <= c.cardSize && Clean(position, length)
      ensures Contents()[position..position + length] == file.value[position..position + length]
    {
    }

    lemma DirtySpan(position: nat, length: nat)
      requires Opened() && position / SAVE_BLOCK_SIZE in dirty
      requires position % SAVE_BLOCK_SIZE + length <= SAVE_BLOCK_SIZE && position + length <= c.cardSize
      ensures Contents()[position..position + length]
        == dirty[position / SAVE_BLOCK_SIZE][position % SAVE_BLOCK_SIZE..position % SAVE_BLOCK_SIZE + length]
    {
      SameBlock(position, length);
    }

    // ---- Checkpoints ----

    /** Writes a staged image next to the card; the card's own files are not touched. */
    method StageCopy(name: RawName, bytes: seq<byte>, ghost k: Promise, ghost from: nat) returns (ok: bool)
      requires name !in {Active, Previous} && (k.quiet ==> name == Checkpoint) && fs.Safe(k, from)
      modifies fs
      ensures fs.Safe(k, from) && OnlyStaged(old(fs.disk), fs.disk, name)
      ensures fs.Settle(ok)
      ensures ok ==> name in fs.disk.raw && Alone(fs.disk, name) && fs.disk.raw[name].bytes == bytes
      ensures ok ==> |fs.history| > |old(fs.history)| && fs.history[|fs.history| - 1] == fs.disk
    {
      ghost var start := fs.disk;
      ok := OpenStage(name, start, k, from);
      if !ok { return; }
      ok := fs.FillStage(name, bytes, start, k, from);
      if ok {
        ok := fs.Attempt();
      }
      if !ok {
        var _ := fs.DropStage(name, start, k, from);
      }
    }

    /** An empty staged file, in place of one that an earlier attempt may have left. */
    method OpenStage(name: RawName, ghost start: Disk, ghost k: Promise, ghost from: nat) returns (ok: bool)
      requires name !in {Active, Previous} && (k.quiet ==> name == Checkpoint) && fs.Safe(k, from)
      requires OnlyStaged(start, fs.disk, name)
      modifies fs
      ensures fs.Safe(k, from) && OnlyStaged(start, fs.disk, name) && fs.Settle(ok)
      ensures ok ==> name in fs.disk.raw && Alone(fs.disk, name) && |fs.history| > |old(fs.history)|
    {
      var gone := fs.DropStage(name, start, k, from);
      if gone == Fault { return false; }
      ok := fs.Attempt();
      if !ok { return; }
      ok := fs.NewStage(name, start, k, from);
    }

    /** The new image: the active card with every dirty block written over it, in order. */
    method StageCheckpoint(ghost k: Promise, ghost from: nat) returns (ok: bool)
      requires Opened() && Holds(file.value) && fs.Safe(k, from)
      modifies fs
      ensures fs.Safe(k, from) && OnlyStaged(old(fs.disk), fs.disk, Checkpoint)
      ensures fs.Settle(ok)
      ensures ok ==> Checkpoint in fs.disk.raw && Alone(fs.disk, Checkpoint)
      ensures ok ==> fs.disk.raw[Checkpoint].bytes == Contents()
    {
      ghost var start := fs.disk;
      ok := StageCopy(Checkpoint, fs.disk.raw[Active].bytes, k, from);
      if !ok { return; }
      var block := 0;
      while ok && block < c.cardSize / SAVE_BLOCK_SIZE
        invariant 0 <= block <= c.cardSize / SAVE_BLOCK_SIZE
        invariant fs.Safe(k, from) && OnlyStaged(start, fs.disk, Checkpoint)
        invariant fs.Settle(ok)
        invariant Checkpoint in fs.disk.raw && Alone(fs.disk, Checkpoint)
        invariant ok ==> |fs.disk.raw[Checkpoint].bytes| == c.cardSize
        invariant ok ==> MergedTo(fs.disk.raw[Checkpoint].bytes, block)
        decreases c.cardSize / SAVE_BLOCK_SIZE - block, ok
      {
        if block in dirty {
          ghost var image := fs.disk.raw[Checkpoint].bytes;
          ok := fs.PatchStage(Checkpoint, block * SAVE_BLOCK_SIZE, dirty[block], start, k, from);
          MergeBlock(image, block);
        } else {
          MergeClean(fs.disk.raw[Checkpoint].bytes, block);
        }
        block := block + 1;
      }
      if ok {
        assert fs.disk.raw[Checkpoint].bytes == Contents();
        ok := fs.Attempt();
      }
      if !ok {
        var _ := fs.DropStage(Checkpoint, start, k, from);
      }
    }

    /** Blocks below `block` hold the overlay, the others still the base. */
    ghost predicate MergedTo(image: seq<byte>, block: nat)
      reads this
      requires Opened() && |image| == c.cardSize
    {
      forall i :: 0 <= i < c.cardSize ==>
        image[i] == if i / SAVE_BLOCK_SIZE < block then Contents()[i] else file.value[i]
    }

    lemma MergeBlock(image: seq<byte>, block: nat)
      requires Opened() && |image| == c.cardSize && MergedTo(image, block) && block in dirty
      ensures MergedTo(Patch(image, block * SAVE_BLOCK_SIZE, dirty[block]), block + 1)
    {
      var next := Patch(image, block * SAVE_BLOCK_SIZE, dirty[block]);
      forall i | 0 <= i < c.cardSize
        ensures next[i] == if i / SAVE_BLOCK_SIZE < block + 1 then Contents()[i] else file.value[i]
      {
        if i / SAVE_BLOCK_SIZE == block {
          assert Contents()[i] == dirty[block][i - block * SAVE_BLOCK_SIZE];
        }
      }
    }

    lemma MergeClean(image: seq<byte>, block: nat)
      requires Opened() && |image| == c.cardSize && MergedTo(image, block) && block !in dirty
      ensures MergedTo(image, block + 1)
    {
    }

    /** The journal takes this image to one of the promised cards, and will load. */
    ghost predicate Settling(k: Promise, image: seq<byte>)
      reads this, fs`disk
    {
      && k.c == c && |image| == c.cardSize
      && Settles(c, image, fs.disk.journal, k.x, k.y)
      && (k.loads ==> Loads(c, fs.disk.journal))
      && (k.sure ==> k.sound && fs.reliable && fs.links)
    }

    /** Drops whatever previous card and marker an earlier attempt left. */
    method ClearPrevious(ghost k: Promise, ghost from: nat) returns (ok: bool)
      requires file.Some? && Holds(file.value) && fs.Safe(k, from) && Settling(k, file.value)
      requires k.sound ==> CurrentVouches()
      modifies fs
      ensures fs.Safe(k, from) && fs.Settle(ok)
      ensures OnlyPrevious(old(fs.disk), fs.disk) && PreviousIs(file.value)
      ensures ok ==> Previous !in fs.disk.raw && fs.disk.previous.None?
    {
      EnduresPlain(k, Removed(fs.disk, Previous));
      var r := fs.Unlink(Previous, k, from);
      if r == Fault { return false; }
      EnduresPlain(k, fs.disk.(previous := None));
      r := fs.Unmark(k, from);
      ok := r != Fault;
    }

    /** The marker is written; the card's own name is about to get a second one. */
    ghost predicate Marked(k: Promise)
      reads this, fs`disk
    {
      && c.Valid() && file.Some? && Holds(file.value) && Settling(k, file.value)
      && fs.disk.previous == Some(metadata) && (k.sound ==> CurrentVouches())
    }

    /** Names the active image a second time; where links fail, copies it. */
    method LinkPrevious(ghost k: Promise, ghost from: nat) returns (ok: bool)
      requires Marked(k) && fs.Safe(k, from) && Previous !in fs.disk.raw
      modifies fs
      ensures Marked(k) && fs.Safe(k, from) && fs.Settle(ok || !Keepable()) && OnlyPrevious(old(fs.disk), fs.disk)
      ensures ok ==> Previous in fs.disk.raw && fs.disk.raw[Previous].bytes == file.value
      ensures ok ==> fs.disk.raw[Previous] == fs.disk.raw[Active] || Alone(fs.disk, Previous)
      ensures ok && !fs.links ==> Refused(fs.history, from)
    {
      PreviousEndures(k, Written(fs.disk, Previous, fs.disk.raw[Active]));
      ok := fs.HardLink(Active, Previous, k, from);
      if !ok {
        ok := CopyPrevious(k, from);
      }
    }

    /** Startup refuses a state passed through since `from`. */
    ghost predicate Refused(history: seq<Disk>, from: nat)
    {
      exists i :: from <= i < |history| && OpensTo(c, history[i]).None?
    }

    lemma StillRefused(past: seq<Disk>, history: seq<Disk>, from: nat)
      requires Refused(past, from) && Extends(past, history)
      ensures Refused(history, from)
    {
      var i :| from <= i < |past| && OpensTo(c, past[i]).None?;
      assert history[i] == past[i];
    }

    lemma NowRefused(history: seq<Disk>, from: nat)
      requires from < |history| && OpensTo(c, history[|history| - 1]).None?
      ensures Refused(history, from)
    {
    }

    /** A copy of the card beside it, whole or not: startup uses it or refuses it. */
    lemma PreviousEndures(k: Promise, d: Disk)
      requires Marked(k) && OnlyPrevious(fs.disk, d) && d.previous == fs.disk.previous && (k.quiet ==> Quiet(d))
      requires Previous in d.raw && (d.raw[Previous].bytes == file.value || |d.raw[Previous].bytes| != c.cardSize)
      requires k.sure ==> d.raw[Previous].bytes == file.value
      ensures Endures(k, d)
    {
      EnduresPrevious(k, d);
    }

    /** Copies the card under its second name, then checks the copy against the metadata. */
    method CopyPrevious(ghost k: Promise, ghost from: nat) returns (ok: bool)
      requires Marked(k) && fs.Safe(k, from) && !k.sure && Previous !in fs.disk.raw
      modifies fs
      ensures Marked(k) && fs.Safe(k, from) && fs.Settle(ok || !Trusted()) && OnlyPrevious(old(fs.disk), fs.disk)
      ensures ok ==> Previous in fs.disk.raw && fs.disk.raw[Previous].bytes == file.value
      ensures ok ==> Alone(fs.disk, Previous) && Refused(fs.history, from)
    {
      ok := CreatePrevious(k, from);
      if !ok { return; }
      ghost var past := fs.history;
      fs.SafeFrom(k, from);
      ok := FillPrevious(k.(past := past), from);
      fs.SafeSince(k, past, from);
      StillRefused(past, fs.history, from);
      if ok {
        ok := fs.Attempt();
        if ok {
          ok := c.hash(fs.disk.raw[Previous].bytes) == metadata.sha;
        }
      }
    }

    /** An empty previous card: startup refuses the directory until it is whole. */
    method CreatePrevious(ghost k: Promise, ghost from: nat) returns (ok: bool)
      requires Marked(k) && fs.Safe(k, from) && !k.sure && Previous !in fs.disk.raw
      modifies fs
      ensures Marked(k) && fs.Safe(k, from) && fs.Settle(ok) && OnlyPrevious(old(fs.disk), fs.disk)
      ensures ok ==> Previous in fs.disk.raw && Alone(fs.disk, Previous) && Refused(fs.history, from)
    {
      ok := fs.Create(Previous);
      if !ok { return; }
      PreviousEndures(k, fs.disk);
      NowRefused(fs.history, from);
    }

    method DropPrevious(ghost k: Promise, ghost from: nat)
      requires Marked(k) && fs.Safe(k, from) && !k.sure
      modifies fs
      ensures Marked(k) && fs.Safe(k, from) && fs.faults >= old(fs.faults) && OnlyPrevious(old(fs.disk), fs.disk)
    {
      EnduresPlain(k, Removed(fs.disk, Previous));
      var _ := fs.Unlink(Previous, k, from);
    }

    /** Writes and syncs the copy; when that fails, tries to remove it. */
    method FillPrevious(ghost k: Promise, ghost from: nat) returns (ok: bool)
      requires Marked(k) && fs.Safe(k, from) && !k.sure
      requires Previous in fs.disk.raw && Alone(fs.disk, Previous)
      modifies fs
      ensures Marked(k) && fs.Safe(k, from) && fs.Settle(ok) && OnlyPrevious(old(fs.disk), fs.disk)
      ensures ok ==> Previous in fs.disk.raw && fs.disk.raw[Previous].bytes == file.value
      ensures ok ==> Alone(fs.disk, Previous)
    {
      ok := WritePrevious(k, from);
      if ok {
        ok := fs.Attempt();
      }
      if !ok {
        DropPrevious(k, from);
      }
    }

    method WritePrevious(ghost k: Promise, ghost from: nat) returns (ok: bool)
      requires Marked(k) && fs.Safe(k, from) && !k.sure
      requires Previous in fs.disk.raw && Alone(fs.disk, Previous)
      modifies fs
      ensures Marked(k) && fs.Safe(k, from) && fs.Settle(ok) && OnlyPrevious(old(fs.disk), fs.disk)
      ensures ok ==> Previous in fs.disk.raw && fs.disk.raw[Previous].bytes == file.value
      ensures ok ==> Alone(fs.disk, Previous)
    {
      ghost var start, was := fs.disk, fs.history;
      ok := fs.Fill(Previous, file.value);
      forall i | |was| <= i < |fs.history|
        ensures Endures(k, fs.history[i])
        ensures fs.history[i].raw[Previous].bytes == file.value
          || |fs.history[i].raw[Previous].bytes| != c.cardSize
      {
        assert OnlyFilled(start, fs.history[i], Previous, file.value);
        var part := fs.history[i].raw[Previous].bytes;
        assert |part| == |file.value| ==> part == file.value;
        PreviousEndures(k, fs.history[i]);
      }
      assert forall i :: from <= i < |was| ==> fs.history[i] == was[i];
    }

    /** Keeps the confirmed card under a second name before it is replaced. */
    method PreparePrevious(ghost stage: RawName, ghost k: Promise, ghost from: nat) returns (ok: bool)
      requires c.Valid() && file.Some? && Holds(file.value) && fs.Safe(k, from) && Settling(k, file.value)
      requires k.sound ==> CurrentVouches()
      requires stage !in {Active, Previous} && stage in fs.disk.raw && Alone(fs.disk, stage)
      modifies fs
      ensures fs.Safe(k, from) && fs.Settle(ok || !Keepable())
      ensures OnlyPrevious(old(fs.disk), fs.disk) && PreviousIs(file.value)
      ensures ok ==> Previous in fs.disk.raw && fs.disk.raw[Previous].bytes == file.value
      ensures ok ==> fs.disk.previous == Some(metadata) && fs.disk.raw[stage].tag != fs.disk.raw[Active].tag
      ensures ok ==> fs.disk.raw[stage].tag != fs.disk.raw[Previous].tag
      ensures ok && !fs.links ==> Refused(fs.history, from)
    {
      ok := MarkAnew(k, from);
      if !ok { return; }
      ok := LinkPrevious(k, from);
      if !ok { return; }
      ok := fs.Attempt();
    }

    /** Clears what is left of an earlier previous card, then writes the marker of the next. */
    method MarkAnew(ghost k: Promise, ghost from: nat) returns (ok: bool)
      requires c.Valid() && file.Some? && Holds(file.value) && fs.Safe(k, from) && Settling(k, file.value)
      requires k.sound ==> CurrentVouches()
      modifies fs
      ensures fs.Safe(k, from) && fs.Settle(ok)
      ensures OnlyPrevious(old(fs.disk), fs.disk) && PreviousIs(file.value)
      ensures ok ==> Marked(k) && Previous !in fs.disk.raw
    {
      ok := ClearPrevious(k, from);
      if !ok { return; }
      ok := MarkPrevious(k, from);
    }

    method MarkPrevious(ghost k: Promise, ghost from: nat) returns (ok: bool)
      requires file.Some? && Holds(file.value) && fs.Safe(k, from) && Settling(k, file.value)
      requires k.sound ==> CurrentVouches()
      requires Previous !in fs.disk.raw
      modifies fs
      ensures fs.Safe(k, from) && fs.Settle(ok)
      ensures fs.disk == old(fs.disk).(previous := fs.disk.previous)
      ensures ok ==> fs.disk.previous == Some(metadata)
    {
      EnduresPlain(k, fs.disk.(previous := Some(metadata)));
      ok := fs.Mark(metadata, k, from);
    }

    /** The new card is confirmed: forget the previous one, marker first. */
    method CommitPrevious(ghost k: Promise, ghost from: nat) returns (ok: bool)
      requires Active in fs.disk.raw && fs.Safe(k, from) && Settling(k, fs.disk.raw[Active].bytes)
      requires Previous in fs.disk.raw && Settling(k, fs.disk.raw[Previous].bytes)
      requires k.sound ==> CurrentVouches()
      requires fs.disk.previous.Some?
      modifies fs
      ensures fs.Safe(k, from) && fs.Settle(ok)
      ensures OnlyPrevious(old(fs.disk), fs.disk)
      ensures Previous in fs.disk.raw ==> fs.disk.raw[Previous] == old(fs.disk).raw[Previous]
      ensures ok ==> Previous !in fs.disk.raw
    {
      EnduresPrevious(k, fs.disk.(previous := None));
      var r := fs.Unmark(k, from);
      if r != Gone { return false; }
      ok := DropCommitted(k, from);
    }

    method DropCommitted(ghost k: Promise, ghost from: nat) returns (ok: bool)
      requires Active in fs.disk.raw && fs.Safe(k, from) && Settling(k, fs.disk.raw[Active].bytes)
      requires Previous in fs.disk.raw && (k.sound ==> CurrentVouches())
      modifies fs
      ensures fs.Safe(k, from) && fs.Settle(ok)
      ensures fs.disk == old(fs.disk) || fs.disk == Removed(old(fs.disk), Previous)
      ensures ok ==> Previous !in fs.disk.raw
    {
      EnduresPlain(k, Removed(fs.disk, Previous));
      var r := fs.Unlink(Previous, k, from);
      if r != Gone { return false; }
      ok := fs.Attempt();
    }

    /** A sound disk whose base is a settling image keeps a promise that is not sure. */
    lemma RollbackEndures(k: Promise, d: Disk, image: seq<byte>)
      requires !k.sure && Settling(k, image) && (k.quiet ==> Quiet(d)) && d.journal == fs.disk.journal
      requires Base(d) == Some(image) && (k.sound ==> Sound(c, d))
      ensures Endures(k, d)
    {
    }

    /** Puts the staged image in place, confirms it in the metadata and drops the previous card. */
    method Activate(stage: RawName, sum: seq<byte>, verify: bool,
                    ghost image: seq<byte>, ghost k: Promise, ghost from: nat) returns (ok: bool)
      requires file.Some? && Holds(file.value) && fs.Safe(k, from)
      requires Settling(k, file.value) && Settling(k, image)
      requires Previous in fs.disk.raw && fs.disk.raw[Previous].bytes == file.value
      requires fs.disk.previous == Some(metadata) && (k.sound ==> metadata.sha == c.hash(file.value))
      requires stage !in {Active, Previous} && stage in fs.disk.raw && fs.disk.raw[stage].bytes == image
      requires fs.disk.raw[stage].tag != fs.disk.raw[Active].tag && sum == c.hash(image) && c.Valid()
      modifies this`file, this`metadata, fs
      ensures fs.Safe(k, from) && fs.Settle(ok) && OutsideCard(old(fs.disk), fs.disk, stage)
      ensures ok ==> Holds(image) && Previous !in fs.disk.raw && CurrentVouches() && stage !in fs.disk.raw
      ensures Active in fs.disk.raw
      ensures Previous in fs.disk.raw ==> fs.disk.raw[Previous].bytes == old(file.value)
      ensures Previous !in fs.disk.raw ==> Holds(image)
    {
      ok := fs.Attempt();
      file := None;
      if !ok { return; }
      ok := RenameStage(stage, image, k, from);
      if !ok {
        var reopened := fs.Attempt();
        if reopened {
          file := Some(fs.disk.raw[Active].bytes);
        }
        return;
      }
      ok := ReopenActive(sum, verify, k, from);
    }

    /** The new image takes the active name while the previous card still decides. */
    method RenameStage(stage: RawName, ghost image: seq<byte>, ghost k: Promise, ghost from: nat)
      returns (ok: bool)
      requires fs.Safe(k, from) && c.Valid() && Active in fs.disk.raw
      requires Previous in fs.disk.raw && Settling(k, fs.disk.raw[Previous].bytes)
      requires fs.disk.previous.Some? && fs.disk.previous.value.owner == c.owner
      requires fs.disk.previous.value.cardSize == c.cardSize
      requires k.sound ==> fs.disk.previous.value.sha == c.hash(fs.disk.raw[Previous].bytes)
      requires stage !in {Active, Previous} && stage in fs.disk.raw && fs.disk.raw[stage].bytes == image
      requires fs.disk.raw[stage].tag != fs.disk.raw[Active].tag && |image| == c.cardSize
      modifies fs
      ensures fs.Safe(k, from) && fs.Settle(ok) && OutsideCard(old(fs.disk), fs.disk, stage)
      ensures Previous in fs.disk.raw && fs.disk.raw[Previous] == old(fs.disk).raw[Previous]
      ensures fs.disk.previous == old(fs.disk).previous && Active in fs.disk.raw
      ensures ok ==> fs.disk.raw[Active] == old(fs.disk).raw[stage] && stage !in fs.disk.raw
      ensures !ok ==> fs.disk == old(fs.disk)
    {
      EnduresPrevious(k, Renamed(fs.disk, stage, Active));
      ok := fs.Move(stage, Active, k, from);
    }

    method ReopenActive(sum: seq<byte>, verify: bool, ghost k: Promise, ghost from: nat) returns (ok: bool)
      requires c.Valid() && Active in fs.disk.raw && fs.Safe(k, from)
      requires sum == c.hash(fs.disk.raw[Active].bytes) && Settling(k, fs.disk.raw[Active].bytes)
      requires Previous in fs.disk.raw && Settling(k, fs.disk.raw[Previous].bytes)
      requires metadata.owner == c.owner && metadata.cardSize == c.cardSize
      requires fs.disk.previous == Some(metadata)
      requires k.sound ==> metadata.sha == c.hash(fs.disk.raw[Previous].bytes)
      modifies this`file, this`metadata, fs
      ensures fs.Safe(k, from) && fs.Settle(ok) && OutsideCard(old(fs.disk), fs.disk, Active)
      ensures ok ==> Holds(old(fs.disk.raw[Active].bytes)) && Previous !in fs.disk.raw && CurrentVouches()
      ensures Active in fs.disk.raw
      ensures Previous in fs.disk.raw ==> fs.disk.raw[Previous] == old(fs.disk).raw[Previous]
      ensures Previous !in fs.disk.raw ==> Holds(old(fs.disk.raw[Active].bytes))
    {
      ok := fs.Attempt();
      if !ok { return; }
      ok := fs.Attempt();
      if !ok { return; }
      file := Some(fs.disk.raw[Active].bytes);
      ok := fs.Attempt();
      if !ok { return; }
      ok := ConfirmActive(sum, verify, k, from);
    }

    /** The new image is in place: record it, check it if asked, and commit. */
    method ConfirmActive(sum: seq<byte>, verify: bool, ghost k: Promise, ghost from: nat) returns (ok: bool)
      requires c.Valid() && Active in fs.disk.raw && fs.Safe(k, from)
      requires file == Some(fs.disk.raw[Active].bytes) && sum == c.hash(file.value)
      requires Previous in fs.disk.raw && Settling(k, fs.disk.raw[Previous].bytes) && Settling(k, file.value)
      requires metadata.owner == c.owner && metadata.cardSize == c.cardSize
      requires fs.disk.previous == Some(metadata)
      requires k.sound ==> metadata.sha == c.hash(fs.disk.raw[Previous].bytes)
      modifies this`metadata, fs
      ensures fs.Safe(k, from) && fs.Settle(ok) && OutsideCard(old(fs.disk), fs.disk, Active)
      ensures ok ==> Holds(file.value) && Previous !in fs.disk.raw && CurrentVouches()
      ensures Active in fs.disk.raw
      ensures Previous in fs.disk.raw ==> fs.disk.raw[Previous] == old(fs.disk).raw[Previous]
      ensures Previous !in fs.disk.raw ==> Holds(file.value)
    {
      metadata := metadata.(sha := sum, tag := fs.disk.raw[Active].tag);
      EnduresPrevious(k, fs.disk.(current := Some(metadata)));
      ok := fs.Confirm(metadata, k, from);
      if !ok { return; }
      if verify {
        ok := fs.Attempt();
        if !ok { return; }
      }
      ok := CommitPrevious(k, from);
    }

    /** Rolls a failed checkpoint back to the previous card, as far as the calls succeed. */
    method RestorePrevious(previousMetadata: Metadata, ghost image: seq<byte>,
                           ghost k: Promise, ghost from: nat) returns (ok: bool)
      requires !k.sure && Settling(k, image) && fs.Safe(k, from) && Active in fs.disk.raw
      requires Previous in fs.disk.raw ==> fs.disk.raw[Previous].bytes == image
      requires previousMetadata.owner == c.owner && previousMetadata.cardSize == c.cardSize
      requires k.sound ==> |previousMetadata.sha| == 32
      modifies this`file, this`metadata, fs
      ensures fs.Safe(k, from) && fs.faults >= old(fs.faults) && OutsideCard(old(fs.disk), fs.disk, Active)
      ensures
        || Holds(image)
        || fs.faults > old(fs.faults)
        || (Previous !in old(fs.disk).raw && fs.disk == old(fs.disk) && file == old(file) && metadata == old(metadata))
      ensures fs.reliable && Previous in old(fs.disk).raw ==>
        fs.Passed(Renamed(old(fs.disk), Previous, Active), from)
    {
      ok := fs.Attempt();
      if !ok || Previous !in fs.disk.raw { return false; }
      file := None;
      ok := RollBack(previousMetadata, image, k, from);
    }

    method RollBack(previousMetadata: Metadata, ghost image: seq<byte>, ghost k: Promise, ghost from: nat)
      returns (ok: bool)
      requires !k.sure && Settling(k, image) && fs.Safe(k, from) && Active in fs.disk.raw
      requires Previous in fs.disk.raw && fs.disk.raw[Previous].bytes == image
      requires previousMetadata.owner == c.owner && previousMetadata.cardSize == c.cardSize
      requires k.sound ==> |previousMetadata.sha| == 32
      modifies this`file, this`metadata, fs
      ensures fs.Safe(k, from) && fs.faults >= old(fs.faults) && OutsideCard(old(fs.disk), fs.disk, Active)
      ensures Holds(image) || fs.faults > old(fs.faults)
      ensures fs.reliable ==> fs.Passed(Renamed(old(fs.disk), Previous, Active), from)
    {
      ok := MoveBack(image, k, from);
      if !ok { return; }
      ghost var past, gap := fs.history, fs.disk;
      fs.SafeFrom(k, from);
      ok := ReopenPrevious(previousMetadata, image, k.(past := past), from);
      fs.SafeSince(k, past, from);
      StillVisited(past, fs.history, gap, from);
    }

    /** The previous card takes the active name back; the metadata may still be the new one. */
    method MoveBack(ghost image: seq<byte>, ghost k: Promise, ghost from: nat) returns (ok: bool)
      requires !k.sure && Settling(k, image) && fs.Safe(k, from) && Active in fs.disk.raw
      requires Previous in fs.disk.raw && fs.disk.raw[Previous].bytes == image
      modifies fs
      ensures fs.Safe(k, from) && fs.Settle(ok)
      ensures fs.disk == if ok then Renamed(old(fs.disk), Previous, Active) else old(fs.disk)
      ensures ok ==> fs.Passed(fs.disk, from) && fs.disk.raw[Active].bytes == image
    {
      RollbackEndures(k, Renamed(fs.disk, Previous, Active), image) by {
        if k.sound {
          SoundRenamed(c, fs.disk);
        }
      }
      ok := fs.Move(Previous, Active, k, from);
    }

    method ReopenPrevious(previousMetadata: Metadata, ghost image: seq<byte>,
                          ghost k: Promise, ghost from: nat) returns (ok: bool)
      requires !k.sure && Settling(k, image) && fs.Safe(k, from)
      requires Active in fs.disk.raw && fs.disk.raw[Active].bytes == image
      requires Previous in fs.disk.raw ==> fs.disk.raw[Previous].bytes == image
      requires previousMetadata.owner == c.owner && previousMetadata.cardSize == c.cardSize
      requires k.sound ==> |previousMetadata.sha| == 32
      modifies this`file, this`metadata, fs
      ensures fs.Safe(k, from) && fs.faults >= old(fs.faults) && OutsideCard(old(fs.disk), fs.disk, Active)
      ensures Holds(image) || fs.faults > old(fs.faults)
    {
      ok := fs.Attempt();
      if !ok { return; }
      ok := fs.Attempt();
      if !ok { return; }
      file, metadata := Some(fs.disk.raw[Active].bytes), previousMetadata;
      ok := UnmarkPrevious(image, k, from);
    }

    /** Restores metadata.json, then removes the marker. */
    method UnmarkPrevious(ghost image: seq<byte>, ghost k: Promise, ghost from: nat) returns (ok: bool)
      requires !k.sure && Settling(k, image) && fs.Safe(k, from) && Base(fs.disk) == Some(image)
      requires k.sound ==> Describes(c, metadata)
      modifies fs
      ensures fs.Safe(k, from) && fs.faults >= old(fs.faults)
      ensures fs.disk == old(fs.disk).(current := fs.disk.current, previous := fs.disk.previous)
    {
      RollbackEndures(k, fs.disk.(current := Some(metadata)), image) by {
        if k.sound {
          SoundCurrent(c, fs.disk, metadata);
        }
      }
      ok := fs.Confirm(metadata, k, from);
      if !ok { return; }
      RollbackEndures(k, fs.disk.(previous := None), image) by {
        if k.sound {
          SoundUnmarked(c, fs.disk);
        }
      }
      var m := fs.Unmark(k, from);
      if m == Fault { return false; }
      ok := fs.Attempt();
    }

    /** Replaces the card by a staged image, rolling back when a step fails. */
    method Install(stage: RawName, sum: seq<byte>, verify: bool, ghost k: Promise, ghost from: nat)
      returns (ok: bool)
      requires c.Valid() && file.Some? && Holds(file.value) && fs.Safe(k, from) && !stranded
      requires k.quiet ==> stage == Checkpoint
      requires stage !in {Active, Previous} && stage in fs.disk.raw && Alone(fs.disk, stage)
      requires Settling(k, file.value) && Settling(k, fs.disk.raw[stage].bytes)
      requires sum == c.hash(fs.disk.raw[stage].bytes)
      requires k.sound ==> CurrentVouches()
      modifies this`file, this`metadata, this`stranded, fs
      ensures fs.Safe(k, from) && fs.Settle(ok || !old(Keepable())) && OutsideCard(old(fs.disk), fs.disk, stage)
      ensures ok ==> Holds(old(fs.disk.raw[stage].bytes)) && Previous !in fs.disk.raw && CurrentVouches()
      ensures ok ==> !stranded && stage !in fs.disk.raw
      ensures !ok && !stranded ==> Holds(old(file.value)) || Holds(old(fs.disk.raw[stage].bytes))
      ensures stranded ==> fs.faults >= old(fs.faults) + 2
      ensures ok && !fs.links ==> Refused(fs.history, from)
    {
      ok := PreparePrevious(stage, k, from);
      if !ok {
        ghost var start := fs.disk;
        var _ := fs.DropStage(stage, start, k, from);
        return;
      }
      ok := SwapKeeping(stage, sum, verify, k, from);
    }

    /** Swaps, and the states passed through before stay part of the run. */
    method SwapKeeping(stage: RawName, sum: seq<byte>, verify: bool, ghost k: Promise, ghost from: nat)
      returns (ok: bool)
      requires c.Valid() && file.Some? && Holds(file.value) && fs.Safe(k, from) && !stranded
      requires stage !in {Active, Previous} && stage in fs.disk.raw
      requires Settling(k, file.value) && Settling(k, fs.disk.raw[stage].bytes)
      requires sum == c.hash(fs.disk.raw[stage].bytes) && (k.sound ==> CurrentVouches())
      requires Previous in fs.disk.raw && fs.disk.raw[Previous].bytes == file.value
      requires fs.disk.previous == Some(metadata) && fs.disk.raw[stage].tag != fs.disk.raw[Active].tag
      modifies this`file, this`metadata, this`stranded, fs
      ensures fs.Safe(k, from) && fs.Settle(ok) && OutsideCard(old(fs.disk), fs.disk, stage)
      ensures ok ==> Holds(old(fs.disk.raw[stage].bytes)) && Previous !in fs.disk.raw && CurrentVouches()
      ensures ok ==> !stranded && stage !in fs.disk.raw
      ensures !ok && !stranded ==> Holds(old(file.value)) || Holds(old(fs.disk.raw[stage].bytes))
      ensures stranded ==> fs.faults >= old(fs.faults) + 2
      ensures old(Refused(fs.history, from)) ==> Refused(fs.history, from)
    {
      ghost var past := fs.history;
      fs.SafeFrom(k, from);
      ok := Swap(stage, sum, verify, k.(past := past), from);
      fs.SafeSince(k, past, from);
      if Refused(past, from) {
        StillRefused(past, fs.history, from);
      }
    }

    /** The card has a second name: activate the staged image, or roll back. */
    method Swap(stage: RawName, sum: seq<byte>, verify: bool, ghost k: Promise, ghost from: nat)
      returns (ok: bool)
      requires c.Valid() && file.Some? && Holds(file.value) && fs.Safe(k, from) && !stranded
      requires stage !in {Active, Previous} && stage in fs.disk.raw
      requires Settling(k, file.value) && Settling(k, fs.disk.raw[stage].bytes)
      requires sum == c.hash(fs.disk.raw[stage].bytes) && (k.sound ==> CurrentVouches())
      requires Previous in fs.disk.raw && fs.disk.raw[Previous].bytes == file.value
      requires fs.disk.previous == Some(metadata) && fs.disk.raw[stage].tag != fs.disk.raw[Active].tag
      modifies this`file, this`metadata, this`stranded, fs
      ensures fs.Safe(k, from) && fs.Settle(ok) && OutsideCard(old(fs.disk), fs.disk, stage)
      ensures ok ==> Holds(old(fs.disk.raw[stage].bytes)) && Previous !in fs.disk.raw && CurrentVouches()
      ensures ok ==> !stranded && stage !in fs.disk.raw
      ensures !ok && !stranded ==> Holds(old(file.value)) || Holds(old(fs.disk.raw[stage].bytes))
      ensures stranded ==> fs.faults >= old(fs.faults) + 2
    {
      var was, image := file.value, fs.disk.raw[stage].bytes;
      var previousMetadata := metadata;
      ok := Activate(stage, sum, verify, image, k, from);
      if !ok {
        var _ := RestorePrevious(previousMetadata, was, k, from);
        stranded := !HoldsImage(was) && !HoldsImage(image);
      }
    }

    /**
     * Checkpoints the dirty blocks. A crash after any step leaves a disk that opens to the
     * contents (or, once an append has failed, to limbo); one fault never loses the card.
     * Without hard links every checkpoint passes through a state that startup refuses.
     */
    method FlushCard(ghost k: Promise, ghost from: nat) returns (ok: bool)
      requires Consistent() && Fitting(k) && fs.Safe(k, from)
      modifies this, fs
      ensures fs.Settle(ok || !old(Keepable())) && fs.Safe(k, from)
      ensures BesideCard(old(fs.disk), fs.disk, Checkpoint)
      ensures ok ==> Valid() && dirty == map[]
      ensures !ok && !stranded ==> Consistent() && dirty == old(dirty)
      ensures !stranded ==> Contents() == old(Contents()) && (limbo == old(limbo) || limbo == Contents())
      ensures ok && old(dirty) != map[] ==> Emptied() && (!blocked ==> Intact())
      ensures old(Counted()) && !stranded ==> Counted()
      ensures ok && old(dirty) != map[] ==> Previous !in fs.disk.raw && CurrentVouches()
      ensures blocked == old(blocked) && pendingBytes <= old(pendingBytes) && journalBytes <= old(journalBytes)
      ensures ok && old(dirty) != map[] ==> pendingBytes == 0 && journalBytes == 0
      ensures old(dirty) == map[] ==> ok && fs.disk == old(fs.disk) && fs.history == old(fs.history)
      ensures old(dirty) == map[] ==> file == old(file) && metadata == old(metadata)
      ensures old(dirty) == map[] ==> limbo == old(limbo) && recs == old(recs)
      ensures stranded ==> fs.faults >= old(fs.faults) + 2
      ensures ok && old(dirty) != map[] && !fs.links ==> Refused(fs.history, from)
    {
      if |dirty| == 0 { return true; }
      ok := FlushDirty(k, from);
    }

    method FlushDirty(ghost k: Promise, ghost from: nat) returns (ok: bool)
      requires Consistent() && Fitting(k) && fs.Safe(k, from)
      modifies this, fs
      ensures fs.Settle(ok || !old(Keepable())) && fs.Safe(k, from)
      ensures BesideCard(old(fs.disk), fs.disk, Checkpoint)
      ensures ok ==> Valid() && dirty == map[] && limbo == Contents() && fs.disk.journal == [] && recs == []
      ensures old(Counted()) && !stranded ==> Counted()
      ensures !ok && !stranded ==> Consistent() && dirty == old(dirty)
      ensures !stranded ==> Contents() == old(Contents()) && (limbo == old(limbo) || limbo == Contents())
      ensures ok ==> Previous !in fs.disk.raw && CurrentVouches() && pendingBytes == 0 && journalBytes == 0
      ensures blocked == old(blocked) && pendingBytes <= old(pendingBytes) && journalBytes <= old(journalBytes)
      ensures stranded ==> fs.faults >= old(fs.faults) + 2
      ensures ok && !fs.links ==> Refused(fs.history, from)
    {
      ok := ReplaceBase(k, from);
      if !ok { return; }
      ghost var past, middle := fs.history, fs.disk;
      ok := ResetJournal(k, from);
      BesideTwice(old(fs.disk), middle, fs.disk);
      if !fs.links {
        StillRefused(past, fs.history, from);
      }
    }

    lemma BesideTwice(a: Disk, b: Disk, d: Disk)
      requires BesideCard(a, b, Checkpoint) && BesideCard(b, d, Checkpoint)
      ensures BesideCard(a, d, Checkpoint)
    {
    }

    /** Puts the flat card in place of the base image; the journal still leads to it. */
    method ReplaceBase(ghost k: Promise, ghost from: nat) returns (ok: bool)
      requires Consistent() && Fitting(k) && fs.Safe(k, from)
      modifies this`file, this`metadata, this`stranded, fs
      ensures fs.Settle(ok || !old(Keepable())) && fs.Safe(k, from)
      ensures OutsideCard(old(fs.disk), fs.disk, Checkpoint)
      ensures !stranded ==> Consistent() && Contents() == old(Contents())
      ensures ok ==> !stranded && file == Some(Contents()) && Previous !in fs.disk.raw && CurrentVouches()
      ensures stranded ==> fs.faults >= old(fs.faults) + 2
      ensures ok && !fs.links ==> Refused(fs.history, from)
    {
      ghost var base, flat := file.value, Contents();
      ok := StageCheckpoint(k, from);
      if !ok { return; }
      ok := Install(Checkpoint, c.hash(fs.disk.raw[Checkpoint].bytes), false, k, from);
      if !stranded {
        StaysConsistent(base, flat);
      }
    }

    /** Drops the journal that the base has absorbed, then the dirty blocks. */
    method ResetJournal(ghost k: Promise, ghost from: nat) returns (ok: bool)
      requires Absorbed() && fs.Safe(k, from) && k.c == c && (Contents() == k.x || Contents() == k.y)
      requires k.sure ==> k.sound
      modifies this, fs
      ensures fs.Settle(ok) && fs.Safe(k, from)
      ensures BesideCard(old(fs.disk), fs.disk, Checkpoint)
      ensures Absorbed() && Contents() == old(Contents()) && blocked == old(blocked)
      ensures limbo == old(limbo) || limbo == Contents()
      ensures ok ==> Valid() && dirty == map[] && limbo == Contents() && fs.disk.journal == [] && recs == []
      ensures old(Counted()) ==> Counted()
      ensures Extends(old(fs.history), fs.history)
      ensures ok ==> pendingBytes == 0 && journalBytes == 0
      ensures !ok ==> dirty == old(dirty) && pendingBytes == old(pendingBytes) && journalBytes == old(journalBytes)
    {
      ok := SyncedDrop(k, from);
      if ok {
        Forget();
      }
    }

    /** The base already is the card, confirmed and without a previous one. */
    ghost predicate Absorbed()
      reads this, fs`disk
    {
      Consistent() && file == Some(Contents()) && Previous !in fs.disk.raw && CurrentVouches()
    }

    /** Truncates the journal, rewinds it and syncs it. */
    method SyncedDrop(ghost k: Promise, ghost from: nat) returns (ok: bool)
      requires Absorbed() && fs.Safe(k, from) && k.c == c && (Contents() == k.x || Contents() == k.y)
      requires k.sure ==> k.sound
      modifies this`recs, this`limbo, fs
      ensures fs.Settle(ok) && fs.Safe(k, from)
      ensures BesideCard(old(fs.disk), fs.disk, Checkpoint)
      ensures Absorbed() && Contents() == old(Contents()) && Extends(old(fs.history), fs.history)
      ensures limbo == old(limbo) || limbo == Contents()
      ensures old(Counted()) ==> Counted()
      ensures ok ==> limbo == Contents() && fs.disk.journal == [] && recs == []
    {
      ok := DropJournal(k, from);
      if !ok { return; }
      ok := fs.Attempt();
      if !ok { return; }
      ok := fs.Attempt();
    }

    method DropJournal(ghost k: Promise, ghost from: nat) returns (ok: bool)
      requires Absorbed() && fs.Safe(k, from) && k.c == c && (Contents() == k.x || Contents() == k.y)
      requires k.sure ==> k.sound
      modifies this`recs, this`limbo, fs
      ensures fs.Settle(ok) && fs.Safe(k, from)
      ensures BesideCard(old(fs.disk), fs.disk, Checkpoint)
      ensures Absorbed() && Contents() == old(Contents()) && Extends(old(fs.history), fs.history)
      ensures ok ==> limbo == Contents() && fs.disk.journal == [] && recs == []
      ensures !ok ==> limbo == old(limbo)
      ensures old(Counted()) ==> Counted()
    {
      ghost var flat := Contents();
      EmptyJournal(flat);
      EnduresPlain(k, fs.disk.(journal := []));
      ok := fs.Truncate(k, from);
      if ok {
        recs, limbo := [], flat;
        EmptiedConsistent(flat);
      }
    }

    method Forget()
      requires Absorbed() && fs.disk.journal == [] && recs == [] && limbo == Contents()
      modifies this`dirty, this`pendingBytes, this`journalBytes
      ensures Absorbed() && Valid() && Contents() == old(Contents())
      ensures dirty == map[] && pendingBytes == journalBytes == 0
    {
      ghost var flat := Contents();
      dirty, pendingBytes, journalBytes := map[], 0, 0;
      OverlayNothing(flat);
      EmptiedConsistent(flat);
    }

    lemma EmptiedConsistent(flat: seq<byte>)
      requires !stranded && c.Valid() && BlocksFit(c.cardSize, dirty) && Holds(flat) && Overlay(flat, dirty) == flat
      requires fs.disk.journal == [] && recs == [] && limbo == flat
      requires pendingBytes <= c.maxPendingBytes && journalBytes <= c.maxJournalBytes
      requires dirty == map[] ==> pendingBytes == 0 && journalBytes == 0
      ensures Consistent() && Contents() == flat
    {
      EmptyJournal(flat);
    }

    lemma EmptyJournal(image: seq<byte>)
      requires c.Valid() && |image| == c.cardSize
      ensures Settled(c, image, []) == Some(image)
      ensures Loads(c, [])
    {
    }

    /** Swapping the base for the contents, or keeping it, leaves the card consistent. */
    lemma StaysConsistent(base: seq<byte>, flat: seq<byte>)
      requires !stranded && c.Valid() && |base| == c.cardSize && BlocksFit(c.cardSize, dirty)
      requires flat == Overlay(base, dirty) && JournalLeads(base, flat)
      requires Holds(base) || Holds(flat)
      ensures Consistent() && Contents() == flat
    {
      OverlayIdempotent(base, dirty);
    }

    // ---- Writes ----

    /**
     * Lays `data` over the dirty blocks, loading each new block from the base first. When the base
     * cannot be read it stops: the blocks before that one have been taken in.
     */
    method Absorb(offset: nat, data: seq<byte>) returns (done: nat)
      requires Opened() && offset + |data| <= c.cardSize
      modifies this`dirty, fs`faults
      ensures done <= |data| && fs.Settle(done == |data|)
      ensures Opened() && Contents() == Patch(old(Contents()), offset, data[..done])
      ensures |dirty| == old(|dirty|)
        + NewBlocks(offset / SAVE_BLOCK_SIZE, NextBlock(offset, done), old(dirty.Keys))
      ensures dirty == map[] ==> done == 0 && old(dirty) == map[]
    {
      ghost var flat, before := Contents(), dirty;
      done := 0;
      while done < |data|
        invariant done <= |data| && Opened() && Taken(flat, before, offset, data, done) && fs.Settle(true)
      {
        var next := AbsorbNext(flat, before, offset, data, done);
        if next == done { break; }
        done := next;
      }
      AllTaken(flat, before, offset, data, done);
    }

    /** The first `done` bytes of `data` are in the dirty blocks, which grew by exactly theirs. */
    ghost predicate Taken(flat: seq<byte>, before: Blocks, offset: nat, data: seq<byte>, done: nat)
      reads this
    {
      && Opened() && PatchedTo(Contents(), flat, offset, data, done)
      && BlocksTaken(before, dirty, offset, |data|, done)
    }

    lemma AllTaken(flat: seq<byte>, before: Blocks, offset: nat, data: seq<byte>, done: nat)
      requires done <= |data| && Taken(flat, before, offset, data, done)
      ensures offset + |data| <= |flat| && Contents() == Patch(flat, offset, data[..done])
      ensures dirty == map[] ==> done == 0 && before == map[]
    {
      assert done > 0 ==> offset / SAVE_BLOCK_SIZE in dirty;
      assert forall b :: b in before ==> b in dirty;
    }

    lemma NothingTaken(offset: nat, data: seq<byte>)
      requires Opened() && offset + |data| <= c.cardSize
      ensures Taken(Contents(), dirty, offset, data, 0)
    {
    }

    /** Takes in the bytes of `data` from `done` up to the end of their block, or none. */
    method AbsorbNext(ghost flat: seq<byte>, ghost before: Blocks, offset: nat, data: seq<byte>, done: nat)
      returns (next: nat)
      requires Taken(flat, before, offset, data, done) && done < |data| && offset + |data| <= c.cardSize
      modifies this`dirty, fs`faults
      ensures Taken(flat, before, offset, data, next) && done <= next <= |data|
      ensures fs.Settle(next > done) && next - done <= SAVE_BLOCK_SIZE
    {
      var length := RestOfBlock(offset + done, |data| - done);
      var ok := BlockReadable((offset + done) / SAVE_BLOCK_SIZE);
      next := done;
      if ok {
        AbsorbPart(flat, before, offset, data, done, length);
        next := done + length;
      }
    }

    method AbsorbPart(ghost flat: seq<byte>, ghost before: Blocks, offset: nat, data: seq<byte>, done: nat, length: nat)
      requires Taken(flat, before, offset, data, done) && done < |data| && offset + |data| <= c.cardSize
      requires done + length <= |data| && EndsInBlock(offset + done, |data| - done, length)
      modifies this`dirty
      ensures Taken(flat, before, offset, data, done + length)
    {
      ghost var mid, held := Contents(), dirty;
      AbsorbAt(offset + done, data[done..done + length]);
      TakenNext(flat, before, offset, data, done, length, mid, held);
    }

    lemma TakenNext(flat: seq<byte>, before: Blocks, offset: nat, data: seq<byte>, done: nat, length: nat,
                    mid: seq<byte>, held: Blocks)
      requires Opened() && PatchedTo(mid, flat, offset, data, done) && done < |data|
      requires BlocksTaken(before, held, offset, |data|, done)
      requires EndsInBlock(offset + done, |data| - done, length) && done + length <= |data|
      requires |mid| == c.cardSize && Contents() == Patch(mid, offset + done, data[done..done + length])
      requires forall b :: b in dirty <==> b in held || b == (offset + done) / SAVE_BLOCK_SIZE
      requires |dirty| == |held| + if (offset + done) / SAVE_BLOCK_SIZE in held then 0 else 1
      ensures Taken(flat, before, offset, data, done + length)
    {
      PatchedNext(mid, flat, offset, data, done, length);
      BlocksTakenNext(before, held, dirty, offset, |data|, done, length);
    }

    /** A block that is not in memory yet has to be read from the base image. */
    method BlockReadable(block: nat) returns (ok: bool)
      modifies fs`faults
      ensures fs.Settle(ok) && (block in dirty ==> ok)
    {
      ok := true;
      if block !in dirty {
        ok := fs.Attempt();
      }
    }

    method AbsorbAt(position: nat, piece: seq<byte>)
      requires Opened() && position % SAVE_BLOCK_SIZE + |piece| <= SAVE_BLOCK_SIZE && |piece| > 0
      requires position + |piece| <= c.cardSize
      modifies this`dirty
      ensures Opened() && Contents() == Patch(old(Contents()), position, piece)
      ensures forall b :: b in dirty <==> b in old(dirty) || b == position / SAVE_BLOCK_SIZE
      ensures |dirty| == old(|dirty|) + if position / SAVE_BLOCK_SIZE in old(dirty) then 0 else 1
    {
      AbsorbPiece(position / SAVE_BLOCK_SIZE, position % SAVE_BLOCK_SIZE, piece);
    }

    method AbsorbPiece(block: nat, inBlock: nat, piece: seq<byte>)
      requires Opened() && inBlock + |piece| <= SAVE_BLOCK_SIZE && |piece| > 0
      requires block * SAVE_BLOCK_SIZE + inBlock + |piece| <= c.cardSize
      modifies this`dirty
      ensures Opened()
      ensures Contents() == Patch(old(Contents()), block * SAVE_BLOCK_SIZE + inBlock, piece)
      ensures forall b :: b in dirty <==> b in old(dirty) || b == block
      ensures |dirty| == old(|dirty|) + if block in old(dirty) then 0 else 1
    {
      BlockInside(block, inBlock);
      OverlayPatch(file.value, dirty, block, inBlock, piece);
      var image := BlockOf(file.value, dirty, block);
      KeyAdded(dirty, block, Patch(image, inBlock, piece));
      dirty := dirty[block := Patch(image, inBlock, piece)];
    }

    /** A card is a whole number of blocks, so a block that starts inside it ends inside it. */
    lemma BlockInside(block: nat, inBlock: nat)
      requires Opened() && block * SAVE_BLOCK_SIZE + inBlock < c.cardSize
      ensures block * SAVE_BLOCK_SIZE + SAVE_BLOCK_SIZE <= c.cardSize
    {
      assert c.cardSize == c.cardSize / SAVE_BLOCK_SIZE * SAVE_BLOCK_SIZE;
    }

    method CountNewBlocks(first: nat, next: nat) returns (n: nat)
      requires first <= next
      ensures n == NewBlocks(first, next, dirty.Keys)
    {
      n := 0;
      var block := first;
      while block < next
        invariant first <= block <= next
        invariant n == NewBlocks(first, block, dirty.Keys)
      {
        if block !in dirty {
          n := n + 1;
        }
        block := block + 1;
      }
    }

    /** Since `from`, every durable state is one that the append of `r` may leave. */
    ghost predicate Logged(r: Record, from: nat, k: Promise, cards: set<seq<byte>>)
      requires k.c.Digests()
      reads fs`history
    {
      from <= |fs.history| && forall i :: from <= i < |fs.history| ==> Noted(k, r, cards, fs.history[i])
    }

    /** Appends one record and syncs it; a crash or fault can leave any prefix of it. */
    method AppendJournal(r: Record, ghost from: nat, ghost k: Promise, ghost cards: set<seq<byte>>)
      returns (ok: bool)
      requires Appendable(fs.disk, r, k, cards) && Logged(r, from, k, cards)
      modifies fs
      ensures fs.Settle(ok) && fs.disk == old(fs.disk).(journal := fs.disk.journal)
      ensures LandsEitherWay(fs.disk, r) && Logged(r, from, k, cards)
      ensures ok ==> fs.disk.journal == old(fs.disk.journal) + Encode(c, r)
    {
      ok := AppendRecord(r, from, k, cards);
      if !ok { return; }
      ok := fs.Attempt();
    }

    method AppendRecord(r: Record, ghost from: nat, ghost k: Promise, ghost cards: set<seq<byte>>)
      returns (ok: bool)
      requires Appendable(fs.disk, r, k, cards) && Logged(r, from, k, cards)
      modifies fs
      ensures fs.Settle(ok) && fs.disk == old(fs.disk).(journal := fs.disk.journal)
      ensures LandsEitherWay(fs.disk, r) && Logged(r, from, k, cards)
      ensures ok ==> fs.disk.journal == old(fs.disk.journal) + Encode(c, r)
    {
      ok := AppendHeader(r, from, k, cards);
      if !ok { return; }
      ok := AppendData(r, old(fs.disk), from, k, cards);
      if !ok { return; }
      ConcatAssociates(old(fs.disk.journal), Header(c, r), r.data);
    }

    method AppendHeader(r: Record, ghost from: nat, ghost k: Promise, ghost cards: set<seq<byte>>)
      returns (ok: bool)
      requires Appendable(fs.disk, r, k, cards) && Logged(r, from, k, cards)
      modifies fs
      ensures fs.Settle(ok) && fs.disk == old(fs.disk).(journal := fs.disk.journal)
      ensures LandsEitherWay(fs.disk, r) && Logged(r, from, k, cards)
      ensures ok ==> fs.disk.journal == old(fs.disk.journal) + Header(c, r)
    {
      ghost var was, first := fs.disk, fs.history;
      ok := fs.Append(Header(c, r));
      forall i | |first| <= i < |fs.history|
        ensures LandsEitherWay(fs.history[i], r) && Noted(k, r, cards, fs.history[i])
      {
        HeaderPrefix(was, fs.history[i], r, k, cards);
      }
      assert forall i :: from <= i < |first| ==> fs.history[i] == first[i];
    }

    method AppendData(r: Record, ghost was: Disk, ghost from: nat, ghost k: Promise, ghost cards: set<seq<byte>>)
      returns (ok: bool)
      requires Appendable(was, r, k, cards) && fs.disk == was.(journal := was.journal + Header(c, r))
      requires Logged(r, from, k, cards)
      modifies fs
      ensures fs.Settle(ok) && fs.disk == old(fs.disk).(journal := fs.disk.journal)
      ensures LandsEitherWay(fs.disk, r) && Logged(r, from, k, cards)
      ensures ok ==> fs.disk.journal == old(fs.disk.journal) + r.data
    {
      ghost var middle, second := fs.disk, fs.history;
      ok := fs.Append(r.data);
      forall i | |second| <= i < |fs.history|
        ensures LandsEitherWay(fs.history[i], r) && Noted(k, r, cards, fs.history[i])
      {
        DataPrefix(was, middle, fs.history[i], r, k, cards);
      }
      assert forall i :: from <= i < |second| ==> fs.history[i] == second[i];
    }

    lemma HeaderPrefix(was: Disk, now: Disk, r: Record, k: Promise, cards: set<seq<byte>>)
      requires Appendable(was, r, k, cards) && OnlyAppended(was, now, Header(c, r))
      ensures LandsEitherWay(now, r) && Noted(k, r, cards, now)
    {
      var n := |now.journal| - |was.journal|;
      assert Encode(c, r)[..n] == Header(c, r)[..n];
      PartialAppend(was, now, r, n, k, cards);
    }

    lemma DataPrefix(was: Disk, middle: Disk, now: Disk, r: Record, k: Promise, cards: set<seq<byte>>)
      requires Appendable(was, r, k, cards) && middle == was.(journal := was.journal + Header(c, r))
      requires OnlyAppended(middle, now, r.data)
      ensures LandsEitherWay(now, r) && Noted(k, r, cards, now)
    {
      var n := |now.journal| - |middle.journal|;
      assert Encode(c, r)[..RECORD_HEADER_SIZE + n] == Header(c, r) + r.data[..n];
      ConcatAssociates(was.journal, Header(c, r), r.data[..n]);
      PartialAppend(was, now, r, RECORD_HEADER_SIZE + n, k, cards);
    }

    /** The disk an unblocked card has before it appends a record. */
    ghost predicate BeforeAppend(was: Disk, r: Record)
      reads this
    {
      && Opened() && !blocked && Fits(c.cardSize, r) && RecordsLead(was.journal, file.value, Contents())
      && Coherent(was) && Active in was.raw && was.raw[Active].bytes == file.value
      && (Previous in was.raw ==>
        was.raw[Previous].bytes == file.value || |was.raw[Previous].bytes| != c.cardSize)
    }

    /** Both outcomes of the append are among the cards; under a loading promise the limits allow it. */
    ghost predicate Appendable(was: Disk, r: Record, k: Promise, cards: set<seq<byte>>)
      reads this
    {
      && BeforeAppend(was, r) && k.c == c && Bears(k.(loads := false), was)
      && limbo in cards && Patch(limbo, r.offset, r.data) in cards
      && (k.loads ==> JournalHolds(was.journal, r))
    }

    /** With this record the journal is still one that startup accepts. */
    ghost predicate JournalHolds(journal: seq<byte>, r: Record)
      reads this
    {
      |journal| + RECORD_HEADER_SIZE + |r.data| <= c.maxJournalBytes && Payload(recs) + |r.data| <= c.maxPendingBytes
    }

    /** Any restart that accepts this journal, on the base or on the card itself, yields `v`. */
    ghost predicate LeadsTo(journal: seq<byte>, v: seq<byte>)
      requires Opened()
      reads this
    {
      Settles(c, file.value, journal, v, v) && Settles(c, Contents(), journal, v, v)
    }

    /** A restart from here, or after the base is replaced, yields limbo without or with the record. */
    ghost predicate LandsEitherWay(now: Disk, r: Record)
      reads this
    {
      && Opened() && Fits(c.cardSize, r) && Coherent(now) && |limbo| == c.cardSize
      && var after := Patch(limbo, r.offset, r.data);
      && Lands(c, now, limbo, after)
      && (LeadsTo(now.journal, limbo) || LeadsTo(now.journal, after))
    }

    /** The journal as it was, with some prefix of one more record. */
    lemma PartialJournal(journal: seq<byte>, was: Disk, r: Record, n: nat)
      requires BeforeAppend(was, r) && n <= |Encode(c, r)|
      requires journal == was.journal + Encode(c, r)[..n]
      ensures n < |Encode(c, r)| ==> LeadsTo(journal, limbo)
      ensures n == |Encode(c, r)| ==> LeadsTo(journal, Patch(limbo, r.offset, r.data))
    {
      if n == 0 {
        assert journal == EncodeAll(c, recs);
        WholeJournalAccepted(c, recs);
      } else if n < |Encode(c, r)| {
        Capacities();
        TornJournalRejected(c, recs, r, n);
      } else {
        assert Encode(c, r)[..n] == Encode(c, r);
        WholeAppended(journal, was, r);
      }
    }

    lemma WholeAppended(journal: seq<byte>, was: Disk, r: Record)
      requires BeforeAppend(was, r) && journal == was.journal + Encode(c, r)
      ensures LeadsTo(journal, Patch(limbo, r.offset, r.data))
    {
      EncodeSnoc(c, recs, r);
      ReplaySnoc(file.value, recs, r);
      ReplaySnoc(Contents(), recs, r);
      WholeJournalAccepted(c, recs + [r]);
    }

    /** A journal with part of one more record loads, or stops inside that record. */
    lemma PartialLoads(journal: seq<byte>, was: Disk, r: Record, n: nat)
      requires BeforeAppend(was, r) && n <= |Encode(c, r)| && JournalHolds(was.journal, r)
      requires journal == was.journal + Encode(c, r)[..n]
      ensures Loads(c, journal) || CutInside(c, journal, r)
    {
      WholeJournalAccepted(c, recs);
      if n == 0 {
        assert journal == was.journal;
      } else if n < |Encode(c, r)| {
        assert EndsWith(journal, Encode(c, r)[..n]);
        assert journal[..|journal| - n] == was.journal;
      } else {
        assert Encode(c, r)[..n] == Encode(c, r);
        EncodeSnoc(c, recs, r);
        WholeJournalAccepted(c, recs + [r]);
      }
    }

    /** Any disk with a partial record appended lands on the card without or with the record. */
    lemma PartialAppend(was: Disk, now: Disk, r: Record, n: nat, k: Promise, cards: set<seq<byte>>)
      requires Appendable(was, r, k, cards) && n <= |Encode(c, r)|
      requires now == was.(journal := was.journal + Encode(c, r)[..n])
      ensures LandsEitherWay(now, r) && Noted(k, r, cards, now)
    {
      PartialJournal(now.journal, was, r, n);
      BearsJournal(k.(loads := false), was, now.journal);
      if k.loads {
        PartialLoads(now.journal, was, r, n);
      }
    }

    /** What a crash during or after this write, and what the card may hold after it. */
    ghost function Outcomes(offset: nat, data: seq<byte>): set<seq<byte>>
      requires Opened() && |limbo| == c.cardSize && offset + |data| <= c.cardSize
      reads this
    {
      {Contents(), limbo, Patch(Contents(), offset, data), Patch(limbo, offset, data)}
    }

    lemma IntactOutcomes(offset: nat, data: seq<byte>)
      requires Valid() && Intact() && offset + |data| <= c.cardSize
      ensures Outcomes(offset, data) == {Contents(), Patch(Contents(), offset, data)}
    {
    }

    /**
     * Writes through the journal. The bytes that the result counts change and no others, any flush
     * on the way is invisible, and a crash at any step lands on the card, or on what a restart would
     * have made of it, before or after the write. On an intact card these are the card before and
     * after it, and only a failed append or a base image that cannot be read ends that: the record
     * may then be whole in the journal although the write was refused, and in the second case the
     * card is not blocked, holds a prefix of the write, and does not count the record.
     */
    method WriteSaveAt(buffer: seq<byte>, offset: int) returns (r: WriteResult)
      requires Valid()
      modifies this, fs
      ensures !stranded ==> Valid()
      ensures stranded ==> fs.faults >= old(fs.faults) + 2
      ensures r == WriteOutside <==> offset < 0 || |buffer| == 0 || |buffer| > c.cardSize - offset
      ensures r != WriteOutside ==> (r == CardBlocked <==> old(blocked))
      ensures r == WriteOutside || r == CardBlocked ==>
        fs.disk == old(fs.disk) && fs.history == old(fs.history) && limbo == old(limbo) && !stranded
      ensures r.Wrote? ==> !stranded && r.count == |buffer| && Contents() == Patch(old(Contents()), offset, buffer)
      ensures r.BaseFailed? ==>
        !stranded && r.count < |buffer| && Contents() == Patch(old(Contents()), offset, buffer[..r.count])
      ensures r == JournalFailed ==> !stranded
      ensures !r.Wrote? && !r.BaseFailed? && !stranded ==> Contents() == old(Contents())
      ensures blocked == (old(blocked) || r == JournalFailed)
      ensures r.Wrote? || r.BaseFailed? ==>
        limbo == Patch(old(limbo), offset, buffer) || limbo == Patch(old(Contents()), offset, buffer)
      ensures r == JournalFailed ==> limbo in old(Outcomes(offset, buffer))
      ensures r == JournalLimit && !stranded ==> limbo == old(limbo) || limbo == Contents()
      ensures old(Intact()) && !stranded && r != JournalFailed && !r.BaseFailed? ==> Intact()
      ensures r.Wrote? || r.BaseFailed? ==>
        (Loads(c, fs.disk.journal) <==>
          !old(HasRoom(Record(offset, buffer))) || old(JournalHolds(fs.disk.journal, Record(offset, buffer))))
      ensures r != WriteOutside && !old(blocked) && !WithinLimits(c, offset, |buffer|) ==>
        r == JournalLimit && fs.disk == old(fs.disk) && fs.history == old(fs.history) && !stranded
      ensures fs.reliable && old(Keepable()) && !old(blocked) && r != WriteOutside ==>
        (WithinLimits(c, offset, |buffer|) ==> r.Wrote?)
      ensures fs.reliable && old(Keepable()) ==> Keepable()
      ensures r != WriteOutside && !old(blocked) ==>
        Logged(Record(offset, buffer), |old(fs.history)|, old(Standing()).(loads := old(Counted())),
          old(Outcomes(offset, buffer)))
    {
      if offset < 0 || |buffer| == 0 || |buffer| > c.cardSize - offset {
        return WriteOutside;
      }
      if blocked {
        return CardBlocked;
      }
      if !WithinLimits(c, offset, |buffer|) {
        return JournalLimit;
      }
      var record := Record(offset, buffer);
      ghost var from, k, cards := |fs.history|, Standing().(loads := Counted()), Outcomes(offset, buffer);
      WritingEndures();
      var ok := MakeRoom(record, k, from);
      SafeLogged(record, from, k, cards);
      if !ok {
        return JournalLimit;
      }
      r := Journalled(record, from, k, cards);
    }

    /** What a write promises of the states it begins with. */
    lemma WritingEndures()
      requires Valid() && !blocked
      ensures var k := Standing().(loads := Counted()); Endures(k, fs.disk) && Fitting(k)
    {
      StandingEndures();
      LoadsWithinLimits();
    }

    lemma SafeLogged(record: Record, from: nat, k: Promise, cards: set<seq<byte>>)
      requires fs.Safe(k, from) && k.c.Digests() && k.x in cards && k.y in cards
      ensures Logged(record, from, k, cards) && Bears(k.(loads := false), fs.disk)
    {
      forall i | from <= i < |fs.history| ensures Noted(k, record, cards, fs.history[i]) {
        assert Endures(k, fs.history[i]);
      }
    }

    /** The journal, the pending bytes and the dirty blocks can take this record, as far as they are counted. */
    ghost predicate HasRoom(record: Record)
      reads this
    {
      && Opened() && Fits(c.cardSize, record)
      && pendingBytes + |record.data| <= c.maxPendingBytes
      && journalBytes + |record.data| + RECORD_HEADER_SIZE <= c.maxJournalBytes
      && |dirty| + NewBlocks(record.offset / SAVE_BLOCK_SIZE, NextBlock(record.offset, |record.data|), dirty.Keys)
        <= c.maxDirtyBlocks
    }

    /** The journal is empty, and so a restart yields the contents. */
    ghost predicate Emptied()
      requires Opened()
      reads this, fs`disk
    {
      fs.disk.journal == [] && recs == [] && limbo == Contents()
    }

    /** Checkpoints first when the record would exceed a limit. */
    method MakeRoom(record: Record, ghost k: Promise, ghost from: nat) returns (ok: bool)
      requires Valid() && !blocked && Fits(c.cardSize, record) && Fitting(k) && fs.Safe(k, from)
      requires WithinLimits(c, record.offset, |record.data|)
      modifies this, fs
      ensures !stranded ==> Valid() && Contents() == old(Contents())
      ensures !stranded ==> limbo == old(limbo) || limbo == Contents()
      ensures old(Counted()) && !stranded ==> Counted()
      ensures stranded ==> fs.faults >= old(fs.faults) + 2
      ensures !blocked && fs.Settle(ok || !old(Keepable())) && fs.Safe(k, from)
      ensures ok ==> !stranded && HasRoom(record)
      ensures ok ==> if old(HasRoom(record)) then AsBefore() else Emptied()
      ensures ok && old(Keepable()) ==> Keepable()
    {
      ok := true;
      if pendingBytes + |record.data| > c.maxPendingBytes
        || journalBytes + |record.data| + RECORD_HEADER_SIZE > c.maxJournalBytes {
        ok := FlushCard(k, from);
        if !ok { return; }
        RoomWhenClean(record);
        FlushedFitting(k);
      }
      ok := MakeBlockRoom(record, k, from);
    }

    lemma FlushedFitting(k: Promise)
      requires Valid() && dirty == map[] && fs.disk.journal == []
      requires k.c == c && (Contents() == k.x || Contents() == k.y) && (k.sound ==> CurrentVouches())
      requires k.sure ==> k.sound && fs.reliable && fs.links
      ensures Fitting(k)
    {
      OverlayNothing(file.value);
      EmptyJournal(file.value);
    }

    /** Nothing that decides what a restart yields has changed. */
    twostate predicate AsBefore()
      reads this, fs`disk
    {
      recs == old(recs) && limbo == old(limbo) && fs.disk == old(fs.disk)
    }

    method MakeBlockRoom(record: Record, ghost k: Promise, ghost from: nat) returns (ok: bool)
      requires Valid() && !blocked && Fits(c.cardSize, record) && Fitting(k) && fs.Safe(k, from)
      requires WithinLimits(c, record.offset, |record.data|)
      requires pendingBytes + |record.data| <= c.maxPendingBytes
      requires journalBytes + |record.data| + RECORD_HEADER_SIZE <= c.maxJournalBytes
      modifies this, fs
      ensures !stranded ==> Valid() && Contents() == old(Contents())
      ensures !stranded ==> limbo == old(limbo) || limbo == Contents()
      ensures old(Counted()) && !stranded ==> Counted()
      ensures stranded ==> fs.faults >= old(fs.faults) + 2
      ensures !blocked && fs.Settle(ok || !old(Keepable())) && fs.Safe(k, from)
      ensures ok ==> !stranded && HasRoom(record)
      ensures ok ==> if old(HasRoom(record)) then AsBefore() else Emptied()
      ensures ok && old(Keepable()) ==> Keepable()
    {
      var newBlocks := CountNewBlocks(record.offset / SAVE_BLOCK_SIZE, NextBlock(record.offset, |record.data|));
      if |dirty| + newBlocks > c.maxDirtyBlocks {
        ok := FlushCard(k, from);
        if ok {
          RoomWhenClean(record);
        }
      } else {
        ok := true;
      }
    }

    lemma RoomWhenClean(record: Record)
      requires Opened() && Fits(c.cardSize, record) && dirty == map[] && pendingBytes == journalBytes == 0
      requires WithinLimits(c, record.offset, |record.data|)
      ensures HasRoom(record)
    {
    }

    /** Appends the record, then takes it into the dirty blocks as far as the base can be read. */
    method Journalled(record: Record, ghost from: nat, ghost k: Promise, ghost cards: set<seq<byte>>)
      returns (r: WriteResult)
      requires Valid() && !blocked && HasRoom(record) && k.c == c && Logged(record, from, k, cards)
      requires Bears(k.(loads := false), fs.disk) && (k.loads ==> Counted())
      requires limbo in cards && Patch(limbo, record.offset, record.data) in cards
      modifies this, fs
      ensures Valid() && !stranded && file == old(file) && metadata == old(metadata)
      ensures r.Wrote? || r == JournalFailed || r.BaseFailed?
      ensures r.Wrote? ==> r.count == |record.data|
      ensures r.Wrote? ==> Contents() == Patch(old(Contents()), record.offset, record.data)
      ensures r.BaseFailed? ==> r.count < |record.data|
      ensures r.BaseFailed? ==> Contents() == Patch(old(Contents()), record.offset, record.data[..r.count])
      ensures r == JournalFailed ==> Contents() == old(Contents())
      ensures blocked == (r == JournalFailed)
      ensures !blocked ==> limbo == Patch(old(limbo), record.offset, record.data)
      ensures blocked ==> limbo == old(limbo) || limbo == Patch(old(limbo), record.offset, record.data)
      ensures !blocked ==> (Loads(c, fs.disk.journal) <==> old(JournalHolds(fs.disk.journal, record)))
      ensures r.Wrote? && old(Counted()) ==> Counted()
      ensures fs.Settle(r.Wrote?) && Logged(record, from, k, cards)
    {
      var ok := LogRecord(record, from, k, cards);
      if !ok {
        return JournalFailed;
      }
      r := TakeInAndCount(record);
    }

    /** Appends the record; from here on a restart yields it, whatever becomes of the write. */
    method LogRecord(record: Record, ghost from: nat, ghost k: Promise, ghost cards: set<seq<byte>>)
      returns (ok: bool)
      requires Valid() && !blocked && HasRoom(record) && k.c == c && Logged(record, from, k, cards)
      requires Bears(k.(loads := false), fs.disk) && (k.loads ==> Counted())
      requires limbo in cards && Patch(limbo, record.offset, record.data) in cards
      modifies this`blocked, this`recs, this`limbo, fs
      ensures Valid() && Contents() == old(Contents()) && blocked == !ok
      ensures fs.Settle(ok) && Logged(record, from, k, cards)
      ensures fs.disk == old(fs.disk).(journal := fs.disk.journal)
      ensures ok ==> recs == old(recs) + [record] && limbo == Patch(old(limbo), record.offset, record.data)
      ensures ok ==> fs.disk.journal == old(fs.disk.journal) + Encode(c, record)
      ensures ok ==> (Loads(c, fs.disk.journal) <==> old(JournalHolds(fs.disk.journal, record)))
      ensures !ok ==> limbo == old(limbo) || limbo == Patch(old(limbo), record.offset, record.data)
    {
      ok := AppendJournal(record, from, k, cards);
      if ok {
        Note(record);
      } else {
        Block(record);
      }
    }

    /** The record is in the journal: the dirty blocks follow, and the counters if all of them could. */
    method TakeInAndCount(record: Record) returns (r: WriteResult)
      requires Valid() && !blocked && HasRoom(record) && recs != [] && recs[|recs| - 1] == record
      modifies this`dirty, this`pendingBytes, this`journalBytes, fs`faults
      ensures Valid() && fs.Settle(r.Wrote?)
      ensures r == Wrote(|record.data|) || (r.BaseFailed? && r.count < |record.data|)
      ensures Contents() == Patch(old(Contents()), record.offset, record.data[..r.count])
      ensures r.Wrote? ==> record.data[..r.count] == record.data
      ensures r.Wrote? ==> pendingBytes == old(pendingBytes) + |record.data|
      ensures r.Wrote? ==> journalBytes == old(journalBytes) + |record.data| + RECORD_HEADER_SIZE
    {
      var done := TakeIn(record);
      if done < |record.data| {
        return BaseFailed(done);
      }
      CountRecord(record);
      r := Wrote(done);
    }

    /** The append failed: nothing more is written until a restart has read the journal. */
    method Block(record: Record)
      requires !stranded && Opened() && Holds(file.value) && LandsEitherWay(fs.disk, record)
      requires |dirty| <= c.maxDirtyBlocks && CountersFit()
      modifies this`blocked, this`limbo
      ensures Valid() && blocked && Contents() == old(Contents())
      ensures limbo == old(limbo) || limbo == Patch(old(limbo), record.offset, record.data)
    {
      blocked := true;
      if !LeadsTo(fs.disk.journal, limbo) {
        limbo := Patch(limbo, record.offset, record.data);
      }
    }

    /** The record is durable: from here on a restart yields it, whatever becomes of the write. */
    ghost method Note(record: Record)
      requires !stranded && Opened() && !blocked && Holds(file.value) && Fits(c.cardSize, record)
      requires RecordsLead(EncodeAll(c, recs), file.value, Contents())
      requires fs.disk.journal == EncodeAll(c, recs) + Encode(c, record)
      requires |dirty| <= c.maxDirtyBlocks && CountersFit()
      modifies this`recs, this`limbo
      ensures Valid() && recs == old(recs) + [record] && Contents() == old(Contents())
      ensures limbo == Patch(old(limbo), record.offset, record.data)
      ensures Loads(c, fs.disk.journal) <==> old(JournalHolds(EncodeAll(c, recs), record))
    {
      EncodeSnoc(c, recs, record);
      ReplaySnoc(file.value, recs, record);
      ReplaySnoc(Contents(), recs, record);
      recs, limbo := recs + [record], Patch(limbo, record.offset, record.data);
      WholeJournalAccepted(c, recs);
    }

    /** Takes in the last record of the journal, or the part of it before the first unreadable block. */
    method TakeIn(record: Record) returns (done: nat)
      requires Valid() && !blocked && HasRoom(record) && recs != [] && recs[|recs| - 1] == record
      modifies this`dirty, fs`faults
      ensures Valid() && done <= |record.data| && fs.Settle(done == |record.data|)
      ensures Contents() == Patch(old(Contents()), record.offset, record.data[..done])
      ensures done == |record.data| ==> dirty != map[] && record.data[..done] == record.data
    {
      ghost var flat, held := Contents(), dirty;
      done := Absorb(record.offset, record.data);
      PartValid(record, flat, done, held);
    }

    /** What a write has done when the second block it needs turns out to be unreadable. */
    method TakeInFirst(record: Record) returns (done: nat)
      requires Valid() && !blocked && HasRoom(record) && recs != [] && recs[|recs| - 1] == record
      modifies this`dirty, fs`faults
      ensures Valid() && done <= |record.data| && done <= SAVE_BLOCK_SIZE && fs.Settle(done > 0)
      ensures Contents() == Patch(old(Contents()), record.offset, record.data[..done])
    {
      ghost var flat, held := Contents(), dirty;
      NothingTaken(record.offset, record.data);
      done := AbsorbNext(flat, held, record.offset, record.data, 0);
      AllTaken(flat, held, record.offset, record.data, done);
      PartValid(record, flat, done, held);
    }

    /** Whatever part of the last record is in the dirty blocks, the card stays valid. */
    lemma PartValid(record: Record, flat: seq<byte>, done: nat, held: Blocks)
      requires !stranded && !blocked && Opened() && Holds(file.value) && CountersFit()
      requires recs != [] && recs[|recs| - 1] == record && RecordsLead(fs.disk.journal, file.value, flat)
      requires done <= |record.data| && Contents() == Patch(flat, record.offset, record.data[..done])
      requires |dirty| == |held|
        + NewBlocks(record.offset / SAVE_BLOCK_SIZE, NextBlock(record.offset, done), held.Keys)
      requires |held|
        + NewBlocks(record.offset / SAVE_BLOCK_SIZE, NextBlock(record.offset, |record.data|), held.Keys)
        <= c.maxDirtyBlocks
      ensures Valid()
    {
      PartTaken(record, file.value, flat, Contents());
      FewerBlocks(record, done, held.Keys);
    }

    /** What was taken in lies inside the last record, so replaying the journal hides the difference. */
    lemma PartTaken(record: Record, base: seq<byte>, flat: seq<byte>, now: seq<byte>)
      requires c.Valid() && recs != [] && recs[|recs| - 1] == record && AgreeBeside(flat, now, record)
      requires RecordsLead(fs.disk.journal, base, flat) && CountersFit()
      ensures !blocked ==> JournalLeads(base, now)
    {
      var front := recs[..|recs| - 1];
      assert recs == front + [record];
      ReplayAgrees(flat, now, front, record);
      WholeJournalAccepted(c, recs);
    }

    lemma FewerBlocks(record: Record, done: nat, known: set<int>)
      requires done <= |record.data|
      ensures NewBlocks(record.offset / SAVE_BLOCK_SIZE, NextBlock(record.offset, done), known)
        <= NewBlocks(record.offset / SAVE_BLOCK_SIZE, NextBlock(record.offset, |record.data|), known)
    {
      NewBlocksGrow(record.offset / SAVE_BLOCK_SIZE, NextBlock(record.offset, done),
        NextBlock(record.offset, |record.data|), known);
    }

    method CountRecord(record: Record)
      requires Valid() && !blocked && dirty != map[]
      requires pendingBytes + |record.data| <= c.maxPendingBytes
      requires journalBytes + |record.data| + RECORD_HEADER_SIZE <= c.maxJournalBytes
      modifies this`pendingBytes, this`journalBytes
      ensures Valid() && Contents() == old(Contents())
      ensures pendingBytes == old(pendingBytes) + |record.data|
      ensures journalBytes == old(journalBytes) + |record.data| + RECORD_HEADER_SIZE
    {
      pendingBytes := pendingBytes + |record.data|;
      journalBytes := journalBytes + |record.data| + RECORD_HEADER_SIZE;
    }

    // ---- Backups, restore and upload ----

    /** Only the backups and the current metadata differ; the image and the journal do not. */
    ghost predicate OnlyBackups(was: Disk, now: Disk) {
      now == was.(current := now.current, backupRaw := now.backupRaw, backupMeta := now.backupMeta)
    }

    /** Removes the oldest backups, each image before its description. */
    method PruneBackups(ghost k: Promise, ghost from: nat) returns (ok: bool)
      requires fs.Safe(k, from) && c.maxBackups >= 1
      modifies fs
      ensures fs.Safe(k, from)
      ensures fs.Settle(ok || !(old(fs.disk.backupRaw.Keys) <= old(fs.disk.backupMeta.Keys)))
      ensures fs.disk == old(fs.disk).(backupRaw := fs.disk.backupRaw, backupMeta := fs.disk.backupMeta)
      ensures ok ==> Pruned(old(fs.disk.backupRaw), fs.disk.backupRaw, c.maxBackups)
      ensures ok ==> DescribedAsBefore(fs.disk.backupRaw, old(fs.disk.backupMeta), fs.disk.backupMeta)
    {
      ok := fs.Attempt();
      if ok {
        var bases := SortedNames(fs.disk.backupRaw);
        ok := PruneListed(bases, k, from);
      }
      if ok {
        ok := fs.Attempt();
      }
    }

    /** Removes backups from the front of the listing until few enough are left. */
    method PruneListed(listing: seq<nat>, ghost k: Promise, ghost from: nat) returns (ok: bool)
      requires fs.Safe(k, from) && c.maxBackups >= 1 && Listed(fs.disk.backupRaw, listing)
      modifies fs
      ensures fs.Safe(k, from)
      ensures fs.Settle(ok || !(old(fs.disk.backupRaw.Keys) <= old(fs.disk.backupMeta.Keys)))
      ensures fs.disk == old(fs.disk).(backupRaw := fs.disk.backupRaw, backupMeta := fs.disk.backupMeta)
      ensures ok ==> Pruned(old(fs.disk.backupRaw), fs.disk.backupRaw, c.maxBackups)
      ensures ok ==> DescribedAsBefore(fs.disk.backupRaw, old(fs.disk.backupMeta), fs.disk.backupMeta)
    {
      ghost var before, described := fs.disk.backupRaw, fs.disk.backupMeta;
      var bases := listing;
      ok := true;
      ghost var gone: set<nat> := {};
      NothingPruned(before, described, bases);
      while ok && |bases| > c.maxBackups
        invariant fs.Safe(k, from)
        invariant fs.Settle(ok || !(before.Keys <= described.Keys))
        invariant fs.disk == old(fs.disk).(backupRaw := fs.disk.backupRaw, backupMeta := fs.disk.backupMeta)
        invariant ok ==> fs.disk.backupMeta == described - gone && fs.disk.backupRaw == before - gone
        invariant Pruning(before, gone, bases)
        decreases |bases|, ok
      {
        PruneOne(before, described, gone, bases);
        ok := RemoveBackup(bases[0], k, from);
        gone, bases := gone + {bases[0]}, bases[1..];
      }
      if ok {
        PrunedByListing(before, gone, bases);
        OthersDescribed(before, described, gone);
      }
    }

    lemma OthersDescribed(before: map<nat, seq<byte>>, described: map<nat, BackupMeta>, gone: set<nat>)
      ensures DescribedAsBefore(before - gone, described, described - gone)
    {
    }

    /** `names` is the listing of `m` in name order. */
    ghost predicate Listed(m: map<nat, seq<byte>>, names: seq<nat>) {
      Ascending(names) && |names| == |m| && forall n :: n in names <==> n in m
    }

    /** The oldest backups are gone; the others are still to be judged. */
    ghost predicate Pruning(before: map<nat, seq<byte>>, gone: set<nat>, names: seq<nat>) {
      && gone <= before.Keys && Listed(before - gone, names)
      && (|names| >= c.maxBackups || gone == {})
      && forall x, y :: x in gone && y in names ==> x < y
    }

    lemma NothingPruned(before: map<nat, seq<byte>>, described: map<nat, BackupMeta>, names: seq<nat>)
      requires Listed(before, names)
      ensures Pruning(before, {}, names) && before - {} == before && described - {} == described
    {
      assert before - {} == before;
    }

    lemma PruneOne(before: map<nat, seq<byte>>, described: map<nat, BackupMeta>, gone: set<nat>, names: seq<nat>)
      requires Pruning(before, gone, names) && |names| > c.maxBackups
      ensures Pruning(before, gone + {names[0]}, names[1..])
      ensures before - gone - {names[0]} == before - (gone + {names[0]})
      ensures described - gone - {names[0]} == described - (gone + {names[0]})
      ensures names[0] in before - gone && (before.Keys <= described.Keys ==> names[0] in described - gone)
    {
      assert names[0] in names;
      RemoveOneMore(before, gone, names[0]);
      RemoveOneMore(described, gone, names[0]);
      TailMembers(names);
    }

    lemma TailMembers(names: seq<nat>)
      requires Ascending(names) && |names| > 0
      ensures Ascending(names[1..])
      ensures forall n :: n in names[1..] <==> n in names && n != names[0]
      ensures forall y :: y in names[1..] ==> names[0] < y
    {
      forall n | n in names && n != names[0] ensures n in names[1..] {
        var i :| 0 <= i < |names| && names[i] == n;
        assert n == names[1..][i - 1];
      }
    }

    lemma PrunedByListing(before: map<nat, seq<byte>>, gone: set<nat>, names: seq<nat>)
      requires Pruning(before, gone, names) && |names| <= c.maxBackups
      ensures Pruned(before, before - gone, c.maxBackups)
    {
      if gone == {} {
        assert before - gone == before;
      } else {
        assert (before - gone).Keys == before.Keys - gone;
        SubsetSize(before.Keys - gone, before.Keys);
      }
    }

    method RemoveBackup(base: nat, ghost k: Promise, ghost from: nat) returns (ok: bool)
      requires fs.Safe(k, from)
      modifies fs
      ensures fs.Safe(k, from) && fs.Settle(ok || base !in old(fs.disk.backupRaw) || base !in old(fs.disk.backupMeta))
      ensures fs.disk == old(fs.disk).(backupRaw := fs.disk.backupRaw, backupMeta := fs.disk.backupMeta)
      ensures ok ==> fs.disk.backupRaw == old(fs.disk.backupRaw) - {base}
      ensures ok ==> fs.disk.backupMeta == old(fs.disk.backupMeta) - {base}
    {
      if base !in fs.disk.backupRaw || base !in fs.disk.backupMeta { return false; }
      ok := fs.StoreBackups(fs.disk.backupRaw - {base}, fs.disk.backupMeta, k, from);
      if !ok { return; }
      ok := fs.StoreBackups(fs.disk.backupRaw, fs.disk.backupMeta - {base}, k, from);
    }

    /** Copies the confirmed image under the name `stamp`, checks the copy, then prunes. */
    method BackupCard(stamp: nat, ghost k: Promise, ghost from: nat) returns (ok: bool)
      requires c.Valid() && file.Some? && Holds(file.value) && fs.Safe(k, from) && k.c == c
      modifies fs
      ensures fs.Safe(k, from) && OnlyBackups(old(fs.disk), fs.disk) && Holds(file.value)
      ensures fs.Settle(ok || !Trusted() || !(old(fs.disk.backupRaw.Keys) <= old(fs.disk.backupMeta.Keys)))
      ensures old(CurrentVouches()) ==> CurrentVouches()
      ensures ok ==> BackedUp(c, old(fs.disk.backupRaw), old(fs.disk.backupMeta), fs.disk.backupRaw,
        fs.disk.backupMeta, stamp, file.value)
    {
      ok := fs.Attempt();
      if !ok { return; }
      var image := fs.disk.raw[Active].bytes;
      if |image| != c.cardSize || c.hash(image) != metadata.sha { return false; }
      ok := StoreBackup(stamp, image, BackupMeta(c.owner, c.cardSize, metadata.sha), k, from);
      if !ok { return; }
      ok := fs.ReviseCurrent(metadata, k, from);
      if !ok { return; }
      ok := PruneBackups(k, from);
    }

    /** Stores an image, then its description; without the second the first is taken back. */
    method StoreBackup(stamp: nat, image: seq<byte>, description: BackupMeta, ghost k: Promise, ghost from: nat)
      returns (ok: bool)
      requires fs.Safe(k, from)
      modifies fs
      ensures fs.Safe(k, from) && fs.Settle(ok)
      ensures fs.disk == old(fs.disk).(backupRaw := fs.disk.backupRaw, backupMeta := fs.disk.backupMeta)
      ensures ok ==> fs.disk.backupRaw == old(fs.disk.backupRaw)[stamp := image]
      ensures ok ==> fs.disk.backupMeta == old(fs.disk.backupMeta)[stamp := description]
    {
      ok := fs.StoreBackups(fs.disk.backupRaw[stamp := image], fs.disk.backupMeta, k, from);
      if !ok { return; }
      ok := fs.StoreBackups(fs.disk.backupRaw, fs.disk.backupMeta[stamp := description], k, from);
      if !ok {
        var _ := fs.StoreBackups(fs.disk.backupRaw - {stamp}, fs.disk.backupMeta, k, from);
        return;
      }
      ok := fs.Attempt();
    }

    /** Saves the card as it stands; the card itself does not change. */
    method Backup(stamp: nat) returns (ok: bool)
      requires Valid()
      modifies this, fs
      ensures !stranded ==> Valid() && Contents() == old(Contents()) && blocked == old(blocked)
      ensures !stranded ==> limbo == old(limbo) || limbo == Contents()
      ensures old(Counted()) && !stranded ==> Counted()
      ensures stranded ==> fs.faults >= old(fs.faults) + 2
      ensures fs.Kept(old(Standing()), |old(fs.history)|)
      ensures fs.Settle(ok || !old(Trusted()) || !(old(fs.disk.backupRaw.Keys) <= old(fs.disk.backupMeta.Keys)))
      ensures fs.reliable && old(Keepable()) ==> Keepable() && !stranded
      ensures ok ==> !stranded
      ensures ok ==> BackedUp(c, old(fs.disk.backupRaw), old(fs.disk.backupMeta), fs.disk.backupRaw,
        fs.disk.backupMeta, stamp, Contents())
    {
      ghost var k, from := Standing(), |fs.history|;
      StandingEndures();
      ok := FlushCard(k, from);
      if !ok { return; }
      OverlayNothing(file.value);
      ok := BackupCard(stamp, k, from);
    }

    /** What a restart yields from this image and the journal as it stands. */
    ghost function AfterRestart(image: seq<byte>): seq<byte>
      reads this, fs`disk
    {
      After(c, image, fs.disk.journal)
    }

    /** What a restart yields once `image` has replaced the card: only dirty blocks empty the journal. */
    ghost function Restored(image: seq<byte>): seq<byte>
      reads this, fs`disk
    {
      if dirty == map[] then AfterRestart(image) else image
    }

    /**
     * Nothing is dirty, so a replacement does not checkpoint, and the journal of a failed write
     * survives it, on a card that is blocked or not.
     */
    ghost predicate Overridden(image: seq<byte>)
      reads this, fs`disk
    {
      dirty == map[] && After(c, image, fs.disk.journal) != image
    }

    /** On an intact card nothing is overridden: with nothing dirty the journal is empty. */
    lemma IntactRestored(image: seq<byte>)
      requires Valid() && Intact() && |image| == c.cardSize
      ensures Restored(image) == image && !Overridden(image)
    {
      EmptyJournal(image);
    }

    /** What the journal as it stands makes of this image, whether startup accepts it or not. */
    ghost function Replayed(image: seq<byte>): seq<byte>
      requires |image| == c.cardSize && (!blocked ==> AllFit(c.cardSize, recs))
      reads this, fs`disk
    {
      if blocked then AfterRestart(image) else Replay(image, recs)
    }

    /** What is left of the journal's effect once `image` has replaced the card. */
    ghost function Carried(image: seq<byte>): seq<byte>
      requires |image| == c.cardSize && (!blocked ==> AllFit(c.cardSize, recs))
      reads this, fs`disk
    {
      if dirty == map[] then Replayed(image) else image
    }

    /** Where the journal leaves nothing behind, a restart yields the image that replaced the card. */
    lemma CarriedRestored(image: seq<byte>)
      requires Valid() && |image| == c.cardSize && Carried(image) == image
      ensures Restored(image) == image
    {
      if !blocked {
        WholeJournalAccepted(c, recs);
      }
    }

    /** On an intact card nothing is left behind. */
    lemma IntactCarried(image: seq<byte>)
      requires Valid() && Intact() && |image| == c.cardSize
      ensures Carried(image) == image
    {
      if dirty == map[] {
        NothingRecorded();
      }
    }

    /** A card without dirty blocks that agrees with its image is valid, whatever the image is. */
    lemma CleanCardValid(image: seq<byte>)
      requires c.Valid() && !stranded && dirty == map[] && Holds(image)
      requires !blocked ==> AllFit(c.cardSize, recs) && fs.disk.journal == EncodeAll(c, recs)
      requires limbo == Replayed(image) && pendingBytes == 0 && journalBytes == 0
      ensures Valid() && Contents() == image
      ensures fs.disk.journal == [] ==> limbo == image
    {
      OverlayNothing(image);
      if !blocked {
        WholeJournalAccepted(c, recs);
        if fs.disk.journal == [] {
          NothingRecorded();
        }
      }
    }

    lemma NothingRecorded()
      requires c.Digests() && EncodeAll(c, recs) == []
      ensures recs == []
    {
    }

    /** Puts a staged candidate in place of a card without dirty blocks. */
    method ActivateCandidate(source: RawName, sum: seq<byte>, ghost k: Promise, ghost from: nat) returns (ok: bool)
      requires Valid() && dirty == map[] && fs.Safe(k, from) && (k.sound ==> CurrentVouches())
      requires source in {Selected, UploadStage} && source in fs.disk.raw
      requires Settling(k, file.value) && Settling(k, fs.disk.raw[source].bytes) && !k.quiet
      modifies this`file, this`metadata, this`limbo, this`stranded, fs
      ensures fs.Safe(k, from)
      ensures fs.Settle(ok || c.hash(old(fs.disk).raw[source].bytes) != sum || !old(Keepable()))
      ensures !stranded ==> Valid() && dirty == map[]
      ensures !stranded ==> Contents() == old(Contents()) || Contents() == old(fs.disk).raw[source].bytes
      ensures ok ==> !stranded && Contents() == old(fs.disk).raw[source].bytes && Base(fs.disk) == Some(Contents())
      ensures ok ==> Previous !in fs.disk.raw && CurrentVouches() && RestoreStage !in fs.disk.raw
      ensures stranded ==> fs.faults >= old(fs.faults) + 2
      ensures OutsideCard(old(fs.disk), fs.disk, RestoreStage)
      ensures ok && Previous !in old(fs.disk).raw ==> Refused(fs.history, from)
      ensures !stranded ==>
        limbo == old(limbo) || limbo == old(Contents()) || limbo == old(Replayed(fs.disk.raw[source].bytes))
      ensures ok ==> limbo == old(Replayed(fs.disk.raw[source].bytes))
      ensures old(Intact()) && !stranded ==> Intact()
    {
      var image := fs.disk.raw[source].bytes;
      ghost var was := file.value;
      OverlayNothing(was);
      ok := StageValidated(image, sum, k, from);
      if !ok { return; }
      ghost var staged := fs.disk;
      ok := ActivateStaged(source, sum, image, k, from);
      OutsideStaged(old(fs.disk), staged, fs.disk, RestoreStage);
    }

    /** Copies the candidate beside the card and checks the copy. */
    method StageValidated(image: seq<byte>, sum: seq<byte>, ghost k: Promise, ghost from: nat) returns (ok: bool)
      requires fs.Safe(k, from) && !k.quiet
      modifies fs
      ensures fs.Safe(k, from) && OnlyStaged(old(fs.disk), fs.disk, RestoreStage)
      ensures fs.Settle(ok || c.hash(image) != sum) && (ok ==> c.hash(image) == sum)
      ensures ok ==> RestoreStage in fs.disk.raw && Alone(fs.disk, RestoreStage)
      ensures ok ==> fs.disk.raw[RestoreStage].bytes == image
      ensures ok ==> from < |fs.history| && fs.history[|fs.history| - 1] == fs.disk
    {
      ghost var start := fs.disk;
      ok := StageCopy(RestoreStage, image, k, from);
      if ok && c.hash(image) != sum {
        var _ := fs.DropStage(RestoreStage, start, k, from);
        ok := false;
      }
    }

    lemma OutsideStaged(a: Disk, b: Disk, d: Disk, stage: RawName)
      requires OnlyStaged(a, b, stage) && OutsideCard(b, d, stage)
      ensures OutsideCard(a, d, stage)
    {
    }

    /** The candidate's copy is staged beside it, which startup takes as a conflict. */
    method ActivateStaged(ghost source: RawName, sum: seq<byte>, ghost image: seq<byte>,
                          ghost k: Promise, ghost from: nat) returns (ok: bool)
      requires Valid() && dirty == map[] && fs.Safe(k, from) && (k.sound ==> CurrentVouches())
      requires source in {Selected, UploadStage} && source in fs.disk.raw
      requires RestoreStage in fs.disk.raw && Alone(fs.disk, RestoreStage)
      requires fs.disk.raw[RestoreStage].bytes == image && sum == c.hash(image)
      requires Settling(k, file.value) && Settling(k, image) && !k.quiet
      requires from < |fs.history| && fs.history[|fs.history| - 1] == fs.disk
      modifies this`file, this`metadata, this`limbo, this`stranded, fs
      ensures fs.Safe(k, from) && fs.Settle(ok || !old(Keepable()))
      ensures OutsideCard(old(fs.disk), fs.disk, RestoreStage)
      ensures !stranded ==> Valid() && dirty == map[]
      ensures !stranded ==> Contents() == old(file.value) || Contents() == image
      ensures ok ==> !stranded && Contents() == image && Base(fs.disk) == Some(image)
      ensures ok ==> Previous !in fs.disk.raw && CurrentVouches() && RestoreStage !in fs.disk.raw
      ensures stranded ==> fs.faults >= old(fs.faults) + 2
      ensures ok && Previous !in old(fs.disk).raw ==> Refused(fs.history, from)
      ensures !stranded ==> limbo == old(limbo) || limbo == old(Contents()) || limbo == old(Replayed(image))
      ensures ok ==> limbo == old(Replayed(image))
      ensures old(Intact()) && !stranded ==> Intact()
    {
      ghost var past := fs.history;
      ConflictNow(source, from);
      fs.SafeFrom(k, from);
      ok := ReplaceClean(RestoreStage, sum, image, k.(past := past), from);
      fs.SafeSince(k, past, from);
      if Previous !in old(fs.disk).raw {
        StillRefused(past, fs.history, from);
      }
    }

    lemma ConflictNow(source: RawName, from: nat)
      requires source in {Selected, UploadStage} && source in fs.disk.raw && RestoreStage in fs.disk.raw
      requires from < |fs.history| && fs.history[|fs.history| - 1] == fs.disk
      ensures Previous !in fs.disk.raw ==> Refused(fs.history, from)
    {
      if Previous !in fs.disk.raw {
        TwoStaged(fs.disk, source);
        NowRefused(fs.history, from);
      }
    }

    /** A candidate beside its copy, without a previous card to decide. */
    lemma TwoStaged(d: Disk, source: RawName)
      requires source in {Selected, UploadStage} && source in d.raw && RestoreStage in d.raw && Previous !in d.raw
      ensures Staged(d) > 1 && OpensTo(c, d).None?
    {
    }

    method ReplaceClean(stage: RawName, sum: seq<byte>, ghost image: seq<byte>, ghost k: Promise, ghost from: nat)
      returns (ok: bool)
      requires Valid() && dirty == map[] && fs.Safe(k, from) && (k.sound ==> CurrentVouches())
      requires stage !in {Active, Previous} && stage in fs.disk.raw && Alone(fs.disk, stage)
      requires fs.disk.raw[stage].bytes == image && sum == c.hash(image)
      requires Settling(k, file.value) && Settling(k, image) && !k.quiet
      modifies this`file, this`metadata, this`limbo, this`stranded, fs
      ensures fs.Safe(k, from) && fs.Settle(ok || !old(Keepable())) && OutsideCard(old(fs.disk), fs.disk, stage)
      ensures !stranded ==> Valid() && dirty == map[]
      ensures !stranded ==> Contents() == old(file.value) || Contents() == image
      ensures ok ==> !stranded && Contents() == image && Base(fs.disk) == Some(image)
      ensures ok ==> Previous !in fs.disk.raw && CurrentVouches() && stage !in fs.disk.raw
      ensures stranded ==> fs.faults >= old(fs.faults) + 2
      ensures !stranded ==> limbo == old(limbo) || limbo == old(Contents()) || limbo == old(Replayed(image))
      ensures ok ==> limbo == old(Replayed(image))
      ensures old(Intact()) && !stranded ==> Intact()
    {
      ghost var was := file.value;
      CleanJournal();
      StillLimbo(was);
      ok := Install(stage, sum, true, k, from);
      if !stranded {
        Relead(if Holds(image) then image else was);
      }
    }

    /** The journal, which a replacement leaves alone, now belongs to this image. */
    ghost method Relead(image: seq<byte>)
      requires c.Valid() && !stranded && dirty == map[] && Holds(image)
      requires !blocked ==> AllFit(c.cardSize, recs) && fs.disk.journal == EncodeAll(c, recs)
      requires pendingBytes == 0 && journalBytes == 0
      modifies this`limbo
      ensures Valid() && Contents() == image && limbo == Replayed(image)
      ensures !blocked && fs.disk.journal == [] ==> Intact()
    {
      limbo := Replayed(image);
      CleanCardValid(image);
      if !blocked && fs.disk.journal == [] {
        NothingRecorded();
      }
    }

    /** What the journal makes of the image it belongs to is limbo, unless startup refuses it. */
    lemma StillLimbo(image: seq<byte>)
      requires c.Digests() && |image| == |limbo| == c.cardSize && Settles(c, image, fs.disk.journal, limbo, limbo)
      requires !blocked ==> AllFit(c.cardSize, recs) && Replay(image, recs) == limbo
      ensures Replayed(image) == limbo || Replayed(image) == image
    {
    }

    /** With nothing dirty no record is counted, so a journal that is covered is empty. */
    lemma CleanJournal()
      requires Valid() && dirty == map[]
      ensures pendingBytes == 0 && journalBytes == 0
      ensures Contents() == file.value
      ensures Counted() ==> fs.disk.journal == []
    {
      OverlayNothing(file.value);
    }

    /** The named backup is described for this card and its image matches the description. */
    predicate BackupSound(d: Disk, name: nat) {
      && name in d.backupMeta && name in d.backupRaw
      && d.backupMeta[name].owner == c.owner && d.backupMeta[name].cardSize == c.cardSize
      && |d.backupRaw[name]| == c.cardSize && c.hash(d.backupRaw[name]) == d.backupMeta[name].sha
    }

    /** A backup under the newest stamp is kept, and it is sound: it can be restored. */
    lemma NewestBackupSound(was: Disk, now: Disk, stamp: nat, image: seq<byte>)
      requires BackedUp(c, was.backupRaw, was.backupMeta, now.backupRaw, now.backupMeta, stamp, image)
      requires c.maxBackups >= 1 && |image| == c.cardSize && forall n :: n in was.backupRaw ==> n <= stamp
      ensures BackupSound(now, stamp) && now.backupRaw[stamp] == image
    {
      NewestKept(was.backupRaw[stamp := image], now.backupRaw, c.maxBackups, stamp);
    }

    /** What a replacement needs, besides storage that works, in order to succeed. */
    ghost predicate Replaceable()
      reads this, fs`disk
    {
      Trusted() && fs.disk.backupRaw.Keys <= fs.disk.backupMeta.Keys
    }

    /** Since `from`, every durable state lands among these cards, and what else the promise says holds. */
    ghost predicate LandedAmong(k: Promise, from: nat, cards: set<seq<byte>>)
      reads fs`history
    {
      && from <= |fs.history|
      && forall i :: from <= i < |fs.history| ==>
        Coherent(fs.history[i]) && LandsAmong(k.c, fs.history[i], cards) && Bears(k, fs.history[i])
    }

    lemma KeptAmong(k: Promise, from: nat, cards: set<seq<byte>>)
      requires fs.Kept(k, from) && k.x in cards && k.y in cards
      ensures LandedAmong(k, from, cards)
    {
      forall i | from <= i < |fs.history|
        ensures Coherent(fs.history[i]) && LandsAmong(k.c, fs.history[i], cards) && Bears(k, fs.history[i])
      {
        assert Endures(k, fs.history[i]);
      }
    }

    /** The second promise differs from the first at most in its cards and its past. */
    ghost predicate SameTerms(k: Promise, m: Promise) {
      m.c == k.c && m.sound == k.sound && m.loads == k.loads && m.sure == k.sure && m.quiet == k.quiet
    }

    /** Two promises in a row: one up to the state `past` records, another from there on. */
    lemma KeptInTurn(past: seq<Disk>, k: Promise, m: Promise, from: nat, cards: set<seq<byte>>)
      requires from <= |past| && Extends(past, fs.history) && SameTerms(k, m)
      requires forall i :: from <= i < |past| ==> Endures(k, past[i]) && Coherent(past[i])
      requires fs.Kept(m, |past|) && {k.x, k.y, m.x, m.y} <= cards
      ensures LandedAmong(k, from, cards)
    {
      forall i | from <= i < |fs.history|
        ensures Coherent(fs.history[i]) && LandsAmong(k.c, fs.history[i], cards) && Bears(k, fs.history[i])
      {
        if i < |past| {
          assert Endures(k, past[i]) && fs.history[i] == past[i];
        } else {
          assert Endures(m, fs.history[i]);
        }
      }
    }

    /**
     * What replacing the card by `chosen` means for a restart: every crash opens to the old card, to
     * limbo, or to what a restart makes of the chosen image, under what the card promises otherwise.
     * After success the chosen image decides, and it opens to itself exactly unless nothing was dirty
     * and the journal of a failed write leads elsewhere.
     */
    twostate predicate Exchanged(chosen: seq<byte>, ok: bool)
      requires old(Opened())
      reads this, fs
    {
      var from := |old(fs.history)|;
      && LandedAmong(old(Standing()).(quiet := false), from, {old(Contents()), old(limbo), old(Restored(chosen))})
      && (ok ==> Base(fs.disk) == Some(chosen))
      && (ok ==> fs.disk.journal == if old(dirty) == map[] then old(fs.disk.journal) else [])
      && (ok ==> Lands(c, fs.disk, old(Restored(chosen)), old(Restored(chosen))))
      && (ok ==> (Lands(c, fs.disk, chosen, chosen) <==> !old(Overridden(chosen))))
      && (ok && Previous !in old(fs.disk).raw ==> Refused(fs.history, from))
    }

    /** The chosen image is the base: what a restart makes of it and the journal decides. */
    lemma ExchangedLands(d: Disk, chosen: seq<byte>)
      requires c.Valid() && |chosen| == c.cardSize && Base(d) == Some(chosen)
      ensures Lands(c, d, After(c, chosen, d.journal), After(c, chosen, d.journal))
      ensures Lands(c, d, chosen, chosen) <==> After(c, chosen, d.journal) == chosen
      ensures d.journal == [] ==> After(c, chosen, d.journal) == chosen
    {
      EmptyJournal(chosen);
    }

    /**
     * Restores a backup. The chosen image is staged before the safety backup is taken, so pruning
     * cannot lose it. The card that is replaced is backed up under the stamp.
     */
    method Restore(name: nat, stamp: nat) returns (ok: bool)
      requires Valid()
      modifies this, fs
      ensures !stranded ==> Valid()
      ensures stranded ==> fs.faults >= old(fs.faults) + 2
      ensures ok ==> !stranded && BackupSound(old(fs.disk), name) && Contents() == old(fs.disk.backupRaw)[name]
      ensures ok ==> name in old(fs.disk.backupMeta)
      ensures ok ==> old(fs.disk.backupMeta)[name] == BackupMeta(c.owner, c.cardSize, c.hash(Contents()))
      ensures !BackupSound(old(fs.disk), name) ==> !ok && fs.disk == old(fs.disk) && fs.history == old(fs.history)
      ensures !stranded && BackupSound(old(fs.disk), name) ==>
        Contents() == old(Contents()) || Contents() == old(fs.disk.backupRaw)[name]
      ensures !stranded && !BackupSound(old(fs.disk), name) ==> Contents() == old(Contents())
      ensures BackupSound(old(fs.disk), name) ==> Exchanged(old(fs.disk.backupRaw)[name], ok)
      ensures BackupSound(old(fs.disk), name) && fs.reliable && old(Replaceable()) ==> ok
      ensures ok && fs.reliable && Quiet(old(fs.disk)) ==> Quiet(fs.disk) && Confirmed()
      ensures !stranded && !BackupSound(old(fs.disk), name) ==> limbo == old(limbo)
      ensures !stranded && BackupSound(old(fs.disk), name) ==>
        limbo == old(limbo) || limbo == old(Contents()) || limbo == old(Carried(fs.disk.backupRaw[name]))
      ensures fs.reliable && old(Keepable()) ==> Keepable() && !stranded
      ensures ok ==> limbo == old(Carried(fs.disk.backupRaw[name]))
      ensures old(Intact()) && !stranded ==> Intact()
      ensures ok ==> BackedUp(c, old(fs.disk.backupRaw), old(fs.disk.backupMeta), fs.disk.backupRaw,
        fs.disk.backupMeta, stamp, old(Contents()))
    {
      ok := fs.Attempt();
      if !BackupSound(fs.disk, name) { return false; }
      if !ok { return; }
      ok := RestoreChosen(fs.disk.backupRaw[name], fs.disk.backupMeta[name].sha, stamp);
    }

    /** Stages the chosen image and checks the copy. */
    method StageChosen(chosen: seq<byte>, ghost k: Promise, ghost from: nat) returns (ok: bool)
      requires Valid() && k == Standing().(quiet := false) && fs.Safe(k, from)
      modifies fs
      ensures fs.Safe(k, from) && Valid() && Fitting(k) && OnlyStaged(old(fs.disk), fs.disk, Selected)
      ensures old(Intact()) ==> Intact()
      ensures fs.Settle(ok)
      ensures ok ==> Selected in fs.disk.raw && fs.disk.raw[Selected].bytes == chosen
    {
      StandingEndures();
      ok := StageCopy(Selected, chosen, k, from);
      if ok {
        ok := fs.Attempt();
      }
    }

    /** The chosen image has been validated: stage it and exchange the card for it. */
    method RestoreChosen(chosen: seq<byte>, sum: seq<byte>, stamp: nat) returns (ok: bool)
      requires Valid() && |chosen| == c.cardSize && sum == c.hash(chosen)
      modifies this, fs
      ensures !stranded ==> Valid()
      ensures stranded ==> fs.faults >= old(fs.faults) + 2
      ensures !stranded ==> Contents() == old(Contents()) || Contents() == chosen
      ensures ok ==> !stranded && Contents() == chosen
      ensures Exchanged(chosen, ok)
      ensures ok && fs.reliable && Quiet(old(fs.disk)) ==> Quiet(fs.disk) && Confirmed()
      ensures fs.Settle(ok || !old(Replaceable()))
      ensures !stranded ==> limbo == old(limbo) || limbo == old(Contents()) || limbo == old(Carried(chosen))
      ensures fs.reliable && old(Keepable()) ==> Keepable() && !stranded
      ensures ok ==> limbo == old(Carried(chosen))
      ensures old(Intact()) && !stranded ==> Intact()
      ensures ok ==> BackedUp(c, old(fs.disk.backupRaw), old(fs.disk.backupMeta), fs.disk.backupRaw,
        fs.disk.backupMeta, stamp, old(Contents()))
    {
      ghost var k, from, cards := Standing().(quiet := false), |fs.history|, {Contents(), limbo, Restored(chosen)};
      StandingEndures();
      ok := StageChosen(chosen, k, from);
      if ok {
        ok := Exchange(Selected, chosen, sum, stamp, k, from);
      } else {
        KeptAmong(k, from, cards);
      }
    }

    /**
     * Flushes, takes a safety backup and activates the staged candidate, which is dropped at the
     * end whatever happens.
     */
    method Exchange(source: RawName, candidate: seq<byte>, sum: seq<byte>, stamp: nat,
                    ghost k: Promise, ghost from: nat) returns (ok: bool)
      requires Valid() && Fitting(k) && fs.Safe(k, from) && !k.quiet && source in {Selected, UploadStage}
      requires k.x == Contents() && k.y == limbo
      requires source in fs.disk.raw && fs.disk.raw[source].bytes == candidate && |candidate| == c.cardSize
      requires sum == c.hash(candidate)
      modifies this, fs
      ensures !stranded ==> Valid() && (Contents() == old(Contents()) || Contents() == candidate)
      ensures stranded ==> fs.faults >= old(fs.faults) + 2
      ensures fs.Settle(ok || !old(Replaceable()))
      ensures ok ==> !stranded && Contents() == candidate && Base(fs.disk) == Some(candidate)
      ensures ok && fs.reliable && QuietBut(source, old(fs.disk)) ==> Quiet(fs.disk) && Confirmed()
      ensures ok ==> fs.disk.journal == if old(dirty) == map[] then old(fs.disk.journal) else []
      ensures ok ==> Lands(c, fs.disk, old(Restored(candidate)), old(Restored(candidate)))
      ensures ok ==> (Lands(c, fs.disk, candidate, candidate) <==> !old(Overridden(candidate)))
      ensures LandedAmong(k, from, {k.x, k.y, old(Restored(candidate))})
      ensures ok && Previous !in old(fs.disk).raw ==> Refused(fs.history, from)
      ensures !stranded ==> limbo == old(limbo) || limbo == old(Contents()) || limbo == old(Carried(candidate))
      ensures fs.reliable && old(Keepable()) ==> Keepable() && !stranded
      ensures ok ==> limbo == old(Carried(candidate))
      ensures old(Intact()) && !stranded ==> Intact()
      ensures ok ==> BackedUp(c, old(fs.disk.backupRaw), old(fs.disk.backupMeta), fs.disk.backupRaw,
        fs.disk.backupMeta, stamp, old(Contents()))
    {
      ghost var cards := {k.x, k.y, Restored(candidate)};
      ok := FlushBeside(source, candidate, k, from);
      if ok {
        ok := ExchangeFlushed(source, candidate, sum, stamp, k, from);
        if ok {
          ExchangedLands(fs.disk, candidate);
        }
      } else {
        DropCandidate(source, k, from);
        KeptAmong(k, from, cards);
      }
    }

    /** Flushes the card while the candidate is staged beside it. */
    method FlushBeside(source: RawName, ghost candidate: seq<byte>, ghost k: Promise, ghost from: nat)
      returns (ok: bool)
      requires Valid() && Fitting(k) && fs.Safe(k, from) && !k.quiet && source in {Selected, UploadStage}
      requires k.x == Contents() && k.y == limbo && |candidate| == c.cardSize
      requires source in fs.disk.raw && fs.disk.raw[source].bytes == candidate
      modifies this, fs
      ensures fs.Safe(k, from) && fs.Settle(ok || !old(Keepable())) && blocked == old(blocked)
      ensures !stranded ==> Valid() && Contents() == old(Contents())
      ensures stranded ==> fs.faults >= old(fs.faults) + 2
      ensures ok ==> !stranded && dirty == map[]
      ensures ok ==> fs.disk.journal == if old(dirty) == map[] then old(fs.disk.journal) else []
      ensures ok ==> AfterRestart(file.value) in {k.x, k.y} && AfterRestart(candidate) == old(Restored(candidate))
      ensures ok && k.sound ==> CurrentVouches()
      ensures ok && old(Replaceable()) ==> Replaceable()
      ensures !stranded ==> limbo == old(limbo) || limbo == old(Contents())
      ensures ok ==> Replayed(candidate) == old(Carried(candidate))
      ensures fs.reliable && old(Keepable()) ==> Keepable() && !stranded
      ensures old(Intact()) && !stranded ==> Intact()
      ensures source in fs.disk.raw && fs.disk.raw[source].bytes == candidate
      ensures QuietBut(source, old(fs.disk)) ==> QuietBut(source, fs.disk)
      ensures ok && Previous !in old(fs.disk).raw ==> Previous !in fs.disk.raw
      ensures fs.disk.backupRaw == old(fs.disk.backupRaw) && fs.disk.backupMeta == old(fs.disk.backupMeta)
    {
      ok := FlushCard(k, from);
      if ok {
        FlushedRestored(candidate, k);
      }
    }

    /** With nothing dirty, a restart of the card as it is yields the contents or limbo. */
    lemma FlushedRestored(candidate: seq<byte>, k: Promise)
      requires Valid() && dirty == map[] && |candidate| == c.cardSize
      requires Contents() == k.x && (limbo == k.y || limbo == k.x)
      ensures AfterRestart(file.value) in {k.x, k.y}
      ensures fs.disk.journal == [] ==> AfterRestart(candidate) == candidate
      ensures fs.disk.journal == [] && recs == [] ==> Replayed(candidate) == candidate
    {
      CleanJournal();
      EmptyJournal(candidate);
    }

    method ExchangeFlushed(source: RawName, candidate: seq<byte>, sum: seq<byte>, stamp: nat,
                           ghost k: Promise, ghost from: nat) returns (ok: bool)
      requires Valid() && dirty == map[] && fs.Safe(k, from) && source in {Selected, UploadStage}
      requires source in fs.disk.raw && fs.disk.raw[source].bytes == candidate && |candidate| == c.cardSize
      requires sum == c.hash(candidate) && AfterRestart(file.value) in {k.x, k.y}
      requires !k.quiet && k.c == c && (k.sound ==> CurrentVouches())
      requires k.sure ==> k.sound && fs.reliable && fs.links
      modifies this, fs
      ensures !stranded ==> Valid() && (Contents() == old(Contents()) || Contents() == candidate)
      ensures stranded ==> fs.faults >= old(fs.faults) + 2
      ensures fs.Settle(ok || !old(Replaceable())) && fs.disk.journal == old(fs.disk.journal)
      ensures ok ==> !stranded && Contents() == candidate && Base(fs.disk) == Some(candidate)
      ensures ok && fs.reliable && QuietBut(source, old(fs.disk)) ==> Quiet(fs.disk) && Confirmed()
      ensures LandedAmong(k, from, {k.x, k.y, old(AfterRestart(candidate))})
      ensures ok && Previous !in old(fs.disk).raw ==> Refused(fs.history, from)
      ensures !stranded ==> limbo == old(limbo) || limbo == old(Contents()) || limbo == old(Replayed(candidate))
      ensures fs.reliable && old(Keepable()) ==> Keepable() && !stranded
      ensures ok ==> limbo == old(Replayed(candidate))
      ensures old(Intact()) && !stranded ==> Intact()
      ensures ok ==> BackedUp(c, old(fs.disk.backupRaw), old(fs.disk.backupMeta), fs.disk.backupRaw,
        fs.disk.backupMeta, stamp, old(Contents()))
    {
      ghost var past, after := fs.history, AfterRestart(candidate);
      ghost var m := k.(x := AfterRestart(file.value), y := after, past := past);
      Exchanging(k, m);
      ok := BackupAndActivate(source, candidate, sum, stamp, m, |past|);
      KeptInTurn(past, k, m, from, {k.x, k.y, after});
    }

    /** Nothing is dirty any more: from here on a crash yields what a restart makes of either image. */
    lemma Exchanging(k: Promise, m: Promise)
      requires Valid() && dirty == map[] && Endures(k, fs.disk) && Coherent(fs.disk) && k.c == c
      requires m == k.(x := AfterRestart(file.value), y := m.y, past := fs.history)
      requires k.sure ==> k.sound && fs.reliable && fs.links
      ensures fs.Safe(m, |fs.history|) && Settling(m, file.value)
    {
    }

    /** The rest of an exchange, once nothing is dirty. */
    method BackupAndActivate(source: RawName, candidate: seq<byte>, sum: seq<byte>, stamp: nat,
                             ghost k: Promise, ghost from: nat) returns (ok: bool)
      requires Valid() && dirty == map[] && fs.Safe(k, from) && source in {Selected, UploadStage}
      requires source in fs.disk.raw && fs.disk.raw[source].bytes == candidate && sum == c.hash(candidate)
      requires Settling(k, file.value) && Settling(k, candidate) && !k.quiet && (k.sound ==> CurrentVouches())
      modifies this, fs
      ensures !stranded ==> Valid() && (Contents() == old(Contents()) || Contents() == candidate)
      ensures stranded ==> fs.faults >= old(fs.faults) + 2
      ensures fs.Settle(ok || !old(Replaceable())) && fs.disk.journal == old(fs.disk.journal)
      ensures ok ==> !stranded && Contents() == candidate && Base(fs.disk) == Some(candidate)
      ensures ok && fs.reliable && QuietBut(source, old(fs.disk)) ==> Quiet(fs.disk) && Confirmed()
      ensures fs.Safe(k, from) && blocked == old(blocked)
      ensures ok && Previous !in old(fs.disk).raw ==> Refused(fs.history, from)
      ensures !stranded ==> limbo == old(limbo) || limbo == old(Contents()) || limbo == old(Replayed(candidate))
      ensures fs.reliable && old(Keepable()) ==> Keepable() && !stranded
      ensures ok ==> limbo == old(Replayed(candidate))
      ensures old(Intact()) && !stranded ==> Intact()
      ensures ok ==> BackedUp(c, old(fs.disk.backupRaw), old(fs.disk.backupMeta), fs.disk.backupRaw,
        fs.disk.backupMeta, stamp, old(Contents()))
    {
      ok := BackupThenActivate(source, sum, stamp, k, from);
      DropLast(source, k, from);
    }

    lemma StillBackedUp(was: Disk, saved: Disk, now: Disk, stamp: nat, image: seq<byte>)
      requires BackedUp(c, was.backupRaw, was.backupMeta, saved.backupRaw, saved.backupMeta, stamp, image)
      requires OutsideCard(saved, now, RestoreStage)
      ensures BackedUp(c, was.backupRaw, was.backupMeta, now.backupRaw, now.backupMeta, stamp, image)
    {
    }

    lemma StillQuiet(source: RawName, saved: Disk, now: Disk)
      requires OtherStages(saved, now, RestoreStage)
      ensures RestoreStage !in now.raw && QuietBut(source, saved) ==> QuietBut(source, now)
    {
    }

    method BackupThenActivate(source: RawName, sum: seq<byte>, stamp: nat, ghost k: Promise, ghost from: nat)
      returns (ok: bool)
      requires Valid() && dirty == map[] && fs.Safe(k, from) && source in {Selected, UploadStage}
      requires source in fs.disk.raw && sum == c.hash(fs.disk.raw[source].bytes)
      requires Settling(k, file.value) && Settling(k, fs.disk.raw[source].bytes)
      requires !k.quiet && (k.sound ==> CurrentVouches())
      modifies this, fs
      ensures fs.Safe(k, from) && blocked == old(blocked)
      ensures fs.Settle(ok || !old(Replaceable())) && fs.disk.journal == old(fs.disk.journal)
      ensures !stranded ==> Valid()
      ensures !stranded ==> Contents() == old(Contents()) || Contents() == old(fs.disk).raw[source].bytes
      ensures stranded ==> fs.faults >= old(fs.faults) + 2
      ensures ok ==> !stranded && Contents() == old(fs.disk).raw[source].bytes && Base(fs.disk) == Some(Contents())
      ensures ok ==> CurrentVouches() && Previous !in fs.disk.raw && RestoreStage !in fs.disk.raw
      ensures OtherStages(old(fs.disk), fs.disk, RestoreStage)
      ensures ok && QuietBut(source, old(fs.disk)) ==> QuietBut(source, fs.disk)
      ensures ok && Previous !in old(fs.disk).raw ==> Refused(fs.history, from)
      ensures !stranded ==>
        limbo == old(limbo) || limbo == old(Contents()) || limbo == old(Replayed(fs.disk.raw[source].bytes))
      ensures fs.reliable && old(Keepable()) ==> Keepable() && !stranded
      ensures ok ==> limbo == old(Replayed(fs.disk.raw[source].bytes))
      ensures old(Intact()) && !stranded ==> Intact()
      ensures ok ==> BackedUp(c, old(fs.disk.backupRaw), old(fs.disk.backupMeta), fs.disk.backupRaw,
        fs.disk.backupMeta, stamp, old(Contents()))
    {
      ok := SafetyBackup(stamp, k, from);
      if ok {
        ghost var saved := fs.disk;
        ok := ActivateCandidate(source, sum, k, from);
        StillBackedUp(old(fs.disk), saved, fs.disk, stamp, old(Contents()));
        StillQuiet(source, saved, fs.disk);
      }
    }

    /** The candidate goes, and what the exchange went through stays. */
    method DropLast(source: RawName, ghost k: Promise, ghost from: nat)
      requires fs.Safe(k, from) && source in {Selected, UploadStage} && !k.quiet
      modifies fs
      ensures fs.Safe(k, from) && OnlyStaged(old(fs.disk), fs.disk, source) && fs.faults >= old(fs.faults)
      ensures old(Valid()) ==> Valid()
      ensures old(Valid() && Intact()) ==> Intact()
      ensures old(Refused(fs.history, from)) ==> Refused(fs.history, from)
      ensures Base(fs.disk) == old(Base(fs.disk)) && (old(Confirmed()) ==> Confirmed())
      ensures fs.reliable ==> source !in fs.disk.raw && (old(QuietBut(source, fs.disk)) ==> Quiet(fs.disk))
    {
      ghost var past := fs.history;
      fs.SafeFrom(k, from);
      DropCandidate(source, k.(past := past), from);
      fs.SafeSince(k, past, from);
      if Refused(past, from) {
        StillRefused(past, fs.history, from);
      }
    }

    method SafetyBackup(stamp: nat, ghost k: Promise, ghost from: nat) returns (ok: bool)
      requires Valid() && dirty == map[] && fs.Safe(k, from) && k.c == c
      modifies fs
      ensures Valid() && fs.Safe(k, from) && OnlyBackups(old(fs.disk), fs.disk)
      ensures old(CurrentVouches()) ==> CurrentVouches()
      ensures old(Intact()) ==> Intact()
      ensures fs.Settle(ok || !old(Replaceable()))
      ensures ok ==> BackedUp(c, old(fs.disk.backupRaw), old(fs.disk.backupMeta), fs.disk.backupRaw,
        fs.disk.backupMeta, stamp, old(Contents()))
    {
      ok := BackupCard(stamp, k, from);
      OverlayNothing(file.value);
    }

    method DropCandidate(source: RawName, ghost k: Promise, ghost from: nat)
      requires fs.Safe(k, from) && source in {Selected, UploadStage} && !k.quiet
      modifies fs
      ensures fs.Safe(k, from) && OnlyStaged(old(fs.disk), fs.disk, source) && fs.faults >= old(fs.faults)
      ensures old(Valid()) ==> Valid()
      ensures old(Valid() && Intact()) ==> Intact()
      ensures fs.reliable ==> source !in fs.disk.raw
    {
      ghost var start := fs.disk;
      var _ := fs.DropStage(source, start, k, from);
    }

    /**
     * Replaces the card by uploaded bytes. `stream` is everything the client sends; a stream of
     * any other length than the card's is refused before the card is touched.
     */
    method Upload(stream: seq<byte>, size: nat, stamp: nat) returns (ok: bool)
      requires Valid()
      modifies this, fs
      ensures !stranded ==> Valid()
      ensures stranded ==> fs.faults >= old(fs.faults) + 2
      ensures ok ==> !stranded && |stream| == size == c.cardSize && Contents() == stream
      ensures !stranded ==> Contents() == old(Contents()) || Contents() == stream
      ensures |stream| != c.cardSize || size != c.cardSize ==> !ok && !stranded && Contents() == old(Contents())
      ensures |stream| == size == c.cardSize ==> Exchanged(stream, ok)
      ensures |stream| != c.cardSize || size != c.cardSize ==>
        fs.Kept(old(Standing()).(quiet := false), |old(fs.history)|)
      ensures fs.reliable && old(Replaceable()) && UploadStage !in old(fs.disk).raw ==>
        (|stream| == size == c.cardSize ==> ok)
      ensures !stranded && (|stream| != c.cardSize || size != c.cardSize) ==> limbo == old(limbo)
      ensures !stranded && |stream| == size == c.cardSize ==>
        limbo == old(limbo) || limbo == old(Contents()) || limbo == old(Carried(stream))
      ensures fs.reliable && old(Keepable()) ==> Keepable() && !stranded
      ensures ok ==> limbo == old(Carried(stream))
      ensures old(Intact()) && !stranded ==> Intact()
      ensures ok ==> BackedUp(c, old(fs.disk.backupRaw), old(fs.disk.backupMeta), fs.disk.backupRaw,
        fs.disk.backupMeta, stamp, old(Contents()))
    {
      if size == 0 || size > MAXIMUM_UPLOAD_SIZE || size != c.cardSize { return false; }
      ghost var k, from, cards := Standing().(quiet := false), |fs.history|, {Contents(), limbo, Restored(stream)};
      StandingEndures();
      ok := StageUpload(stream, size, k, from);
      if !ok {
        KeptAmong(k, from, cards);
        return;
      }
      ok := Exchange(UploadStage, stream, c.hash(stream), stamp, k, from);
    }

    /** Receives the stream into a new staged file; a file left by an earlier upload is in the way. */
    method StageUpload(stream: seq<byte>, size: nat, ghost k: Promise, ghost from: nat) returns (ok: bool)
      requires Valid() && k == Standing().(quiet := false) && fs.Safe(k, from)
      modifies fs
      ensures fs.Safe(k, from) && Valid() && OnlyStaged(old(fs.disk), fs.disk, UploadStage)
      ensures old(Intact()) ==> Intact()
      ensures fs.Settle(ok || |stream| != size || UploadStage in old(fs.disk).raw)
      ensures ok ==> |stream| == size && UploadStage in fs.disk.raw && fs.disk.raw[UploadStage].bytes == stream
    {
      ghost var start := fs.disk;
      ok := fs.NewStage(UploadStage, start, k, from);
      if !ok { return; }
      var received := if |stream| < size then stream else stream[..size];
      ok := fs.FillStage(UploadStage, received, start, k, from);
      if !ok || |stream| != size {
        var _ := fs.DropStage(UploadStage, start, k, from);
        return false;
      }
      assert received == stream;
    }
  }

  lemma SliceGrows(flat: seq<byte>, offset: nat, done: nat, length: nat)
    requires offset + done + length <= |flat|
    ensures flat[offset..offset + done] + flat[offset + done..offset + done + length]
      == flat[offset..offset + done + length]
  {
  }

  /** The next bytes lie in one block, and go on to its end or to the end of what remains. */
  ghost predicate EndsInBlock(position: nat, remaining: nat, length: nat) {
    && 0 < length && position % SAVE_BLOCK_SIZE + length <= SAVE_BLOCK_SIZE
    && (length == remaining || position % SAVE_BLOCK_SIZE + length == SAVE_BLOCK_SIZE)
  }

  /** How many of the next bytes still belong to the block at this position. */
  function RestOfBlock(position: nat, remaining: nat): (length: nat)
    ensures length <= remaining && length <= SAVE_BLOCK_SIZE
    ensures remaining > 0 ==> EndsInBlock(position, remaining, length)
  {
    MinNat(remaining, SAVE_BLOCK_SIZE - position % SAVE_BLOCK_SIZE)
  }

  /** A run that stays inside one block. */
  lemma SameBlock(position: nat, length: nat)
    requires position % SAVE_BLOCK_SIZE + length <= SAVE_BLOCK_SIZE
    ensures forall p :: position <= p < position + length ==>
      p / SAVE_BLOCK_SIZE == position / SAVE_BLOCK_SIZE
      && p % SAVE_BLOCK_SIZE == position % SAVE_BLOCK_SIZE + (p - position)
  {
    forall p | position <= p < position + length
      ensures p / SAVE_BLOCK_SIZE == position / SAVE_BLOCK_SIZE
      ensures p % SAVE_BLOCK_SIZE == position % SAVE_BLOCK_SIZE + (p - position)
    {
      SameUnit(position, p - position, SAVE_BLOCK_SIZE);
    }
  }
}
