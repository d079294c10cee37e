/** Startup of a card directory: rollback, validation, journal replay, and runs with crashes. */
module SaveRecovery {
  import opened Basics
  import opened Bytes
  import opened SaveJournal
  import opened SaveDisk
  import opened SaveBlocks
  import opened SaveOverlay

  /** The promise of a startup: the card that opens, if any, is `x` or `y`. */
  ghost predicate Opening(c: Config, k: Promise) {
    c.Valid() && k.c == c && !k.sure && !k.quiet
  }

  /** A step that keeps base and journal, and soundness where it is promised, keeps the promise. */
  lemma SameBase(k: Promise, d: Disk, e: Disk)
    requires !k.sure && !k.quiet && Endures(k, d) && Base(d) == Base(e) && d.journal == e.journal
    requires k.sound ==> Sound(k.c, e)
    ensures Endures(k, e)
  {
  }

  /** Dropping the marker keeps the promise of a startup. */
  lemma UnmarkedEndures(k: Promise, d: Disk)
    requires !k.sure && !k.quiet && Endures(k, d)
    ensures Endures(k, d.(previous := None))
  {
    SameBase(k, d, d.(previous := None));
  }

  /** Renaming the previous card back keeps the promise of a startup. */
  lemma RenamedEndures(k: Promise, d: Disk)
    requires !k.sure && !k.quiet && Endures(k, d) && PreviousWhole(k.c, d)
    ensures Endures(k, Renamed(d, Previous, Active))
  {
    if k.sound {
      SoundRenamed(k.c, d);
    }
    SameBase(k, d, Renamed(d, Previous, Active));
  }

  /** The previous card is back under the active name and confirmed, and nothing is staged. */
  ghost predicate RolledBack(c: Config, was: Disk, now: Disk) {
    && Previous in was.raw && |was.raw[Previous].bytes| == c.cardSize
    && Active in now.raw && now.raw[Active] == was.raw[Previous]
    && now.current.Some? && Matches(c, now.raw[Active], now.current.value)
    && now.current.value.sha == c.hash(now.raw[Active].bytes)
    && now.journal == was.journal && Staged(now) == 0 && now.previous.None?
    && (Previous in now.raw ==> now.raw[Previous] == now.raw[Active])
  }

  /** Rolls an interrupted activation back to the previous card, if there is one. */
  method RecoverInterruptedActivation(c: Config, fs: FileSystem, ghost k: Promise, ghost from: nat)
    returns (ok: bool)
    requires Opening(c, k) && fs.Safe(k, from)
    modifies fs
    ensures fs.Safe(k, from)
    ensures fs.Settle(ok || (Previous in old(fs.disk).raw && Recovered(c, old(fs.disk)).None?))
    ensures fs.disk.journal == old(fs.disk).journal
    ensures ok && Previous !in old(fs.disk).raw ==> fs.disk == old(fs.disk).(previous := None)
    ensures ok && Previous in old(fs.disk).raw ==> RolledBack(c, old(fs.disk), fs.disk)
    ensures ok && fs.reliable && Previous in old(fs.disk).raw ==> Recovered(c, old(fs.disk)).Some?
    ensures ok && Previous in old(fs.disk).raw ==> fs.Passed(Renamed(old(fs.disk), Previous, Active), from)
  {
    ok := fs.Attempt();
    if !ok { return; }
    if Previous !in fs.disk.raw {
      UnmarkedEndures(k, fs.disk);
      var gone := fs.Unmark(k, from);
      return gone != Fault;
    }
    if |fs.disk.raw[Previous].bytes| != c.cardSize { return false; }
    var readable := fs.Attempt();
    var trusted := readable && fs.disk.previous.Some?;
    var m: Metadata;
    if trusted {
      m := fs.disk.previous.value;
    } else if fs.disk.current.Some? {
      m := fs.disk.current.value.(owner := c.owner, cardSize := c.cardSize);
    } else {
      return false;
    }
    var sum := c.hash(fs.disk.raw[Previous].bytes);
    if m.owner != c.owner || m.cardSize != c.cardSize || (|m.sha| == 32 && trusted && sum != m.sha) {
      return false;
    }
    ok := RollBack(c, fs, m.(sha := sum), k, from);
  }

  method RollBack(c: Config, fs: FileSystem, m: Metadata, ghost k: Promise, ghost from: nat) returns (ok: bool)
    requires Opening(c, k) && fs.Safe(k, from) && Previous in fs.disk.raw
    requires |fs.disk.raw[Previous].bytes| == c.cardSize && m.sha == c.hash(fs.disk.raw[Previous].bytes)
    requires m.owner == c.owner && m.cardSize == c.cardSize
    modifies fs
    ensures fs.Safe(k, from) && fs.Settle(ok) && fs.disk.journal == old(fs.disk).journal
    ensures ok ==> RolledBack(c, old(fs.disk), fs.disk)
    ensures ok ==> fs.Passed(Renamed(old(fs.disk), Previous, Active), from)
  {
    RenamedEndures(k, fs.disk);
    ok := fs.Move(Previous, Active, k, from);
    if !ok { return; }
    ghost var past, gap := fs.history, fs.disk;
    fs.SafeFrom(k, from);
    ok := ConfirmBack(c, fs, m.(tag := fs.disk.raw[Active].tag), k.(past := past), from);
    fs.SafeSince(k, past, from);
    StillVisited(past, fs.history, gap, from);
  }

  /** The rest of a rollback, once the old image has the active name again. */
  method ConfirmBack(c: Config, fs: FileSystem, m: Metadata, ghost k: Promise, ghost from: nat) returns (ok: bool)
    requires Opening(c, k) && fs.Safe(k, from) && Active in fs.disk.raw && Matches(c, fs.disk.raw[Active], m)
    requires Previous in fs.disk.raw ==> fs.disk.raw[Previous] == fs.disk.raw[Active]
    modifies fs
    ensures fs.Safe(k, from) && fs.Settle(ok) && fs.disk.journal == old(fs.disk).journal
    ensures ok ==> SameImages(old(fs.disk), fs.disk) && fs.disk.current == Some(m)
    ensures ok ==> fs.disk.previous.None? && Staged(fs.disk) == 0
  {
    ok := fs.ReviseCurrent(m, k, from);
    if !ok { return; }
    UnmarkedEndures(k, fs.disk);
    var gone := fs.Unmark(k, from);
    if gone == Fault { return false; }
    ok := DropStaged(fs, k, from);
    if !ok { return; }
    ok := fs.Attempt();
  }

  /** The two disks have the same active and previous images. */
  ghost predicate SameImages(d: Disk, e: Disk) {
    && (Active in d.raw <==> Active in e.raw) && (Active in d.raw ==> d.raw[Active] == e.raw[Active])
    && (Previous in d.raw <==> Previous in e.raw) && (Previous in d.raw ==> d.raw[Previous] == e.raw[Previous])
  }

  /** Removes every staged image that is there. */
  method DropStaged(fs: FileSystem, ghost k: Promise, ghost from: nat) returns (ok: bool)
    requires fs.Safe(k, from) && !k.quiet
    modifies fs
    ensures fs.Safe(k, from) && fs.Settle(ok)
    ensures SameCore(old(fs.disk), fs.disk) && OutsideStages(old(fs.disk), fs.disk)
    ensures ok ==> Staged(fs.disk) == 0
  {
    var r := fs.DropStage(Checkpoint, fs.disk, k, from);
    if r == Fault { return false; }
    r := fs.DropStage(RestoreStage, fs.disk, k, from);
    if r == Fault { return false; }
    r := fs.DropStage(Selected, fs.disk, k, from);
    if r == Fault { return false; }
    r := fs.DropStage(UploadStage, fs.disk, k, from);
    ok := r != Fault;
  }

  ghost predicate OutsideStages(a: Disk, b: Disk) {
    b == a.(raw := b.raw)
  }

  /** Accepts the active card by its identity, or by its checksum, then records the identity. */
  method ValidateCardFiles(c: Config, fs: FileSystem, ghost k: Promise, ghost from: nat)
    returns (m: Option<Metadata>)
    requires Opening(c, k) && fs.Safe(k, from)
    modifies fs
    ensures fs.Safe(k, from) && fs.Settle(m.Some? || !Acceptable(c, old(fs.disk)))
    ensures m.Some? ==> Acceptable(c, old(fs.disk)) && Acceptable(c, fs.disk) && fs.disk.current == m
    ensures m.Some? ==> m.value.sha == old(fs.disk).current.value.sha
    ensures fs.disk == old(fs.disk).(current := fs.disk.current)
  {
    var ok := fs.Attempt();
    if !ok || !Acceptable(c, fs.disk) { return None; }
    var a, current := fs.disk.raw[Active], fs.disk.current.value;
    if current.tag == a.tag { return Some(current); }
    var identified := current.(tag := a.tag);
    ok := fs.ReviseCurrent(identified, k, from);
    if !ok { return None; }
    m := fs.disk.current;
  }

  predicate Acceptable(c: Config, d: Disk) {
    Active in d.raw && d.current.Some? && Matches(c, d.raw[Active], d.current.value)
  }

  /** One staged image left behind is dropped; two mean that startup cannot tell what happened. */
  method RejectCheckpointConflicts(fs: FileSystem, ghost k: Promise, ghost from: nat) returns (ok: bool)
    requires fs.Safe(k, from) && !k.quiet
    modifies fs
    ensures fs.Safe(k, from) && fs.Settle(ok || Staged(old(fs.disk)) > 1)
    ensures ok ==> Staged(old(fs.disk)) <= 1
    ensures SameCore(old(fs.disk), fs.disk) && OutsideStages(old(fs.disk), fs.disk)
  {
    ok := fs.Attempt();
    if !ok || Staged(fs.disk) > 1 { return false; }
    ok := DropStaged(fs, k, from);
  }

  /** Replays the journal into the dirty blocks of a freshly opened card. */
  method LoadJournal(card: SaveCard) returns (ok: bool)
    requires card.Opened() && card.dirty == map[] && card.journalBytes == |card.fs.disk.journal|
    modifies card`dirty, card`pendingBytes, card.fs`faults
    ensures ok ==> Loads(card.c, card.fs.disk.journal)
    ensures card.fs.Settle(ok || !Loads(card.c, card.fs.disk.journal))
    ensures card.Opened()
    ensures ok ==> var rs := Decode(card.c, card.fs.disk.journal).value;
      && card.Contents() == Replay(card.file.value, rs)
      && card.pendingBytes == Payload(rs)
      && (rs != [] ==> card.dirty != map[])
  {
    if card.journalBytes > card.c.maxJournalBytes { return false; }
    ok := card.fs.Attempt();
    if !ok { return; }
    var journal := card.fs.disk.journal;
    var rest := journal;
    var total: nat := 0;
    ghost var rs: seq<Record> := [];
    OverlayNothing(card.file.value);
    PrependSplit(rs, Parse(card.c, rest));
    while rest != []
      invariant Reading(card, journal, rs, rest, total) && card.fs.Settle(true)
      decreases |rest|
    {
      ok := card.fs.Attempt();
      if !ok { return; }
      ok, rest, total, rs := LoadRecord(card, journal, rs, rest, total);
      if !ok { return; }
    }
    PrependSplit(rs, Some([]));
    assert rs + [] == rs;
    card.pendingBytes := total;
    ok := true;
  }

  /** Reads the next record and takes it in. */
  method LoadRecord(card: SaveCard, ghost journal: seq<byte>, ghost rs: seq<Record>, rest: seq<byte>, total: nat)
    returns (ok: bool, tail: seq<byte>, sum: nat, ghost more: seq<Record>)
    requires Reading(card, journal, rs, rest, total) && rest != []
    modifies card`dirty, card.fs`faults
    ensures card.Opened() && card.fs.Settle(ok || Decode(card.c, journal).None?)
    ensures ok ==> Reading(card, journal, more, tail, sum) && |tail| < |rest|
  {
    tail, sum, more := rest, total, rs;
    var r := Examine(card, journal, rs, rest, total);
    if r.None? { return false, tail, sum, more; }
    ok := TakeRecord(card, journal, rs, rest, total, r.value);
    tail, sum := rest[RECORD_HEADER_SIZE + |r.value.data|..], total + |r.value.data|;
    more := rs + [r.value];
  }

  /** Takes one record of the journal into the dirty blocks, if the base can be read. */
  method TakeRecord(card: SaveCard, ghost journal: seq<byte>, ghost rs: seq<Record>, ghost rest: seq<byte>,
                    ghost total: nat, r: Record) returns (ok: bool)
    requires Reading(card, journal, rs, rest, total) && Fits(card.c.cardSize, r)
    requires RECORD_HEADER_SIZE + |r.data| <= |rest|
    requires Parse(card.c, journal) == PrependAll(rs + [r], Parse(card.c, rest[RECORD_HEADER_SIZE + |r.data|..]))
    requires Payload(rs + [r]) == total + |r.data| <= card.c.maxPendingBytes
    modifies card`dirty, card.fs`faults
    ensures card.Opened() && card.fs.Settle(ok)
    ensures ok ==> Reading(card, journal, rs + [r], rest[RECORD_HEADER_SIZE + |r.data|..], total + |r.data|)
  {
    ghost var flat := card.Contents();
    ok := TakeInWhole(card, r);
    if ok {
      ReadingGrows(card, journal, rs, rest, total, r, flat);
    }
  }

  /** The next record, unless it or the payload so far refuses the journal. */
  method Examine(card: SaveCard, ghost journal: seq<byte>, ghost rs: seq<Record>, rest: seq<byte>, total: nat)
    returns (r: Option<Record>)
    requires card.c.Digests() && rest != [] && total == Payload(rs)
    requires Parse(card.c, journal) == PrependAll(rs, Parse(card.c, rest))
    ensures r.None? ==> Decode(card.c, journal).None?
    ensures r.Some? ==> r == First(card.c, rest) && Payload(rs + [r.value]) == total + |r.value.data|
    ensures r.Some? ==> total + |r.value.data| <= card.c.maxPendingBytes
    ensures r.Some? ==> var tail := rest[RECORD_HEADER_SIZE + |r.value.data|..];
      Parse(card.c, journal) == PrependAll(rs + [r.value], Parse(card.c, tail))
  {
    r := First(card.c, rest);
    if r.None? { return; }
    NextRecord(card, journal, rs, rest, r.value);
    if total + |r.value.data| > card.c.maxPendingBytes {
      r := None;
    }
  }

  lemma ReadingGrows(card: SaveCard, journal: seq<byte>, rs: seq<Record>, rest: seq<byte>, total: nat, r: Record,
                     flat: seq<byte>)
    requires card.Opened() && AllFit(card.c.cardSize, rs) && Fits(card.c.cardSize, r)
    requires RECORD_HEADER_SIZE + |r.data| <= |rest|
    requires Parse(card.c, journal) == PrependAll(rs + [r], Parse(card.c, rest[RECORD_HEADER_SIZE + |r.data|..]))
    requires flat == Replay(card.file.value, rs) && card.Contents() == Patch(flat, r.offset, r.data)
    requires total == Payload(rs) && Payload(rs + [r]) == total + |r.data| <= card.c.maxPendingBytes
    requires card.dirty != map[]
    ensures Reading(card, journal, rs + [r], rest[RECORD_HEADER_SIZE + |r.data|..], total + |r.data|)
  {
    ReplaySnoc(card.file.value, rs, r);
  }

  method TakeInWhole(card: SaveCard, r: Record) returns (ok: bool)
    requires card.Opened() && Fits(card.c.cardSize, r)
    modifies card`dirty, card.fs`faults
    ensures card.Opened() && card.fs.Settle(ok) && card.file == old(card.file)
    ensures ok ==> card.Contents() == Patch(old(card.Contents()), r.offset, r.data) && card.dirty != map[]
  {
    var done := card.Absorb(r.offset, r.data);
    ok := done == |r.data|;
    if ok {
      assert r.data[..done] == r.data;
    }
  }

  /** The records read so far are in the dirty blocks, the rest of the journal is still to come. */
  ghost predicate Reading(card: SaveCard, journal: seq<byte>, rs: seq<Record>, rest: seq<byte>, total: nat)
    reads card
  {
    && card.Opened() && AllFit(card.c.cardSize, rs)
    && Parse(card.c, journal) == PrependAll(rs, Parse(card.c, rest))
    && card.Contents() == Replay(card.file.value, rs)
    && total == Payload(rs) <= card.c.maxPendingBytes
    && (rs != [] ==> card.dirty != map[])
  }

  lemma NextRecord(card: SaveCard, journal: seq<byte>, rs: seq<Record>, rest: seq<byte>, r: Record)
    requires card.c.Digests() && rest != [] && First(card.c, rest) == Some(r)
    requires Parse(card.c, journal) == PrependAll(rs, Parse(card.c, rest))
    ensures var tail := rest[RECORD_HEADER_SIZE + |r.data|..];
      Parse(card.c, journal) == PrependAll(rs + [r], Parse(card.c, tail))
    ensures Payload(rs + [r]) == Payload(rs) + |r.data|
    ensures Payload(rs) + |r.data| > card.c.maxPendingBytes ==> Decode(card.c, journal).None?
  {
    var more := Parse(card.c, rest[RECORD_HEADER_SIZE + |r.data|..]);
    PrependSnoc(rs, r, more);
    PayloadSnoc(rs, r, more);
  }

  lemma PrependSnoc(rs: seq<Record>, r: Record, more: Option<seq<Record>>)
    ensures PrependAll(rs, Prepend(r, more)) == PrependAll(rs + [r], more)
  {
    if more.Some? {
      assert rs + ([r] + more.value) == rs + [r] + more.value;
    }
  }

  /** The payload of a journal is at least that of the records read so far. */
  lemma PayloadSnoc(rs: seq<Record>, r: Record, more: Option<seq<Record>>)
    ensures Payload(rs + [r]) == Payload(rs) + |r.data|
    ensures more.Some? ==> Payload(rs + [r] + more.value) >= Payload(rs) + |r.data|
  {
    PayloadConcat(rs, [r]);
    assert [r][..0] == [];
    assert Payload([r]) == |r.data|;
    if more.Some? {
      PayloadConcat(rs + [r], more.value);
    }
  }

  /** After rollback and validation: the active image is the base, and nothing contradicts it. */
  ghost predicate Settledown(c: Config, d: Disk) {
    && Acceptable(c, d)
    && (Previous in d.raw ==> d.raw[Previous] == d.raw[Active] && d.previous.None?)
  }

  /** Rollback, validation and the check for conflicting staged images. */
  method PrepareDirectory(c: Config, fs: FileSystem, ghost k: Promise, ghost from: nat)
    returns (m: Option<Metadata>)
    requires Opening(c, k) && fs.Safe(k, from)
    modifies fs
    ensures fs.Safe(k, from) && fs.disk.journal == old(fs.disk).journal
    ensures m.Some? ==> Settledown(c, fs.disk) && fs.disk.current == m
    ensures m.Some? ==> Base(old(fs.disk)) == Some(fs.disk.raw[Active].bytes)
    ensures m.Some? && Truthful(c, old(fs.disk)) ==> m.value.sha == c.hash(fs.disk.raw[Active].bytes)
    ensures fs.reliable ==> (m.Some? <==> Recovered(c, old(fs.disk)).Some? && Unambiguous(old(fs.disk)))
  {
    var ok := RecoverInterruptedActivation(c, fs, k, from);
    if !ok { return None; }
    m := ValidateCardFiles(c, fs, k, from);
    if m.None? { return; }
    ok := RejectCheckpointConflicts(fs, k, from);
    if !ok { return None; }
  }

  /** At most one staged image is left, or a previous card decides. */
  predicate Unambiguous(d: Disk) {
    Previous in d.raw || Staged(d) <= 1
  }

  /** The recorded checksum is that of the image the metadata stands for. */
  ghost predicate Truthful(c: Config, d: Disk) {
    Previous !in d.raw && Active in d.raw && d.current.Some? ==>
      d.current.value.sha == c.hash(d.raw[Active].bytes)
  }

  /** The base and the journal of this disk lead to `now`. */
  ghost predicate Yields(c: Config, d: Disk, now: seq<byte>) {
    Base(d).Some? && Settled(c, Base(d).value, d.journal) == Some(now)
  }

  /**
   * `openObject`: opens the card of a directory, or refuses it. On reliable storage it opens exactly
   * what `OpensTo` says, provided that the checkpoint of a leftover journal can keep the card: by a
   * hard link, or by a copy that the recorded checksum confirms.
   */
  method OpenCard(c: Config, fs: FileSystem, ghost k: Promise, ghost from: nat) returns (card: Option<SaveCard>)
    requires Opening(c, k) && fs.Safe(k, from) && (k.sound ==> Truthful(c, fs.disk))
    modifies fs
    ensures fs.Safe(k, from)
    ensures card.Some? ==> fresh(card.value) && card.value.fs == fs && card.value.c == c && card.value.Valid()
    ensures card.Some? ==> card.value.Intact() && card.value.dirty == map[] && fs.disk.journal == []
    ensures card.Some? ==> card.value.Contents() == k.x || card.value.Contents() == k.y
    ensures card.Some? && Truthful(c, old(fs.disk)) ==> card.value.Confirmed()
    ensures card.Some? && (fs.links || Truthful(c, old(fs.disk))) ==> card.value.Keepable()
    ensures fs.reliable && (fs.links || Truthful(c, old(fs.disk))) ==>
      (card.Some? <==> OpensTo(c, old(fs.disk)).Some?)
    ensures fs.reliable && card.Some? ==> OpensTo(c, old(fs.disk)) == Some(card.value.Contents())
    ensures card.Some? ==> Yields(c, old(fs.disk), card.value.Contents())
  {
    var m := PrepareDirectory(c, fs, k, from);
    if m.None? { return None; }
    card := StartCard(c, fs, m.value, k, from);
  }

  /** The directory is in order: opens the active image and takes in what the journal holds. */
  method StartCard(c: Config, fs: FileSystem, m: Metadata, ghost k: Promise, ghost from: nat)
    returns (card: Option<SaveCard>)
    requires Opening(c, k) && fs.Safe(k, from) && Settledown(c, fs.disk) && fs.disk.current == Some(m)
    requires k.sound ==> m.sha == c.hash(fs.disk.raw[Active].bytes)
    modifies fs
    ensures fs.Safe(k, from)
    ensures card.Some? ==> fresh(card.value) && card.value.fs == fs && card.value.c == c && card.value.Valid()
    ensures card.Some? ==> card.value.Intact() && card.value.dirty == map[] && fs.disk.journal == []
    ensures card.Some? ==> card.value.Contents() == k.x || card.value.Contents() == k.y
    ensures card.Some? && m.sha == c.hash(old(fs.disk).raw[Active].bytes) ==> card.value.Confirmed()
    ensures card.Some? && (fs.links || m.sha == c.hash(old(fs.disk).raw[Active].bytes)) ==> card.value.Keepable()
    ensures card.Some? ==>
      Settled(c, old(fs.disk).raw[Active].bytes, old(fs.disk.journal)) == Some(card.value.Contents())
    ensures card.Some? ==> Loads(c, old(fs.disk.journal))
    ensures fs.reliable && (fs.links || m.sha == c.hash(old(fs.disk).raw[Active].bytes)) ==>
      (card.Some? <==> Loads(c, old(fs.disk.journal)))
  {
    var ok := fs.Attempt();
    if !ok { return None; }
    var image := fs.disk.raw[Active].bytes;
    var started := new SaveCard(c, fs, image, m, |fs.disk.journal|);
    if started.journalBytes > 0 {
      ok := ReplayAndFlush(started, k, from);
      if !ok { return None; }
    } else {
      OpenedClean(started);
    }
    card := Some(started);
  }

  lemma OpenedClean(card: SaveCard)
    requires card.c.Valid() && !card.stranded && card.dirty == map[] && card.recs == [] && !card.blocked
    requires card.pendingBytes == card.journalBytes == 0 && card.fs.disk.journal == []
    requires card.file.Some? && card.Holds(card.file.value) && card.limbo == card.file.value
    ensures card.Valid() && card.Intact() && card.Contents() == card.file.value
    ensures Settled(card.c, card.file.value, []) == Some(card.file.value)
  {
    card.EmptyJournal(card.file.value);
    OverlayNothing(card.file.value);
  }

  /** A journal was left: take it into the dirty blocks, then checkpoint them at once. */
  method ReplayAndFlush(card: SaveCard, ghost k: Promise, ghost from: nat) returns (ok: bool)
    requires Opening(card.c, k) && card.fs.Safe(k, from) && card.Opened() && card.Holds(card.file.value)
    requires card.dirty == map[] && !card.blocked && !card.stranded
    requires card.journalBytes == |card.fs.disk.journal| > 0
    requires Base(card.fs.disk) == Some(card.file.value) && (k.sound ==> card.CurrentVouches())
    modifies card, card.fs
    ensures card.fs.Safe(k, from)
    ensures ok ==> card.Valid() && !card.blocked && card.dirty == map[] && card.fs.disk.journal == []
    ensures ok ==> card.Intact()
    ensures ok ==> card.Contents() == k.x || card.Contents() == k.y
    ensures ok ==> Settled(card.c, old(card.file.value), old(card.fs.disk.journal)) == Some(card.Contents())
    ensures ok ==> Loads(card.c, old(card.fs.disk.journal)) && card.Confirmed()
    ensures card.fs.reliable && old(card.Keepable()) ==> (ok <==> Loads(card.c, old(card.fs.disk.journal)))
  {
    ok := LoadJournal(card);
    if !ok { return; }
    card.recs, card.limbo := Decode(card.c, card.fs.disk.journal).value, card.Contents();
    LoadedConsistent(card, k);
    ok := card.FlushCard(k, from);
  }

  /** A card whose journal has just been loaded is consistent, whatever its dirty blocks number. */
  lemma LoadedConsistent(card: SaveCard, k: Promise)
    requires Opening(card.c, k) && Endures(k, card.fs.disk) && card.Opened() && card.Holds(card.file.value)
    requires !card.blocked && !card.stranded && Base(card.fs.disk) == Some(card.file.value)
    requires Loads(card.c, card.fs.disk.journal) && card.journalBytes == |card.fs.disk.journal| > 0
    requires Decode(card.c, card.fs.disk.journal) == Some(card.recs)
    requires card.Contents() == Replay(card.file.value, card.recs) == card.limbo
    requires card.pendingBytes == Payload(card.recs) && (card.recs != [] ==> card.dirty != map[])
    requires k.sound ==> card.CurrentVouches()
    ensures card.Consistent() && card.Fitting(k) && card.dirty != map[]
    ensures Settled(card.c, card.file.value, card.fs.disk.journal) == Some(card.Contents())
  {
    ParseOnto(card.c, card.fs.disk.journal);
    ReplayIdempotent(card.file.value, card.recs);
  }
}
