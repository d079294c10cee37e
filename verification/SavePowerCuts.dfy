/** What one power cut costs: the exact condition under which startup opens the card, and who fails it. */
module SavePowerCuts {
  import opened Basics
  import opened Bytes
  import opened SaveJournal
  import opened SaveDisk
  import opened SaveBlocks
  import opened SaveOverlay
  import opened SaveRecovery

  /** The durable state that a cut leaves: one since `from`, or the state before. */
  function AfterCut(history: seq<Disk>, before: Disk, from: nat, cut: nat): Disk {
    if from <= cut < |history| then history[cut] else before
  }

  /** Under a promise, a state that a cut leaves opens exactly as `SoundOpens` says. */
  lemma CutOpens(fs: FileSystem, k: Promise, before: Disk, from: nat, cut: nat)
    requires fs.Kept(k, from) && Endures(k, before) && Coherent(before) && k.sound
    ensures var d := AfterCut(fs.history, before, from, cut);
      && Coherent(d)
      && (OpensTo(k.c, d).Some? <==> Survives(k.c, d) && Loads(k.c, d.journal))
      && (OpensTo(k.c, d).Some? ==> OpensTo(k.c, d).value in {k.x, k.y})
      && (k.loads ==> Loads(k.c, d.journal))
      && (k.sure ==> (Survives(k.c, d) <==> Previous in d.raw || Staged(d) <= 1))
      && (k.sure && k.quiet ==> Survives(k.c, d))
  {
    SoundOpens(k, AfterCut(fs.history, before, from, cut));
  }

  /** Power comes back on storage that works: startup decides as the reference says. */
  method PowerBack(c: Config, d: Disk) returns (next: Option<SaveCard>)
    requires c.Valid() && Coherent(d)
    ensures next.Some? <==> OpensTo(c, d).Some?
    ensures next.Some? ==> next.value.Valid() && next.value.Intact() && OpensTo(c, d) == Some(next.value.Contents())
  {
    var fs := new FileSystem(d, true, true);
    ghost var lands := if Base(d).Some? then After(c, Base(d).value, d.journal) else [];
    next := OpenCard(c, fs, Promise(c, lands, lands, false, false, false, false, []), 0);
  }

  // ---- Checkpoints ----

  /**
   * Power fails at any step of a checkpoint, on storage where any call may fail. The card reopens,
   * as it was or as its journal has it, exactly when the journal loads and the previous card is
   * whole or, without one, at most one image is staged and the metadata knows the active image.
   * Where no call fails and hard links exist, staged leftovers are all that can be in the way of a
   * card whose journal loads, and the checkpoint takes place.
   */
  method CheckpointThenPowerCut(card: SaveCard, cut: nat) returns (d: Disk, next: Option<SaveCard>)
    requires card.Valid() && card.Told()
    modifies card, card.fs
    ensures d == AfterCut(card.fs.history, old(card.fs.disk), |old(card.fs.history)|, cut)
    ensures next.Some? <==> Survives(card.c, d) && Loads(card.c, d.journal)
    ensures old(Loads(card.c, card.fs.disk.journal)) ==> Loads(card.c, d.journal)
    ensures next.Some? ==> next.value.Valid() && next.value.Contents() in {old(card.Contents()), old(card.limbo)}
    ensures next.Some? && old(card.Intact()) ==> next.value.Contents() == old(card.Contents())
    ensures card.fs.reliable && card.fs.links && old(card.Confirmed()) && Loads(card.c, d.journal) ==>
      (next.Some? <==> Previous in d.raw || Staged(d) <= 1)
    ensures card.fs.reliable && card.fs.links && old(card.Confirmed()) && Quiet(old(card.fs.disk)) ==>
      (next.Some? <==> Loads(card.c, d.journal))
    ensures card.fs.reliable && old(card.Keepable()) ==>
      card.Valid() && card.dirty == map[] && card.Contents() == old(card.Contents())
    ensures card.fs.reliable && old(card.Keepable() && card.dirty != map[]) ==> card.Emptied()
  {
    var from, before := |card.fs.history|, card.fs.disk;
    ghost var k := card.Standing();
    card.StandingEndures();
    var _ := card.FlushCard(k, from);
    CutOpens(card.fs, k, before, from, cut);
    d := AfterCut(card.fs.history, before, from, cut);
    next := PowerBack(card.c, d);
  }

  /**
   * Without hard links even storage that never fails is not enough: every checkpoint succeeds, and
   * passes through a state that startup refuses. One such state is the beginning of the copy.
   */
  method CheckpointWithoutLinks(card: SaveCard) returns (at: nat, next: Option<SaveCard>)
    requires card.Valid() && card.Told() && card.dirty != map[] && card.fs.reliable && !card.fs.links
    modifies card, card.fs
    ensures card.Valid() && card.dirty == map[] && card.Contents() == old(card.Contents())
    ensures |old(card.fs.history)| <= at < |card.fs.history|
    ensures next.None? && (old(Loads(card.c, card.fs.disk.journal)) ==> !Survives(card.c, card.fs.history[at]))
  {
    var from := |card.fs.history|;
    ghost var k := card.Standing();
    card.StandingEndures();
    var _ := card.FlushCard(k, from);
    at :| from <= at < |card.fs.history| && OpensTo(card.c, card.fs.history[at]).None?;
    SoundOpens(k, card.fs.history[at]);
    next := PowerBack(card.c, card.fs.history[at]);
  }

  /**
   * The marker of the previous card cannot be removed once the new image is confirmed, so the
   * checkpoint is rolled back; power fails between the rollback's rename and its metadata write.
   * The old image is active beside metadata of the new one, and startup refuses it. The calls are
   * those of `FlushCard` up to the failing removal, which itself changes nothing, and its rollback.
   */
  method RollbackThenPowerCut(card: SaveCard) returns (gap: Disk, next: Option<SaveCard>)
    requires card.Valid() && card.Told() && card.Intact() && card.fs.reliable
    requires card.c.hash(card.Contents()) != card.c.hash(card.file.value)
    modifies card, card.fs
    ensures card.fs.Passed(gap, |old(card.fs.history)|)
    ensures Active in gap.raw && gap.raw[Active].bytes == old(card.file.value) && gap.current.Some?
    ensures gap.current.value.sha == card.c.hash(old(card.Contents())) && Loads(card.c, gap.journal)
    ensures Previous !in gap.raw && next.None?
  {
    ghost var k, from := card.Standing().(sure := false), |card.fs.history|;
    card.StandingEndures();
    card.LoadsWithinLimits();
    StageAndKeep(card, k, from);
    gap := RollBackFrom(card, k, from);
    next := PowerBack(card.c, gap);
  }

  /** The new image is confirmed, and then everything is rolled back, by way of the gap. */
  method RollBackFrom(card: SaveCard, ghost k: Promise, ghost from: nat) returns (gap: Disk)
    requires Kept(card, k) && card.fs.Safe(k, from)
    requires card.c.hash(card.fs.disk.raw[Checkpoint].bytes) != card.c.hash(card.file.value)
    modifies card, card.fs
    ensures card.fs.Passed(gap, from) && Coherent(gap) && Previous !in gap.raw && OpensTo(card.c, gap).None?
    ensures Active in gap.raw && gap.raw[Active].bytes == old(card.file.value) && gap.current.Some?
    ensures gap.current.value.sha == card.c.hash(old(card.fs.disk).raw[Checkpoint].bytes)
    ensures gap.journal == old(card.fs.disk).journal
  {
    var was, before := card.file.value, card.metadata;
    ConfirmNew(card, k, from);
    gap := Renamed(card.fs.disk, Previous, Active);
    var _ := card.RestorePrevious(before, was, k, from);
  }

  /** A checkpoint is staged, and the card kept under its second name beside its marker. */
  ghost predicate Kept(card: SaveCard, k: Promise)
    reads card, card.fs
  {
    && card.c.Valid() && card.file.Some? && card.Holds(card.file.value) && card.CurrentVouches()
    && card.Settling(k, card.file.value) && k.sound && !k.sure && card.fs.reliable
    && Previous in card.fs.disk.raw && card.fs.disk.raw[Previous].bytes == card.file.value
    && card.fs.disk.previous == Some(card.metadata) && Checkpoint in card.fs.disk.raw
    && card.fs.disk.raw[Checkpoint].tag != card.fs.disk.raw[Active].tag
    && card.fs.disk.raw[Checkpoint].tag != card.fs.disk.raw[Previous].tag
    && |card.fs.disk.raw[Checkpoint].bytes| == card.c.cardSize
  }

  method StageAndKeep(card: SaveCard, ghost k: Promise, ghost from: nat)
    requires card.Valid() && card.Fitting(k) && card.fs.Safe(k, from) && k.sound && !k.sure && card.fs.reliable
    modifies card.fs
    ensures card.fs.Safe(k, from) && Kept(card, k) && card.fs.disk.journal == old(card.fs.disk).journal
    ensures card.fs.disk.raw[Checkpoint].bytes == old(card.Contents())
  {
    var _ := card.StageCheckpoint(k, from);
    var _ := card.PreparePrevious(Checkpoint, k, from);
  }

  /** The new image is active and confirmed; the previous card is still there, with its marker. */
  method ConfirmNew(card: SaveCard, ghost k: Promise, ghost from: nat)
    requires Kept(card, k) && card.fs.Safe(k, from)
    modifies card, card.fs
    ensures card.fs.Safe(k, from) && card.Settling(k, old(card.file.value))
    ensures Active in card.fs.disk.raw && card.fs.disk.raw[Active] == old(card.fs.disk).raw[Checkpoint]
    ensures Previous in card.fs.disk.raw && card.fs.disk.raw[Previous] == old(card.fs.disk).raw[Previous]
    ensures card.fs.disk.raw[Previous].tag != card.fs.disk.raw[Active].tag
    ensures card.fs.disk.current.Some? && card.fs.disk.current.value.tag == card.fs.disk.raw[Active].tag
    ensures card.fs.disk.current.value.sha == card.c.hash(card.fs.disk.raw[Active].bytes)
    ensures card.fs.disk.journal == old(card.fs.disk).journal
  {
    var image := card.fs.disk.raw[Checkpoint].bytes;
    var _ := card.RenameStage(Checkpoint, image, k, from);
    card.file := Some(image);
    card.metadata := card.metadata.(sha := card.c.hash(image), tag := card.fs.disk.raw[Active].tag);
    EnduresPrevious(k, card.fs.disk.(current := Some(card.metadata)));
    var _ := card.fs.Confirm(card.metadata, k, from);
  }

  /**
   * Startup rolls back too. Cut off right after its rename, the next startup succeeds, on a journal
   * that loads, exactly when the rename moved nothing, since both names were links to one file, or
   * when at most one image is staged and the metadata knows the old image; it then yields what the
   * rollback would have.
   */
  lemma RollbackGap(c: Config, d: Disk)
    requires c.Valid() && Sound(c, d) && PreviousWhole(c, d)
    ensures var gap, prev := Renamed(d, Previous, Active), d.raw[Previous];
      && (OpensTo(c, gap).Some? <==>
        && Loads(c, d.journal)
        && (|| prev.tag == d.raw[Active].tag
            || (Staged(d) <= 1 && (d.current.value.tag == prev.tag || c.hash(prev.bytes) == d.current.value.sha))))
      && (OpensTo(c, gap).Some? ==> OpensTo(c, gap) == OpensTo(c, d) == Settled(c, prev.bytes, d.journal))
  {
    var gap := Renamed(d, Previous, Active);
    SoundRenamed(c, d);
    assert Staged(gap) == Staged(d);
  }

  /** Startup opens this disk under the condition of a sound one, and to what the first one leads to. */
  ghost predicate OpensAs(c: Config, was: Disk, d: Disk) {
    && Sound(c, d) && Base(was).Some?
    && (OpensTo(c, d).Some? <==> Survives(c, d) && Loads(c, d.journal))
    && (OpensTo(c, d).Some? ==> OpensTo(c, d).value == After(c, Base(was).value, was.journal))
    && (Loads(c, was.journal) ==> Loads(c, d.journal))
  }

  /**
   * Cut off at any step, on storage where any call may fail, the rollback of a sound disk leaves one
   * that opens under the same condition and to the same card. Where no call fails, it succeeds.
   */
  method InterruptedRollback(c: Config, fs: FileSystem) returns (ok: bool)
    requires c.Valid() && Coherent(fs.disk) && Sound(c, fs.disk)
    modifies fs
    ensures Extends(old(fs.history), fs.history)
    ensures forall i :: |old(fs.history)| <= i < |fs.history| ==> OpensAs(c, old(fs.disk), fs.history[i])
    ensures ok && Previous in old(fs.disk).raw ==> RolledBack(c, old(fs.disk), fs.disk)
    ensures ok && Previous in old(fs.disk).raw ==>
      fs.Passed(Renamed(old(fs.disk), Previous, Active), |old(fs.history)|)
    ensures fs.reliable ==> (ok <==> Previous !in old(fs.disk).raw || PreviousWhole(c, old(fs.disk)))
  {
    ghost var was, from := fs.disk, |fs.history|;
    ghost var image := After(c, Base(was).value, was.journal);
    ghost var k := Promise(c, image, image, true, Loads(c, was.journal), false, false, fs.history);
    ok := RecoverInterruptedActivation(c, fs, k, from);
    forall i | from <= i < |fs.history| ensures OpensAs(c, was, fs.history[i]) {
      SoundOpens(k, fs.history[i]);
    }
  }

  // ---- Writes ----

  /** A journal that stops inside a record is refused. */
  lemma TornNeverLoads(c: Config, journal: seq<byte>, r: Record)
    requires c.Valid() && Fits(c.cardSize, r) && CutInside(c, journal, r)
    ensures !Loads(c, journal)
  {
    var k :| 0 < k < |Encode(c, r)| && EndsWith(journal, Encode(c, r)[..k]) && Loads(c, journal[..|journal| - k]);
    Rejoined(journal, Encode(c, r)[..k]);
    TornBehind(c, journal[..|journal| - k], r, k);
  }

  lemma Rejoined(s: seq<byte>, tail: seq<byte>)
    requires EndsWith(s, tail)
    ensures s == s[..|s| - |tail|] + tail
  {
    assert s == s[..|s| - |tail|] + s[|s| - |tail|..];
  }

  lemma TornBehind(c: Config, front: seq<byte>, r: Record, k: nat)
    requires c.Valid() && Fits(c.cardSize, r) && 0 < k < |Encode(c, r)| && Loads(c, front)
    ensures Decode(c, front + Encode(c, r)[..k]) == None
  {
    var rs := Decode(c, front).value;
    ParseOnto(c, front);
    Capacities();
    TornJournalRejected(c, rs, r, k);
  }

  /** A journal that loads or stops inside `r` does not load exactly when it stops there. */
  lemma LoadsUnlessTorn(c: Config, journal: seq<byte>, r: Record)
    requires c.Valid() && Fits(c.cardSize, r)
    requires Loads(c, journal) || CutInside(c, journal, r)
    ensures Loads(c, journal) <==> !CutInside(c, journal, r)
  {
    if CutInside(c, journal, r) {
      TornNeverLoads(c, journal, r);
    }
  }

  /** What a cut during a write leaves: the state before it, or one that the write passed through. */
  lemma CutNoted(card: SaveCard, k: Promise, r: Record, cards: set<seq<byte>>, before: Disk, from: nat, cut: nat)
    requires card.c.Valid() && k.c == card.c && card.Logged(r, from, k, cards)
    requires Endures(k, before) && Coherent(before) && k.x in cards && k.y in cards
    ensures Noted(k, r, cards, AfterCut(card.fs.history, before, from, cut))
  {
  }

  /** A sound state of a write opens exactly when it survives and its journal loads. */
  lemma NotedOpens(k: Promise, r: Record, cards: set<seq<byte>>, d: Disk)
    requires k.c.Valid() && Fits(k.c.cardSize, r) && Noted(k, r, cards, d) && k.sound
    ensures OpensTo(k.c, d).Some? <==> Survives(k.c, d) && Loads(k.c, d.journal)
    ensures OpensTo(k.c, d).Some? ==> OpensTo(k.c, d).value in cards
    ensures k.loads ==> (Loads(k.c, d.journal) <==> !CutInside(k.c, d.journal, r))
  {
    SoundOpens(k.(loads := false), d);
    if k.loads {
      LoadsUnlessTorn(k.c, d.journal, r);
    }
  }

  /**
   * Power fails at any step of a write, its automatic checkpoints included, on storage where any call
   * may fail. The card reopens exactly when the journal loads and the condition of a checkpoint
   * holds, with the write done or not. As long as every record in the journal is counted, only one
   * that stops inside the new record does not load. Where no call fails, the write is done.
   */
  method WriteThenPowerCut(card: SaveCard, data: seq<byte>, offset: nat, cut: nat)
    returns (r: WriteResult, d: Disk, next: Option<SaveCard>)
    requires card.Valid() && card.Told() && !card.blocked
    requires 0 < |data| && offset + |data| <= card.c.cardSize
    modifies card, card.fs
    ensures d == AfterCut(card.fs.history, old(card.fs.disk), |old(card.fs.history)|, cut)
    ensures next.Some? <==> Survives(card.c, d) && Loads(card.c, d.journal)
    ensures old(card.Counted()) ==>
      (Loads(card.c, d.journal) <==> !CutInside(card.c, d.journal, Record(offset, data)))
    ensures next.Some? ==> next.value.Valid() && next.value.Contents() in old(card.Outcomes(offset, data))
    ensures next.Some? && old(card.Intact()) ==>
      next.value.Contents() in {old(card.Contents()), Patch(old(card.Contents()), offset, data)}
    ensures r.Wrote? ==> card.Valid() && card.Contents() == Patch(old(card.Contents()), offset, data)
    ensures card.fs.reliable && old(card.Keepable()) && WithinLimits(card.c, offset, |data|) ==> r.Wrote?
  {
    ghost var cards := card.Outcomes(offset, data);
    if card.Intact() {
      card.IntactOutcomes(offset, data);
    }
    r, d := WriteCutShort(card, data, offset, cut);
    next := PowerBackAmong(card.c, d, cards);
  }

  /** Power comes back on a disk that opens to one of these cards. */
  method PowerBackAmong(c: Config, d: Disk, ghost cards: set<seq<byte>>) returns (next: Option<SaveCard>)
    requires c.Valid() && Coherent(d) && (OpensTo(c, d).Some? ==> OpensTo(c, d).value in cards)
    ensures next.Some? <==> OpensTo(c, d).Some?
    ensures next.Some? ==> next.value.Valid() && next.value.Contents() in cards
  {
    next := PowerBack(c, d);
  }

  /** The write, up to the state at which the power fails. */
  method WriteCutShort(card: SaveCard, data: seq<byte>, offset: nat, cut: nat) returns (r: WriteResult, d: Disk)
    requires card.Valid() && card.Told() && !card.blocked
    requires 0 < |data| && offset + |data| <= card.c.cardSize
    modifies card, card.fs
    ensures d == AfterCut(card.fs.history, old(card.fs.disk), |old(card.fs.history)|, cut) && Coherent(d)
    ensures OpensTo(card.c, d).Some? <==> Survives(card.c, d) && Loads(card.c, d.journal)
    ensures old(card.Counted()) ==>
      (Loads(card.c, d.journal) <==> !CutInside(card.c, d.journal, Record(offset, data)))
    ensures OpensTo(card.c, d).Some? ==> OpensTo(card.c, d).value in old(card.Outcomes(offset, data))
    ensures r.Wrote? ==> card.Valid() && card.Contents() == Patch(old(card.Contents()), offset, data)
    ensures card.fs.reliable && old(card.Keepable()) && WithinLimits(card.c, offset, |data|) ==> r.Wrote?
  {
    var from, before := |card.fs.history|, card.fs.disk;
    ghost var k, record := card.Standing().(loads := card.Counted()), Record(offset, data);
    ghost var cards := card.Outcomes(offset, data);
    card.WritingEndures();
    r := card.WriteSaveAt(data, offset);
    CutNoted(card, k, record, cards, before, from, cut);
    d := AfterCut(card.fs.history, before, from, cut);
    NotedOpens(k, record, cards, d);
  }

  // ---- Restores ----

  /**
   * Power fails at any step of a restore, on storage where any call may fail: the card reopens with
   * its old contents, with what its journal had made of them, or with what a restart makes of the
   * chosen image, under the same exact condition as after a checkpoint. An intact card reopens with
   * its old contents or the chosen ones. Where no call fails and the safety backup can be taken, the
   * restore is done.
   */
  method RestoreThenPowerCut(card: SaveCard, name: nat, stamp: nat, cut: nat)
    returns (ok: bool, d: Disk, next: Option<SaveCard>)
    requires card.Valid() && card.Told() && card.BackupSound(card.fs.disk, name)
    modifies card, card.fs
    ensures d == AfterCut(card.fs.history, old(card.fs.disk), |old(card.fs.history)|, cut)
    ensures next.Some? <==> Survives(card.c, d) && Loads(card.c, d.journal)
    ensures old(Loads(card.c, card.fs.disk.journal)) ==> Loads(card.c, d.journal)
    ensures next.Some? ==> next.value.Valid()
    ensures next.Some? ==>
      next.value.Contents() in {old(card.Contents()), old(card.limbo), old(card.Restored(card.fs.disk.backupRaw[name]))}
    ensures next.Some? && old(card.Intact()) ==>
      next.value.Contents() in {old(card.Contents()), old(card.fs.disk.backupRaw)[name]}
    ensures ok ==> card.Valid() && card.Contents() == old(card.fs.disk.backupRaw)[name]
    ensures card.fs.reliable && old(card.Replaceable()) ==> ok
  {
    ghost var chosen := card.fs.disk.backupRaw[name];
    if card.Intact() {
      card.IntactRestored(chosen);
    }
    ok, d := RestoreCutShort(card, name, stamp, cut);
    next := PowerBack(card.c, d);
  }

  /** The restore, up to the state at which the power fails. */
  method RestoreCutShort(card: SaveCard, name: nat, stamp: nat, cut: nat) returns (ok: bool, d: Disk)
    requires card.Valid() && card.Told() && card.BackupSound(card.fs.disk, name)
    modifies card, card.fs
    ensures d == AfterCut(card.fs.history, old(card.fs.disk), |old(card.fs.history)|, cut) && Coherent(d)
    ensures OpensTo(card.c, d).Some? <==> Survives(card.c, d) && Loads(card.c, d.journal)
    ensures old(Loads(card.c, card.fs.disk.journal)) ==> Loads(card.c, d.journal)
    ensures OpensTo(card.c, d).Some? ==>
      OpensTo(card.c, d).value
        in {old(card.Contents()), old(card.limbo), old(card.Restored(card.fs.disk.backupRaw[name]))}
    ensures ok ==> card.Valid() && card.Contents() == old(card.fs.disk.backupRaw)[name]
    ensures card.fs.reliable && old(card.Replaceable()) ==> ok
  {
    var from, before := |card.fs.history|, card.fs.disk;
    ghost var k, chosen := card.Standing().(quiet := false), card.fs.disk.backupRaw[name];
    ghost var cards := {card.Contents(), card.limbo, card.Restored(chosen)};
    card.StandingEndures();
    ok := card.Restore(name, stamp);
    CutLanded(card, k, cards, before, from, cut);
    d := AfterCut(card.fs.history, before, from, cut);
  }

  /** What a cut during an exchange leaves opens as a sound disk does, to one of the cards. */
  lemma CutLanded(card: SaveCard, k: Promise, cards: set<seq<byte>>, before: Disk, from: nat, cut: nat)
    requires card.LandedAmong(k, from, cards) && k.sound
    requires Endures(k, before) && Coherent(before) && k.x in cards && k.y in cards
    ensures var d := AfterCut(card.fs.history, before, from, cut);
      && Coherent(d)
      && (OpensTo(k.c, d).Some? <==> Survives(k.c, d) && Loads(k.c, d.journal))
      && (OpensTo(k.c, d).Some? ==> OpensTo(k.c, d).value in cards)
      && (k.loads ==> Loads(k.c, d.journal))
  {
    SoundOpens(k, AfterCut(card.fs.history, before, from, cut));
  }

  /**
   * A restore stages the selected backup and then its copy. Without a previous card to decide,
   * startup refuses two staged images: every restore that succeeds passes through such a state.
   * Where hard links exist that is the only reason; without them the copy of the card is another.
   */
  method RestorePassesConflict(card: SaveCard, name: nat, stamp: nat) returns (at: nat, next: Option<SaveCard>)
    requires card.Valid() && card.Told() && card.BackupSound(card.fs.disk, name)
    requires card.fs.reliable && card.Replaceable() && Previous !in card.fs.disk.raw
    modifies card, card.fs
    ensures card.Valid() && card.Contents() == old(card.fs.disk.backupRaw)[name]
    ensures |old(card.fs.history)| <= at < |card.fs.history|
    ensures next.None?
    ensures old(Loads(card.c, card.fs.disk.journal)) ==> !Survives(card.c, card.fs.history[at])
    ensures card.fs.links && old(Loads(card.c, card.fs.disk.journal)) ==>
      Previous !in card.fs.history[at].raw && Staged(card.fs.history[at]) > 1
  {
    var from := |card.fs.history|;
    ghost var k := card.Standing().(quiet := false);
    var _ := card.Restore(name, stamp);
    at :| from <= at < |card.fs.history| && OpensTo(card.c, card.fs.history[at]).None?;
    next := PowerBack(card.c, card.fs.history[at]);
    SoundOpens(k, card.fs.history[at]);
  }

  /**
   * A restore can be undone. It backs the card up before replacing it, and under the newest stamp this
   * backup outlives the pruning and is sound: restoring it brings the replaced card back. On storage
   * that works, a card whose image and backups are described can always go there and back.
   */
  method RestoreAndUndo(card: SaveCard, name: nat, stamp: nat, later: nat) returns (ok: bool, undone: bool)
    requires card.Valid() && card.BackupSound(card.fs.disk, name)
    requires forall n :: n in card.fs.disk.backupRaw ==> n <= stamp
    modifies card, card.fs
    ensures ok && undone ==> card.Valid() && card.Contents() == old(card.Contents())
    ensures card.fs.reliable && old(card.Replaceable()) && Quiet(old(card.fs.disk)) ==> ok && undone
  {
    ghost var was, contents := card.fs.disk, card.Contents();
    undone := false;
    ok := card.Restore(name, stamp);
    if !ok { return; }
    card.NewestBackupSound(was, card.fs.disk, stamp, contents);
    if card.fs.reliable && was.backupRaw.Keys <= was.backupMeta.Keys && Quiet(was) {
      AllDescribed(card.c, was, card.fs.disk, stamp, contents);
    }
    undone := card.Restore(stamp, later);
  }

  /** If every backup has a description, so has every one that is kept. */
  lemma AllDescribed(c: Config, was: Disk, now: Disk, stamp: nat, image: seq<byte>)
    requires BackedUp(c, was.backupRaw, was.backupMeta, now.backupRaw, now.backupMeta, stamp, image)
    requires was.backupRaw.Keys <= was.backupMeta.Keys
    ensures now.backupRaw.Keys <= now.backupMeta.Keys
  {
    forall n | n in now.backupRaw ensures n in now.backupMeta {
      assert n in was.backupRaw[stamp := image];
    }
  }

  // ---- Failed writes whose record is in the journal ----

  /** An intact card can take this record, and storage never fails but in the call singled out. */
  ghost predicate Ready(card: SaveCard, r: Record)
    reads card, card.fs
  {
    && card.Valid() && card.Intact() && card.HasRoom(r) && card.fs.reliable
    && card.Replaceable() && Quiet(card.fs.disk) && Previous !in card.fs.disk.raw
  }

  /** A write has failed, but its record is in the journal: a restart would find it. */
  twostate predicate LeftBehind(card: SaveCard, r: Record)
    requires Fits(card.c.cardSize, r)
    reads card, card.fs
  {
    && old(card.Opened()) && card.Valid() && card.fs.reliable && card.Replaceable() && Quiet(card.fs.disk)
    && card.dirty == old(card.dirty) && card.file == old(card.file) && card.metadata == old(card.metadata)
    && card.pendingBytes == old(card.pendingBytes) && card.journalBytes == old(card.journalBytes)
    && card.fs.disk == old(card.fs.disk).(journal := old(card.fs.disk.journal) + Encode(card.c, r))
    && card.limbo == Patch(old(card.Contents()), r.offset, r.data) && Loads(card.c, card.fs.disk.journal)
    && Settled(card.c, card.file.value, card.fs.disk.journal) == Some(card.limbo)
  }

  /**
   * Two ways to fail. The append of `r` reaches the disk whole and its sync reports a failure: the
   * card is blocked. Or the append succeeds and the first base block that the write needs cannot be
   * read: the card is not blocked, and its counters know nothing of the record.
   */
  method WriteFails(card: SaveCard, r: Record, synced: bool)
    requires Ready(card, r)
    modifies card, card.fs
    ensures LeftBehind(card, r) && card.blocked == !synced
    ensures synced ==> card.recs == old(card.recs) + [r]
  {
    if synced {
      BaseReadFails(card, r);
    } else {
      SyncFails(card, r);
    }
  }

  method SyncFails(card: SaveCard, r: Record)
    requires Ready(card, r)
    modifies card, card.fs
    ensures LeftBehind(card, r) && card.blocked
  {
    WholeRecordSettles(card, r);
    card.WritingEndures();
    ghost var k := card.Standing().(loads := card.Counted());
    var _ := card.AppendRecord(r, |card.fs.history|, k, card.Outcomes(r.offset, r.data));
    card.Block(r);
  }

  method BaseReadFails(card: SaveCard, r: Record)
    requires Ready(card, r)
    modifies card, card.fs
    ensures LeftBehind(card, r) && !card.blocked && card.recs == old(card.recs) + [r]
  {
    WholeRecordSettles(card, r);
    card.WritingEndures();
    ghost var k := card.Standing().(loads := card.Counted());
    var _ := card.LogRecord(r, |card.fs.history|, k, card.Outcomes(r.offset, r.data));
  }

  /** With the whole record in the journal, a restart yields the card with the record applied. */
  lemma WholeRecordSettles(card: SaveCard, r: Record)
    requires Ready(card, r)
    ensures var journal := card.fs.disk.journal + Encode(card.c, r);
      && Loads(card.c, journal)
      && Settled(card.c, card.file.value, journal) == Some(Patch(card.Contents(), r.offset, r.data))
  {
    EncodeSnoc(card.c, card.recs, r);
    WholeJournalAccepted(card.c, card.recs + [r]);
    ReplaySnoc(card.file.value, card.recs, r);
  }

  /**
   * Such a record outlives a restore that finds nothing dirty, on a card that is blocked or not: the
   * restore reports success and the next startup lays the record over the restored image.
   */
  method FailedWriteOutlivesRestore(card: SaveCard, r: Record, synced: bool, name: nat, stamp: nat)
    returns (next: Option<SaveCard>)
    requires Ready(card, r) && card.dirty == map[] && card.BackupSound(card.fs.disk, name)
    modifies card, card.fs
    ensures card.Valid() && card.Contents() == old(card.fs.disk.backupRaw)[name]
    ensures next.Some? && next.value.Valid()
    ensures next.value.Contents() == Patch(old(card.fs.disk.backupRaw)[name], r.offset, r.data)
  {
    ghost var chosen := card.fs.disk.backupRaw[name];
    JournalOf(card, r);
    WriteFails(card, r, synced);
    SingleRecord(card.c, chosen, r);
    next := RestoreThenReopen(card, name, stamp, Patch(chosen, r.offset, r.data));
  }

  /**
   * The record that no counter knows makes room for one write too many: that write is acknowledged,
   * although the two together exceed a limit, and the next startup refuses the card.
   */
  method AcknowledgedThenRefused(card: SaveCard, r: Record, w: Record) returns (next: Option<SaveCard>)
    requires Ready(card, r) && card.dirty == map[]
    requires Fits(card.c.cardSize, w) && WithinLimits(card.c, w.offset, |w.data|)
    requires |Encode(card.c, r)| + |Encode(card.c, w)| > card.c.maxJournalBytes
      || |r.data| + |w.data| > card.c.maxPendingBytes
    modifies card, card.fs
    ensures card.Valid() && card.Contents() == Patch(old(card.Contents()), w.offset, w.data)
    ensures next.None?
  {
    JournalOf(card, r);
    BaseReadFails(card, r);
    card.RoomWhenClean(w);
    assert Payload([] + [r]) == |r.data| by { EncodeSnoc(card.c, [], r); }
    var _ := card.WriteSaveAt(w.data, w.offset);
    next := PowerBack(card.c, card.fs.disk);
  }

  /**
   * A write longer than a block fails after the first block: the part of it that was taken in shows
   * until the card is opened again, and then all of it does.
   */
  method PrefixThenWhole(card: SaveCard, r: Record) returns (done: nat, next: Option<SaveCard>)
    requires Ready(card, r) && card.Confirmed() && |r.data| > SAVE_BLOCK_SIZE
    modifies card, card.fs
    ensures card.Valid() && !card.blocked && 0 < done < |r.data|
    ensures card.Contents() == Patch(old(card.Contents()), r.offset, r.data[..done])
    ensures next.Some? && next.value.Valid()
    ensures next.value.Contents() == Patch(old(card.Contents()), r.offset, r.data)
  {
    BaseReadFails(card, r);
    QuietOpens(card, card.fs.disk, card.file.value, card.limbo);
    done := card.TakeInFirst(r);
    next := PowerBack(card.c, card.fs.disk);
  }

  lemma JournalOf(card: SaveCard, r: Record)
    requires Ready(card, r) && card.dirty == map[]
    ensures card.fs.disk.journal + Encode(card.c, r) == Encode(card.c, r) && card.recs == []
  {
    card.CleanJournal();
    card.NothingRecorded();
    assert [] + Encode(card.c, r) == Encode(card.c, r);
  }

  /** Restores a backup on a card with nothing dirty, loses power after that and opens the card again. */
  method RestoreThenReopen(card: SaveCard, name: nat, stamp: nat, ghost opens: seq<byte>)
    returns (next: Option<SaveCard>)
    requires card.Valid() && card.dirty == map[] && card.fs.reliable && card.Replaceable()
    requires Quiet(card.fs.disk) && card.BackupSound(card.fs.disk, name) && Loads(card.c, card.fs.disk.journal)
    requires Settled(card.c, card.fs.disk.backupRaw[name], card.fs.disk.journal) == Some(opens)
    modifies card, card.fs
    ensures card.Valid() && card.Contents() == old(card.fs.disk.backupRaw)[name]
    ensures next.Some? && next.value.Valid() && next.value.Contents() == opens
  {
    ghost var chosen := card.fs.disk.backupRaw[name];
    var _ := card.Restore(name, stamp);
    var d := card.fs.disk;
    QuietOpens(card, d, chosen, opens);
    next := PowerBack(card.c, d);
  }

  /** A quiet directory whose metadata vouches for the base opens to what the journal makes of it. */
  lemma QuietOpens(card: SaveCard, d: Disk, base: seq<byte>, opens: seq<byte>)
    requires d == card.fs.disk && card.Confirmed() && Quiet(d) && Base(d) == Some(base)
    requires Loads(card.c, d.journal) && Settled(card.c, base, d.journal) == Some(opens)
    ensures OpensTo(card.c, d) == Some(opens)
  {
  }

  /** With dirty blocks too, a power cut while they are flushed for the restore yields the record. */
  method FlushOpensToFailedWrite(card: SaveCard, r: Record, synced: bool, chosen: seq<byte>)
    returns (next: Option<SaveCard>)
    requires Ready(card, r)
    modifies card, card.fs
    ensures next.Some? && next.value.Valid()
    ensures next.value.Contents() == Patch(old(card.Contents()), r.offset, r.data)
  {
    WriteFails(card, r, synced);
    ghost var k, from, base := card.Standing().(quiet := false), |card.fs.history|, card.file.value;
    KeepWhileStaged(card, chosen, k, from);
    PreviousOpens(card.c, card.fs.disk, base, card.limbo);
    next := PowerBack(card.c, card.fs.disk);
  }

  /** The first half of the flush that a restore begins with. */
  method KeepWhileStaged(card: SaveCard, chosen: seq<byte>, ghost k: Promise, ghost from: nat)
    requires card.Valid() && card.fs.reliable && card.Trusted() && from == |card.fs.history|
    requires k == card.Standing().(quiet := false)
    modifies card.fs
    ensures card.fs.Safe(k, from) && card.fs.disk.journal == old(card.fs.disk).journal
    ensures Previous in card.fs.disk.raw && card.fs.disk.raw[Previous].bytes == card.file.value
    ensures PreviousDecides(card.c, card.fs.disk)
  {
    card.StandingEndures();
    var _ := card.StageChosen(chosen, k, from);
    var _ := card.StageCheckpoint(k, from);
    var _ := card.PreparePrevious(Checkpoint, k, from);
  }

  lemma PreviousOpens(c: Config, d: Disk, base: seq<byte>, opens: seq<byte>)
    requires PreviousDecides(c, d) && d.raw[Previous].bytes == base
    requires Loads(c, d.journal) && Settled(c, base, d.journal) == Some(opens)
    ensures OpensTo(c, d) == Some(opens)
  {
  }

  lemma SingleRecord(c: Config, image: seq<byte>, r: Record)
    requires c.Valid() && |image| == c.cardSize && Fits(c.cardSize, r) && |r.data| <= c.maxPendingBytes
    ensures Settled(c, image, Encode(c, r)) == Some(Patch(image, r.offset, r.data))
  {
    var nothing: seq<Record> := [];
    EncodeSnoc(c, nothing, r);
    assert [] + Encode(c, r) == Encode(c, r);
    WholeJournalAccepted(c, nothing + [r]);
    ReplaySnoc(image, nothing, r);
  }
}
