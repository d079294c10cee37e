/** The files of one memory-card directory, changed by atomic, ordered, durable steps. */
module SaveDisk {
  import opened Basics
  import opened Bytes
  import opened SaveJournal

  /** The raw card images a card directory can hold. */
  datatype RawName = Active | Previous | Checkpoint | RestoreStage | Selected | UploadStage

  /** A raw file and the identity (inode and modification time) its directory entry names. */
  datatype Raw = Raw(bytes: seq<byte>, tag: int)

  datatype Metadata = Metadata(owner: string, cardSize: nat, sha: seq<byte>, tag: int)

  datatype BackupMeta = BackupMeta(owner: string, cardSize: nat, sha: seq<byte>)

  /** One durable state. Backups are keyed by the rank of their name in name order. */
  datatype Disk = Disk(
    raw: map<RawName, Raw>,
    current: Option<Metadata>,
    previous: Option<Metadata>,
    journal: seq<byte>,
    backupRaw: map<nat, seq<byte>>,
    backupMeta: map<nat, BackupMeta>)

  /** Names that share an identity are hard links to one file. */
  ghost predicate Coherent(d: Disk) {
    forall m, n :: m in d.raw && n in d.raw && d.raw[m].tag == d.raw[n].tag ==> d.raw[m] == d.raw[n]
  }

  /** POSIX rename; renaming one link of a file onto another link of it does nothing. */
  function Renamed(d: Disk, from: RawName, to: RawName): Disk
    requires from in d.raw
  {
    if to in d.raw && d.raw[from].tag == d.raw[to].tag then d
    else d.(raw := (d.raw - {from})[to := d.raw[from]])
  }

  function Removed(d: Disk, name: RawName): Disk {
    d.(raw := d.raw - {name})
  }

  function Written(d: Disk, name: RawName, raw: Raw): Disk {
    d.(raw := d.raw[name := raw])
  }

  /** Number of staged images that startup sees when nothing was rolled back. */
  function Staged(d: Disk): nat {
    (if Checkpoint in d.raw then 1 else 0) + (if RestoreStage in d.raw then 1 else 0)
    + (if Selected in d.raw then 1 else 0) + (if UploadStage in d.raw then 1 else 0)
  }

  /** The image the journal belongs to: the confirmed previous card while one exists. */
  function Base(d: Disk): Option<seq<byte>> {
    if Previous in d.raw then Some(d.raw[Previous].bytes)
    else if Active in d.raw then Some(d.raw[Active].bytes)
    else None
  }

  /** The card a journal yields over a base, or None when startup must refuse them. */
  function Settled(c: Config, base: seq<byte>, journal: seq<byte>): (r: Option<seq<byte>>)
    ensures r.Some? ==> |r.value| == |base| == c.cardSize
  {
    if |base| != c.cardSize then None
    else match Decode(c, journal)
      case None => None
      case Some(rs) => Some(Replay(base, rs))
  }

  /** What a restart makes of an image beside this journal, if it accepts the two. */
  function After(c: Config, image: seq<byte>, journal: seq<byte>): seq<byte> {
    var s := Settled(c, image, journal);
    if s.Some? then s.value else image
  }

  /** Every startup that accepts this base and journal yields `x` or `y`. */
  ghost predicate Settles(c: Config, base: seq<byte>, journal: seq<byte>, x: seq<byte>, y: seq<byte>) {
    var s := Settled(c, base, journal);
    s.Some? ==> s.value == x || s.value == y
  }

  /** Whatever startup does with this disk, a card that opens holds `x` or `y`. */
  ghost predicate Lands(c: Config, d: Disk, x: seq<byte>, y: seq<byte>) {
    Base(d).Some? ==> Settles(c, Base(d).value, d.journal, x, y)
  }

  /** Whatever startup does with this disk, a card that opens is one of these. */
  ghost predicate LandsAmong(c: Config, d: Disk, cards: set<seq<byte>>) {
    Base(d).Some? ==>
      var s := Settled(c, Base(d).value, d.journal);
      s.Some? ==> s.value in cards
  }

  /** The active image after rollback and validation, or None when either refuses. */
  function Recovered(c: Config, d: Disk): Option<Raw> {
    if Previous in d.raw then
      var p := d.raw[Previous];
      if |p.bytes| != c.cardSize then None
      else if d.previous.Some? then
        var m := d.previous.value;
        if m.owner == c.owner && m.cardSize == c.cardSize && (|m.sha| == 32 ==> c.hash(p.bytes) == m.sha)
        then Some(p) else None
      else if d.current.Some? then Some(p)
      else None
    else if Active in d.raw && d.current.Some? && Matches(c, d.raw[Active], d.current.value) then Some(d.raw[Active])
    else None
  }

  /** `validateCardFiles`: a known identity is trusted, any other needs a matching checksum. */
  predicate Matches(c: Config, a: Raw, m: Metadata) {
    && |a.bytes| == c.cardSize && m.owner == c.owner && m.cardSize == c.cardSize && |m.sha| == 32
    && (m.tag == a.tag || c.hash(a.bytes) == m.sha)
  }

  /** The card that a fault-free startup opens from this disk, or None when it refuses. */
  function OpensTo(c: Config, d: Disk): Option<seq<byte>> {
    match Recovered(c, d)
    case None => None
    case Some(a) =>
      if (Previous !in d.raw && Staged(d) > 1) || |d.journal| > c.maxJournalBytes then None
      else Settled(c, a.bytes, d.journal)
  }

  /**
   * Startup opens no image that is not vouched for. Without a previous card the active image has the
   * recorded identity or checksum, and at most one image is staged beside it; a previous card has its
   * size and what its marker says, or there is no marker and some metadata is left.
   */
  lemma OnlyVouchedOpens(c: Config, d: Disk)
    requires OpensTo(c, d).Some?
    ensures |d.journal| <= c.maxJournalBytes && Decode(c, d.journal).Some?
    ensures Previous !in d.raw ==>
      && Active in d.raw && |d.raw[Active].bytes| == c.cardSize && Staged(d) <= 1 && d.current.Some?
      && d.current.value.owner == c.owner && d.current.value.cardSize == c.cardSize
      && (d.current.value.tag == d.raw[Active].tag || d.current.value.sha == c.hash(d.raw[Active].bytes))
      && OpensTo(c, d).value == Replay(d.raw[Active].bytes, Decode(c, d.journal).value)
    ensures Previous in d.raw ==>
      && |d.raw[Previous].bytes| == c.cardSize && (d.previous.Some? || d.current.Some?)
      && (d.previous.Some? ==> d.previous.value.owner == c.owner && d.previous.value.cardSize == c.cardSize)
      && (d.previous.Some? && |d.previous.value.sha| == 32 ==>
           d.previous.value.sha == c.hash(d.raw[Previous].bytes))
      && OpensTo(c, d).value == Replay(d.raw[Previous].bytes, Decode(c, d.journal).value)
  {
  }

  /** A disk that opens at all opens to one of the cards it lands on. */
  lemma OpensWhereItLands(c: Config, d: Disk, cards: set<seq<byte>>)
    requires LandsAmong(c, d, cards) && OpensTo(c, d).Some?
    ensures OpensTo(c, d).value in cards
  {
  }

  /**
   * What a run of durable steps promises about a crash after any of them: the card lands on `x`
   * or `y`. A sound promise adds that every state is sound, a loading one that the journal loads,
   * a sure one that rollback and validation succeed, a quiet one that no candidate is staged. The
   * run extends `past`.
   */
  datatype Promise = Promise(
    c: Config, x: seq<byte>, y: seq<byte>, sound: bool, loads: bool, sure: bool, quiet: bool, past: seq<Disk>)

  /** No candidate for a restore or an upload is staged. */
  predicate Quiet(d: Disk) {
    RestoreStage !in d.raw && Selected !in d.raw && UploadStage !in d.raw
  }

  /** Nothing is staged for a restore or an upload but this candidate. */
  predicate QuietBut(source: RawName, d: Disk) {
    && RestoreStage !in d.raw && (source == Selected || Selected !in d.raw)
    && (source == UploadStage || UploadStage !in d.raw)
  }

  ghost predicate Loads(c: Config, journal: seq<byte>) {
    |journal| <= c.maxJournalBytes && Decode(c, journal).Some?
  }

  /** Metadata of this card, with a checksum. */
  predicate Describes(c: Config, m: Metadata) {
    m.owner == c.owner && m.cardSize == c.cardSize && |m.sha| == 32
  }

  predicate PreviousWhole(c: Config, d: Disk) {
    Previous in d.raw && |d.raw[Previous].bytes| == c.cardSize
  }

  /** The previous card is whole and its marker, if still there, vouches for it. */
  ghost predicate PreviousDecides(c: Config, d: Disk) {
    && PreviousWhole(c, d)
    && if d.previous.Some?
       then d.previous.value.owner == c.owner && d.previous.value.cardSize == c.cardSize
            && d.previous.value.sha == c.hash(d.raw[Previous].bytes)
       else d.current.Some?
  }

  /** A whole image is active, its metadata is this card's, and a whole previous card decides.
      The active image need not be the one the metadata stands for. */
  ghost predicate Sound(c: Config, d: Disk) {
    && Active in d.raw && |d.raw[Active].bytes| == c.cardSize
    && d.current.Some? && Describes(c, d.current.value)
    && (PreviousWhole(c, d) ==> PreviousDecides(c, d))
  }

  /** The journal loads up to a point, and stops inside this record. */
  ghost predicate CutInside(c: Config, journal: seq<byte>, r: Record)
    requires c.Digests()
  {
    exists k :: 0 < k < |Encode(c, r)| && EndsWith(journal, Encode(c, r)[..k]) && Loads(c, journal[..|journal| - k])
  }

  predicate EndsWith(s: seq<byte>, tail: seq<byte>) {
    |tail| <= |s| && s[|s| - |tail|..] == tail
  }

  /** What decides, beside the journal, whether startup opens a sound disk. */
  predicate Survives(c: Config, d: Disk) {
    if Previous in d.raw then |d.raw[Previous].bytes| == c.cardSize
    else
      && Staged(d) <= 1 && Active in d.raw && d.current.Some?
      && (d.current.value.tag == d.raw[Active].tag || c.hash(d.raw[Active].bytes) == d.current.value.sha)
  }

  /** What a promise says about a disk beside the cards it lands on. */
  ghost predicate Bears(k: Promise, d: Disk) {
    && (k.sound ==> Sound(k.c, d))
    && (k.loads ==> Loads(k.c, d.journal))
    && (k.sure ==> Recovered(k.c, d).Some?)
    && (k.quiet ==> Quiet(d))
  }

  /** A crash here opens to `x` or `y` or not at all, and what else the promise says holds. */
  ghost predicate Endures(k: Promise, d: Disk) {
    Lands(k.c, d, k.x, k.y) && Bears(k, d)
  }

  /**
   * Under a sound promise a fault-free startup opens the card exactly when the journal loads and a
   * previous card is whole or, without one, at most one image is staged and the metadata knows the
   * active image; then it opens `x` or `y`, where the disk lands on them. Under a sure promise only
   * staged images and the journal can be in the way.
   */
  lemma SoundOpens(k: Promise, d: Disk)
    requires Bears(k, d) && k.sound
    ensures OpensTo(k.c, d).Some? <==> Survives(k.c, d) && Loads(k.c, d.journal)
    ensures Lands(k.c, d, k.x, k.y) && OpensTo(k.c, d).Some? ==> OpensTo(k.c, d).value in {k.x, k.y}
    ensures k.sure ==> (Survives(k.c, d) <==> Previous in d.raw || Staged(d) <= 1)
    ensures k.sure && k.quiet ==> Survives(k.c, d)
  {
  }

  /** Only the journal differs: what the promise says beside it stays. */
  lemma BearsJournal(k: Promise, d: Disk, journal: seq<byte>)
    requires Bears(k, d) && !k.loads
    ensures Bears(k, d.(journal := journal))
  {
  }

  /** The disk while `r` is being appended: it lands among these cards, and the journal may stop inside `r`. */
  ghost predicate Noted(k: Promise, r: Record, cards: set<seq<byte>>, d: Disk)
    requires k.c.Digests()
  {
    && Coherent(d) && LandsAmong(k.c, d, cards) && Bears(k.(loads := false), d)
    && (k.loads ==> Loads(k.c, d.journal) || CutInside(k.c, d.journal, r))
  }

  /** The two disks agree on everything that startup bases its decision on, staging aside. */
  ghost predicate SameCore(d: Disk, e: Disk) {
    && (Previous in d.raw <==> Previous in e.raw) && (Previous in d.raw ==> d.raw[Previous] == e.raw[Previous])
    && (Active in d.raw <==> Active in e.raw) && (Active in d.raw ==> d.raw[Active] == e.raw[Active])
    && d.current == e.current && d.previous == e.previous && d.journal == e.journal
  }

  lemma EnduresFrame(k: Promise, d: Disk, e: Disk)
    requires Endures(k, d) && SameCore(d, e) && (k.quiet ==> Quiet(e))
    ensures Endures(k, e)
  {
  }

  lemma FillEndures(k: Promise, was: Disk, now: Disk, name: RawName, bytes: seq<byte>)
    requires Endures(k, was) && OnlyFilled(was, now, name, bytes)
    requires name !in {Active, Previous} && (k.quiet ==> name == Checkpoint)
    ensures Endures(k, now)
  {
    EnduresFrame(k, was, now);
  }

  lemma EnduresCurrent(k: Promise, d: Disk, m: Metadata)
    requires Endures(k, d) && Active in d.raw && Matches(k.c, d.raw[Active], m)
    ensures Endures(k, d.(current := Some(m)))
  {
  }

  /** A run that went through `past` went on to `history`. */
  ghost predicate Extends(past: seq<Disk>, history: seq<Disk>) {
    |past| <= |history| && forall i {:trigger past[i]} :: 0 <= i < |past| ==> history[i] == past[i]
  }

  ghost predicate Visited(history: seq<Disk>, d: Disk, from: nat) {
    exists i :: from <= i < |history| && history[i] == d
  }

  lemma StillVisited(past: seq<Disk>, history: seq<Disk>, d: Disk, from: nat)
    requires Visited(past, d, from) && Extends(past, history)
    ensures Visited(history, d, from)
  {
    var i :| from <= i < |past| && past[i] == d;
    assert history[i] == past[i];
  }

  lemma EnduresPlain(k: Promise, d: Disk)
    requires Previous !in d.raw && Active in d.raw && (k.quiet ==> Quiet(d))
    requires Settles(k.c, d.raw[Active].bytes, d.journal, k.x, k.y)
    requires k.sure ==> k.sound
    requires k.sound ==> d.current.Some? && Matches(k.c, d.raw[Active], d.current.value)
    requires k.loads ==> Loads(k.c, d.journal)
    ensures Endures(k, d)
  {
  }

  lemma EnduresPrevious(k: Promise, d: Disk)
    requires Previous in d.raw && (k.quiet ==> Quiet(d))
    requires Settles(k.c, d.raw[Previous].bytes, d.journal, k.x, k.y)
    requires k.sound ==> Sound(k.c, d)
    requires k.loads ==> Loads(k.c, d.journal)
    requires k.sure ==> k.sound && PreviousWhole(k.c, d)
    ensures Endures(k, d)
  {
  }

  // The steps of a rollback keep a disk sound, even while image and metadata disagree.

  lemma SoundRenamed(c: Config, d: Disk)
    requires Sound(c, d) && PreviousWhole(c, d)
    ensures Sound(c, Renamed(d, Previous, Active))
  {
  }

  lemma SoundCurrent(c: Config, d: Disk, m: Metadata)
    requires Sound(c, d) && Describes(c, m)
    ensures Sound(c, d.(current := Some(m)))
  {
  }

  lemma SoundUnmarked(c: Config, d: Disk)
    requires Sound(c, d)
    ensures Sound(c, d.(previous := None))
  {
  }

  datatype Removal = Gone | Missing | Fault

  /**
   * The directory as the running process uses it. Every operation may fail unless the
   * directory is `reliable`; `history` records each durable state, so a crash after any
   * step restarts from one of its elements. Hard links exist only where `links` says so.
   */
  class FileSystem {
    var disk: Disk
    const reliable: bool
    const links: bool
    var history: seq<Disk>
    ghost var faults: nat

    constructor (disk: Disk, reliable: bool, links: bool)
      requires Coherent(disk)
      ensures this.disk == disk && this.reliable == reliable && this.links == links
      ensures history == [disk] && faults == 0
    {
      this.disk, this.reliable, this.links := disk, reliable, links;
      history := [disk];
      faults := 0;
    }

    ghost predicate Kept(k: Promise, from: nat)
      reads this`history
    {
      && from <= |history| && Extends(k.past, history)
      && forall i :: from <= i < |history| ==> Endures(k, history[i]) && Coherent(history[i])
    }

    twostate predicate Moved(next: Disk)
      reads this
    {
      disk == next && history == old(history) + [next]
    }

    twostate predicate Still()
      reads this
    {
      disk == old(disk) && history == old(history)
    }

    /** Only a fault makes a call fail, and a reliable directory has none. */
    twostate predicate Settle(ok: bool)
      reads this
    {
      faults >= old(faults) && (reliable ==> ok) && (!ok ==> faults > old(faults))
    }

    method Commit(next: Disk)
      modifies this`disk, this`history
      ensures Moved(next)
    {
      disk := next;
      history := history + [next];
    }

    /** A system call without durable effect: open, stat, close or directory sync. */
    method Attempt() returns (ok: bool)
      modifies this`faults
      ensures Settle(ok)
    {
      ok := *;
      ok := ok || reliable;
      if !ok {
        faults := faults + 1;
      }
    }

    method Remove(name: RawName) returns (r: Removal)
      requires Coherent(disk)
      modifies this
      ensures Coherent(disk)
      ensures Settle(r != Fault)
      ensures r == Gone ==> name in old(disk).raw && Moved(Removed(old(disk), name))
      ensures r == Missing ==> name !in old(disk).raw
      ensures r != Gone ==> Still()
    {
      var ok := Attempt();
      if !ok { return Fault; }
      if name !in disk.raw { return Missing; }
      Commit(Removed(disk, name));
      r := Gone;
    }

    /** Exclusive creation of an empty file with an identity no other name has. */
    method Create(name: RawName) returns (ok: bool)
      requires Coherent(disk)
      modifies this
      ensures Coherent(disk)
      ensures Settle(ok || name in old(disk).raw)
      ensures ok ==> name !in old(disk).raw && name in disk.raw && Alone(disk, name)
      ensures ok ==> Moved(Written(old(disk), name, Raw([], disk.raw[name].tag)))
      ensures !ok ==> Still()
    {
      ok := Attempt();
      if !ok || name in disk.raw { return false; }
      var tag :| tag !in TagsInUse(disk) by { UnusedTag(TagsInUse(disk)); }
      Commit(Written(disk, name, Raw([], tag)));
    }

    method SetBytes(name: RawName, bytes: seq<byte>)
      requires Coherent(disk) && name in disk.raw && Alone(disk, name)
      modifies this`disk, this`history
      ensures Coherent(disk) && name in disk.raw && Alone(disk, name)
      ensures Moved(Written(old(disk), name, Raw(bytes, old(disk).raw[name].tag)))
    {
      Commit(Written(disk, name, Raw(bytes, disk.raw[name].tag)));
    }

    /** Fills a private file; a crash or fault can leave any prefix of the bytes. */
    method Fill(name: RawName, bytes: seq<byte>) returns (ok: bool)
      requires Coherent(disk) && name in disk.raw && Alone(disk, name)
      modifies this
      ensures Coherent(disk)
      ensures Settle(ok)
      ensures |history| > |old(history)| && history[..|old(history)|] == old(history)
      ensures forall i :: |old(history)| <= i < |history| ==> OnlyFilled(old(disk), history[i], name, bytes)
      ensures forall i :: |old(history)| <= i < |history| ==> Coherent(history[i])
      ensures disk == history[|history| - 1]
      ensures ok ==> disk == Written(old(disk), name, Raw(bytes, old(disk).raw[name].tag))
    {
      var k :| 0 <= k <= |bytes|;
      assert bytes[..k] <= bytes;
      SetBytes(name, bytes[..k]);
      ok := Attempt();
      if ok {
        OverwriteTwice(old(disk).raw, name, disk.raw[name], Raw(bytes, disk.raw[name].tag));
        SetBytes(name, bytes);
      }
    }

    /** Overwrites part of a private file. */
    method WriteAt(name: RawName, offset: nat, bytes: seq<byte>) returns (ok: bool)
      requires Coherent(disk) && name in disk.raw && Alone(disk, name)
      requires offset + |bytes| <= |disk.raw[name].bytes|
      modifies this
      ensures Coherent(disk)
      ensures Settle(ok)
      ensures ok ==> Moved(Written(old(disk), name,
        Raw(Patch(old(disk).raw[name].bytes, offset, bytes), old(disk).raw[name].tag)))
      ensures !ok ==> Still()
    {
      ok := Attempt();
      if !ok { return; }
      Commit(Written(disk, name, Raw(Patch(disk.raw[name].bytes, offset, bytes), disk.raw[name].tag)));
    }

    method Rename(from: RawName, to: RawName) returns (ok: bool)
      requires Coherent(disk) && from in disk.raw && from != to
      modifies this
      ensures Coherent(disk)
      ensures Settle(ok)
      ensures ok ==> Moved(Renamed(old(disk), from, to))
      ensures !ok ==> Still()
    {
      ok := Attempt();
      if !ok { return; }
      Commit(Renamed(disk, from, to));
    }

    method Link(from: RawName, to: RawName) returns (ok: bool)
      requires Coherent(disk) && from in disk.raw && to !in disk.raw
      modifies this
      ensures Coherent(disk)
      ensures Settle(ok || !links) && (ok ==> links)
      ensures ok ==> Moved(Written(old(disk), to, old(disk).raw[from]))
      ensures !ok ==> Still()
    {
      ok := Attempt();
      if !ok { return; }
      if !links { return false; }
      Commit(Written(disk, to, disk.raw[from]));
    }

    /** `atomicWrite` of metadata.json. */
    method WriteCurrent(m: Metadata) returns (ok: bool)
      modifies this
      ensures Settle(ok)
      ensures Moved(old(disk).(current := Some(m))) || Still()
      ensures ok ==> Moved(old(disk).(current := Some(m)))
    {
      ok := Attempt();
      if !ok { return; }
      Commit(disk.(current := Some(m)));
      ok := Attempt();
    }

    /** `atomicWrite` of the previous-metadata marker. */
    method WritePrevious(m: Metadata) returns (ok: bool)
      modifies this
      ensures Settle(ok)
      ensures Moved(old(disk).(previous := Some(m))) || Still()
      ensures ok ==> Moved(old(disk).(previous := Some(m)))
    {
      ok := Attempt();
      if !ok { return; }
      Commit(disk.(previous := Some(m)));
      ok := Attempt();
    }

    method RemovePrevious() returns (r: Removal)
      modifies this
      ensures Settle(r != Fault)
      ensures r == Gone ==> old(disk).previous.Some? && Moved(old(disk).(previous := None))
      ensures r == Missing ==> old(disk).previous.None?
      ensures r != Gone ==> Still()
    {
      var ok := Attempt();
      if !ok { return Fault; }
      if disk.previous.None? { return Missing; }
      Commit(disk.(previous := None));
      r := Gone;
    }

    /** An append can stop after any prefix of its bytes. */
    method Append(bytes: seq<byte>) returns (ok: bool)
      modifies this
      ensures Settle(ok)
      ensures |history| > |old(history)| && history[..|old(history)|] == old(history)
      ensures forall i :: |old(history)| <= i < |history| ==> OnlyAppended(old(disk), history[i], bytes)
      ensures disk == history[|history| - 1]
      ensures ok ==> disk == old(disk).(journal := old(disk).journal + bytes)
    {
      ghost var start := disk;
      var k :| 0 <= k <= |bytes|;
      Commit(disk.(journal := disk.journal + bytes[..k]));
      ok := Attempt();
      if !ok { return; }
      Commit(disk.(journal := disk.journal + bytes[k..]));
      assert start.journal + bytes[..k] + bytes[k..] == start.journal + bytes;
    }

    method TruncateJournal() returns (ok: bool)
      modifies this
      ensures Settle(ok)
      ensures ok ==> Moved(old(disk).(journal := []))
      ensures !ok ==> Still()
    {
      ok := Attempt();
      if !ok { return; }
      Commit(disk.(journal := []));
    }

    /** Changes the backups directory only. */
    method WriteBackups(raw: map<nat, seq<byte>>, meta: map<nat, BackupMeta>) returns (ok: bool)
      modifies this
      ensures Settle(ok)
      ensures ok ==> Moved(old(disk).(backupRaw := raw, backupMeta := meta))
      ensures !ok ==> Still()
    {
      ok := Attempt();
      if !ok { return; }
      Commit(disk.(backupRaw := raw, backupMeta := meta));
    }

    /** The directory has been in this durable state since `from`. */
    ghost predicate Passed(d: Disk, from: nat)
      reads this`history
    {
      Visited(history, d, from)
    }

    /** A crash now, or at any step since `from`, keeps the promise. */
    ghost predicate Safe(k: Promise, from: nat)
      reads this`disk, this`history
    {
      Coherent(disk) && Endures(k, disk) && Kept(k, from)
    }

    /** A promise that also extends `past` is the promise itself once it has extended its own past. */
    lemma SafeSince(k: Promise, past: seq<Disk>, from: nat)
      requires Safe(k.(past := past), from) && Extends(k.past, past)
      ensures Safe(k, from) && Extends(past, history)
    {
      assert forall i :: from <= i < |history| ==> Endures(k.(past := past), history[i]);
    }

    /** Every promise may add that the run goes on from here. */
    lemma SafeFrom(k: Promise, from: nat)
      requires Safe(k, from)
      ensures Safe(k.(past := history), from) && Extends(k.past, history)
    {
    }

    // Steps under a promise: the caller shows that the state the step leads to endures.

    method Unlink(name: RawName, ghost k: Promise, ghost from: nat) returns (r: Removal)
      requires Safe(k, from) && (name in disk.raw ==> Endures(k, Removed(disk, name)))
      modifies this
      ensures Safe(k, from) && Settle(r != Fault)
      ensures disk == if r == Gone then Removed(old(disk), name) else old(disk)
      ensures r == Gone ==> name in old(disk).raw
      ensures r == Missing ==> name !in old(disk).raw
    {
      r := Remove(name);
    }

    method Unmark(ghost k: Promise, ghost from: nat) returns (r: Removal)
      requires Safe(k, from) && Endures(k, disk.(previous := None))
      modifies this
      ensures Safe(k, from) && Settle(r != Fault)
      ensures disk == if r == Fault then old(disk) else old(disk).(previous := None)
      ensures r == Gone ==> old(disk).previous.Some?
      ensures r == Missing ==> old(disk).previous.None?
    {
      r := RemovePrevious();
    }

    method Mark(m: Metadata, ghost k: Promise, ghost from: nat) returns (ok: bool)
      requires Safe(k, from) && Endures(k, disk.(previous := Some(m)))
      modifies this
      ensures Safe(k, from) && Settle(ok)
      ensures disk == old(disk).(previous := Some(m)) || disk == old(disk)
      ensures ok ==> disk.previous == Some(m)
    {
      ok := WritePrevious(m);
    }

    method Confirm(m: Metadata, ghost k: Promise, ghost from: nat) returns (ok: bool)
      requires Safe(k, from) && Endures(k, disk.(current := Some(m)))
      modifies this
      ensures Safe(k, from) && Settle(ok)
      ensures disk == old(disk).(current := Some(m)) || disk == old(disk)
      ensures ok ==> disk.current == Some(m)
    {
      ok := WriteCurrent(m);
    }

    method Move(name: RawName, to: RawName, ghost k: Promise, ghost from: nat) returns (ok: bool)
      requires name in disk.raw && name != to
      requires Safe(k, from) && Endures(k, Renamed(disk, name, to))
      modifies this
      ensures Safe(k, from) && Settle(ok)
      ensures disk == if ok then Renamed(old(disk), name, to) else old(disk)
      ensures ok ==> Passed(disk, from)
    {
      ok := Rename(name, to);
      if ok {
        assert history[|history| - 1] == disk;
      }
    }

    method HardLink(name: RawName, to: RawName, ghost k: Promise, ghost from: nat) returns (ok: bool)
      requires name in disk.raw && to !in disk.raw
      requires Safe(k, from) && Endures(k, Written(disk, to, disk.raw[name]))
      modifies this
      ensures Safe(k, from) && Settle(ok || !links) && (ok ==> links)
      ensures disk == if ok then Written(old(disk), to, old(disk).raw[name]) else old(disk)
    {
      ok := Link(name, to);
    }

    method Truncate(ghost k: Promise, ghost from: nat) returns (ok: bool)
      requires Safe(k, from) && Endures(k, disk.(journal := []))
      modifies this
      ensures Safe(k, from) && Settle(ok)
      ensures disk == if ok then old(disk).(journal := []) else old(disk)
      ensures Extends(old(history), history)
    {
      ok := TruncateJournal();
    }

    // Staged images: the card's own files are untouched, so every promise is kept.

    method DropStage(name: RawName, ghost start: Disk, ghost k: Promise, ghost from: nat) returns (r: Removal)
      requires name !in {Active, Previous} && (k.quiet ==> name == Checkpoint) && Safe(k, from)
      requires OnlyStaged(start, disk, name)
      modifies this
      ensures Safe(k, from) && OnlyStaged(start, disk, name) && |history| >= |old(history)|
      ensures Settle(r != Fault) && (r != Fault ==> name !in disk.raw)
    {
      ghost var was := disk;
      r := Remove(name);
      EnduresFrame(k, was, disk);
    }

    /** Changes the backups directory; startup never looks at it. */
    method StoreBackups(raw: map<nat, seq<byte>>, meta: map<nat, BackupMeta>, ghost k: Promise, ghost from: nat)
      returns (ok: bool)
      requires Safe(k, from)
      modifies this
      ensures Safe(k, from) && Settle(ok)
      ensures ok ==> disk == old(disk).(backupRaw := raw, backupMeta := meta)
      ensures !ok ==> disk == old(disk)
    {
      ghost var was := disk;
      ok := WriteBackups(raw, meta);
      EnduresFrame(k, was, disk);
    }

    /** Rewrites metadata.json with metadata that vouches for the active image. */
    method ReviseCurrent(m: Metadata, ghost k: Promise, ghost from: nat) returns (ok: bool)
      requires Safe(k, from) && Active in disk.raw && Matches(k.c, disk.raw[Active], m)
      modifies this
      ensures Safe(k, from) && Settle(ok)
      ensures disk == old(disk).(current := Some(m)) || disk == old(disk)
      ensures ok ==> disk.current == Some(m)
    {
      EnduresCurrent(k, disk, m);
      ok := Confirm(m, k, from);
    }

    method NewStage(name: RawName, ghost start: Disk, ghost k: Promise, ghost from: nat) returns (ok: bool)
      requires name !in {Active, Previous} && (k.quiet ==> name == Checkpoint) && Safe(k, from)
      requires OnlyStaged(start, disk, name)
      modifies this
      ensures Safe(k, from) && OnlyStaged(start, disk, name)
      ensures Settle(ok || name in old(disk).raw)
      ensures ok ==> name in disk.raw && Alone(disk, name) && |history| > |old(history)|
    {
      ghost var was := disk;
      ok := Create(name);
      EnduresFrame(k, was, disk);
    }

    method FillStage(name: RawName, bytes: seq<byte>, ghost start: Disk, ghost k: Promise, ghost from: nat)
      returns (ok: bool)
      requires name !in {Active, Previous} && (k.quiet ==> name == Checkpoint) && Safe(k, from)
      requires OnlyStaged(start, disk, name)
      requires name in disk.raw && Alone(disk, name)
      modifies this
      ensures Safe(k, from) && OnlyStaged(start, disk, name)
      ensures Settle(ok)
      ensures ok ==> name in disk.raw && Alone(disk, name) && disk.raw[name].bytes == bytes
      ensures |history| > |old(history)| && history[|history| - 1] == disk
    {
      ghost var was, before := disk, history;
      ok := Fill(name, bytes);
      forall i | |before| <= i < |history| ensures Endures(k, history[i]) {
        FillEndures(k, was, history[i], name, bytes);
      }
      assert forall i :: from <= i < |before| ==> history[i] == before[i];
    }

    method PatchStage(name: RawName, offset: nat, bytes: seq<byte>,
                      ghost start: Disk, ghost k: Promise, ghost from: nat) returns (ok: bool)
      requires name !in {Active, Previous} && (k.quiet ==> name == Checkpoint) && Safe(k, from)
      requires OnlyStaged(start, disk, name)
      requires name in disk.raw && Alone(disk, name) && offset + |bytes| <= |disk.raw[name].bytes|
      modifies this
      ensures Safe(k, from) && OnlyStaged(start, disk, name)
      ensures Settle(ok)
      ensures name in disk.raw && Alone(disk, name)
      ensures ok ==> disk.raw[name].bytes == Patch(old(disk).raw[name].bytes, offset, bytes)
    {
      ghost var was := disk;
      ok := WriteAt(name, offset, bytes);
      EnduresFrame(k, was, disk);
    }
  }

  /** `b` differs from `a` at most in one staged image, and keeps the others' identities apart. */
  ghost predicate OnlyStaged(a: Disk, b: Disk, name: RawName) {
    && b == a.(raw := b.raw)
    && forall n :: n != name ==> (n in a.raw <==> n in b.raw) && (n in a.raw ==> a.raw[n] == b.raw[n])
  }

  /** `b` differs from `a` at most in the previous card and its marker. */
  ghost predicate OnlyPrevious(a: Disk, b: Disk) {
    && b == a.(raw := b.raw, previous := b.previous)
    && forall n :: n != Previous ==> (n in a.raw <==> n in b.raw) && (n in a.raw ==> a.raw[n] == b.raw[n])
  }

  /** Replacing a card leaves the journal, the backups and the other staged images alone. */
  ghost predicate OutsideCard(a: Disk, b: Disk, stage: RawName) {
    a.journal == b.journal && BesideCard(a, b, stage)
  }

  /** A checkpoint leaves the backups and the other staged images alone. */
  ghost predicate BesideCard(a: Disk, b: Disk, stage: RawName) {
    a.backupRaw == b.backupRaw && a.backupMeta == b.backupMeta && OtherStages(a, b, stage)
  }

  /** Every staged image but this one is as it was. */
  ghost predicate OtherStages(a: Disk, b: Disk, stage: RawName) {
    forall n :: n != Active && n != Previous && n != stage ==>
      (n in a.raw <==> n in b.raw) && (n in a.raw ==> a.raw[n] == b.raw[n])
  }

  /** `b` is `a` with some prefix of `bytes` in the named file. */
  ghost predicate OnlyFilled(a: Disk, b: Disk, name: RawName, bytes: seq<byte>) {
    && name in a.raw && name in b.raw && b.raw[name].bytes <= bytes
    && b == Written(a, name, Raw(b.raw[name].bytes, a.raw[name].tag))
  }

  /** `b` is `a` with some prefix of `bytes` appended to the journal. */
  ghost predicate OnlyAppended(a: Disk, b: Disk, bytes: seq<byte>) {
    var k := |b.journal| - |a.journal|;
    0 <= k <= |bytes| && b == a.(journal := a.journal + bytes[..k])
  }

  lemma OverwriteTwice<K, V>(m: map<K, V>, key: K, first: V, second: V)
    ensures m[key := first][key := second] == m[key := second]
  {
  }

  /** No other name links to this file. */
  ghost predicate Alone(d: Disk, name: RawName)
    requires name in d.raw
  {
    forall n :: n in d.raw && n != name ==> d.raw[n].tag != d.raw[name].tag
  }

  function TagsInUse(d: Disk): set<int> {
    set n | n in d.raw :: d.raw[n].tag
  }

  lemma UnusedTag(tags: set<int>)
    ensures exists tag :: tag !in tags
  {
    var bound := UpperBound(tags);
    assert bound !in tags;
  }

  lemma UpperBound(tags: set<int>) returns (bound: int)
    ensures forall t :: t in tags ==> t < bound
  {
    if some :| some in tags {
      var rest := UpperBound(tags - {some});
      bound := if some < rest then rest else some + 1;
      assert tags == (tags - {some}) + {some};
    } else {
      bound := 0;
    }
  }

  ghost predicate Ascending(names: seq<nat>) {
    forall i, j :: 0 <= i < j < |names| ==> names[i] < names[j]
  }

  /** A directory listing in name order. */
  method SortedNames(m: map<nat, seq<byte>>) returns (names: seq<nat>)
    ensures Ascending(names) && |names| == |m|
    ensures forall n :: n in names <==> n in m
  {
    names := [];
    var rest := m.Keys;
    while true
      invariant Ascending(names) && rest <= m.Keys && |names| + |rest| == |m|
      invariant forall n :: n in names <==> n in m.Keys && n !in rest
      decreases |rest|
    {
      if n :| n in rest {
        names := InsertName(names, n);
        rest := rest - {n};
      } else {
        assert rest == {};
        break;
      }
    }
  }

  method InsertName(names: seq<nat>, n: nat) returns (more: seq<nat>)
    requires Ascending(names) && n !in names
    ensures Ascending(more) && |more| == |names| + 1
    ensures forall x :: x in more <==> x == n || x in names
  {
    var at := 0;
    while at < |names| && names[at] < n
      invariant 0 <= at <= |names|
      invariant forall i :: 0 <= i < at ==> names[i] < n
    {
      at := at + 1;
    }
    more := names[..at] + [n] + names[at..];
    InsertedMembers(names, at, n);
    InsertedAscends(names, at, n);
  }

  lemma InsertedMembers(names: seq<nat>, at: nat, n: nat)
    requires at <= |names|
    ensures forall x :: x in names[..at] + [n] + names[at..] <==> x == n || x in names
  {
    assert names == names[..at] + names[at..];
    assert forall x :: x in names <==> x in names[..at] || x in names[at..];
  }

  lemma InsertedAscends(names: seq<nat>, at: nat, n: nat)
    requires Ascending(names) && at <= |names| && n !in names
    requires forall i :: 0 <= i < at ==> names[i] < n
    requires at < |names| ==> n <= names[at]
    ensures Ascending(names[..at] + [n] + names[at..])
  {
    var more := names[..at] + [n] + names[at..];
    forall i, j | 0 <= i < j < |more| ensures more[i] < more[j] {
      assert more[i] == if i < at then names[i] else if i == at then n else names[i - 1];
      assert more[j] == if j < at then names[j] else if j == at then n else names[j - 1];
      assert at < |names| ==> names[at] != n;
    }
  }

  /** Pruning keeps the newest `maximum` backups, byte for byte, and drops only older ones. */
  ghost predicate Pruned(before: map<nat, seq<byte>>, after: map<nat, seq<byte>>, maximum: nat) {
    && after.Keys <= before.Keys
    && (forall n :: n in after ==> after[n] == before[n])
    && |after| == (if |before| <= maximum then |before| else maximum)
    && (forall kept, dropped :: kept in after && dropped in before && dropped !in after ==> dropped < kept)
  }

  /** What is kept of the backups is described as before. */
  ghost predicate DescribedAsBefore(kept: map<nat, seq<byte>>, before: map<nat, BackupMeta>,
                                    after: map<nat, BackupMeta>) {
    forall n :: n in kept && n in before ==> n in after && after[n] == before[n]
  }

  /**
   * A backup was taken: the image was added under the stamp, only the newest backups are kept, and each
   * of them is described as before, the new one as this card's image with its checksum.
   */
  ghost predicate BackedUp(c: Config, raw: map<nat, seq<byte>>, meta: map<nat, BackupMeta>,
                           newRaw: map<nat, seq<byte>>, newMeta: map<nat, BackupMeta>, stamp: nat, image: seq<byte>) {
    && Pruned(raw[stamp := image], newRaw, c.maxBackups)
    && DescribedAsBefore(newRaw, meta[stamp := BackupMeta(c.owner, c.cardSize, c.hash(image))], newMeta)
  }

  /** The newest backup is always kept. */
  lemma NewestKept(before: map<nat, seq<byte>>, after: map<nat, seq<byte>>, maximum: nat, newest: nat)
    requires Pruned(before, after, maximum) && maximum >= 1
    requires newest in before && forall n :: n in before ==> n <= newest
    ensures newest in after && after[newest] == before[newest]
  {
    assert newest in before.Keys && |before.Keys| > 0;
    assert after.Keys != {};
    var kept :| kept in after;
    assert newest in after || newest < kept;
  }
}
