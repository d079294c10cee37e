/** Whole runs of a card directory: operations, faults, power cuts and restarts in any order. */
module SaveRuns {
  import opened Basics
  import opened Bytes
  import opened SaveJournal
  import opened SaveDisk
  import opened SaveBlocks
  import opened SaveOverlay
  import opened SaveRecovery
  import opened SavePowerCuts

  datatype Action =
    | Write(offset: int, data: seq<byte>)
    | Read(at: int, length: nat)
    | Flush
    | Save(stamp: nat)
    | Restore(name: nat, stamp: nat)
    | Upload(stream: seq<byte>, size: nat, stamp: nat)
  {
    /** The action replaces the whole card. */
    predicate Exchanges() {
      Restore? || Upload?
    }

    /** Whether the action succeeds does not depend on what the backup directory holds. */
    predicate Plain() {
      Write? || Read? || Flush?
    }
  }

  /** One action and, if the power fails during it, which of its durable states is the last. */
  datatype Step = Step(action: Action, powerCut: Option<nat>)

  /** Success, how many bytes were written or read, and the bytes read. */
  datatype Answer = Answer(ok: bool, count: nat, bytes: seq<byte>)

  /** What a step did to the card: nothing, or these bytes at this offset. */
  type Part = Option<Record>

  function Do(flat: seq<byte>, part: Part): (r: seq<byte>)
    ensures |r| == |flat|
  {
    if part.None? || part.value.offset + |part.value.data| > |flat| then flat
    else Patch(flat, part.value.offset, part.value.data)
  }

  /** The flat array after the steps did their parts, in order. */
  function AfterParts(start: seq<byte>, parts: seq<Part>): (r: seq<byte>)
    ensures |r| == |start|
  {
    if parts == [] then start else Do(AfterParts(start, parts[..|parts| - 1]), parts[|parts| - 1])
  }

  lemma PartsSnoc(start: seq<byte>, parts: seq<Part>, part: Part)
    ensures AfterParts(start, parts + [part]) == Do(AfterParts(start, parts), part)
  {
    assert (parts + [part])[..|parts|] == parts;
  }

  /** A part that this action can have done: a prefix of a write, or a whole exchange. */
  predicate Stems(cardSize: nat, a: Action, part: Part) {
    part.Some? ==>
      match a
      case Write(offset, data) =>
        part.value.offset == offset && 0 < |part.value.data| && part.value.data <= data
        && part.value.offset + |data| <= cardSize
      case Restore(_, _) => part.value.offset == 0 && |part.value.data| == cardSize
      case Upload(stream, _, _) => part.value == Record(0, stream) && |stream| == cardSize
      case _ => false
  }

  /** The whole of what this action is for. */
  predicate Full(a: Action, part: Part) {
    match a
    case Write(offset, data) => part.Some? && part.value.offset == offset && part.value.data == data
    case Restore(_, _) => part.Some?
    case Upload(stream, _, _) => part == Some(Record(0, stream))
    case _ => part.None?
  }

  /** What the action does if it succeeds, in a directory as it is when it begins. */
  function Whole(card: SaveCard, d: Disk, a: Action): (part: Part)
    ensures Stems(card.c.cardSize, a, part)
  {
    match a
    case Write(offset, data) =>
      if offset < 0 || |data| == 0 || |data| > card.c.cardSize - offset then None else Some(Record(offset, data))
    case Restore(name, _) => if card.BackupSound(d, name) then Some(Record(0, d.backupRaw[name])) else None
    case Upload(stream, size, _) =>
      if |stream| == size == card.c.cardSize then Some(Record(0, stream)) else None
    case _ => None
  }

  /** The answer says what was done: of a write, exactly the bytes that it counts. */
  predicate Answered(cardSize: nat, a: Action, answer: Answer, part: Part) {
    && Stems(cardSize, a, part) && (answer.ok ==> Full(a, part))
    && (a.Write? ==>
      && answer.count <= |a.data|
      && if answer.count == 0 then part.None? else part.Some? && part.value.data == a.data[..answer.count])
  }

  /** The bytes that a read counts are the flat array's, whether it went on to the end or not. */
  predicate ReadTruly(a: Action, answer: Answer, flat: seq<byte>) {
    a.Read? ==>
      && answer.count <= |answer.bytes| && (answer.ok ==> answer.count == a.length)
      && (answer.count > 0 ==>
        0 <= a.at && a.at + answer.count <= |flat|
        && answer.bytes[..answer.count] == flat[a.at..a.at + answer.count])
  }

  /** An exchange would leave a failed write in the journal, which a restart lays over the new card. */
  ghost predicate Haunted(card: SaveCard, a: Action)
    requires card.Valid()
    reads card, card.fs
  {
    var whole := Whole(card, card.fs.disk, a);
    a.Exchanges() && whole.Some? && card.Carried(whole.value.data) != whole.value.data
  }

  /** The card or its limbo, before or after the action. */
  ghost predicate Explicable(now: seq<byte>, flat: seq<byte>, limbo: seq<byte>, whole: Part) {
    now == flat || now == limbo || now == Do(flat, whole) || now == Do(limbo, whole)
  }

  ghost predicate Restartable(c: Config, d: Disk, flat: seq<byte>, limbo: seq<byte>, whole: Part) {
    LandsAmong(c, d, {flat, limbo, Do(flat, whole), Do(limbo, whole)})
  }

  /** Since `from`, every durable state restarts to the card or its limbo, before or after the action. */
  ghost predicate AllRestartable(card: SaveCard, from: nat, flat: seq<byte>, limbo: seq<byte>, whole: Part)
    reads card, card.fs
  {
    forall i :: from <= i < |card.fs.history| ==> Restartable(card.c, card.fs.history[i], flat, limbo, whole)
  }

  ghost predicate AllCoherent(card: SaveCard, from: nat)
    reads card, card.fs
  {
    from <= |card.fs.history| && forall i :: from <= i < |card.fs.history| ==> Coherent(card.fs.history[i])
  }

  /** The flat view after an action is the one before with its part done. */
  ghost predicate Accounted(card: SaveCard, answer: Answer, part: Part, flat: seq<byte>)
    reads card, card.fs
  {
    if card.stranded then !answer.ok else card.Valid() && card.Contents() == Do(flat, part)
  }

  /** Limbo after an action; of what was acknowledged it holds the whole. */
  ghost predicate LimboKept(card: SaveCard, a: Action, ok: bool, flat: seq<byte>, limbo: seq<byte>, whole: Part)
    reads card, card.fs
  {
    && Explicable(card.limbo, flat, limbo, whole)
    && (ok && Full(a, whole) ==> card.limbo == Do(flat, whole) || card.limbo == Do(limbo, whole))
  }

  /** A card that storage never fails, and on which no write has failed. */
  ghost predicate Working(card: SaveCard)
    reads card, card.fs
  {
    card.Opened() && card.fs.reliable && card.Keepable() && card.Intact() && !card.stranded
  }

  /** Exactly the plain requests that a working card grants. */
  predicate Granted(c: Config, a: Action) {
    match a
    case Write(offset, data) =>
      0 <= offset && 0 < |data| <= c.cardSize - offset && WithinLimits(c, offset, |data|)
    case Read(at, length) => 0 <= at && length <= c.cardSize - at
    case _ => true
  }

  /** A working card stays one and has granted exactly what it must. */
  ghost predicate Served(card: SaveCard, ok: bool, a: Action)
    reads card, card.fs
  {
    Working(card) && (a.Plain() ==> (ok <==> Granted(card.c, a)))
  }

  /** Only a failed write ends an intact card. */
  ghost predicate IntactUnless(card: SaveCard, a: Action, ok: bool)
    reads card, card.fs
  {
    (a.Write? ==> ok) && !card.stranded ==> card.Opened() && card.Intact()
  }

  /** Performs one action on a running card. */
  method Perform(card: SaveCard, a: Action) returns (answer: Answer, ghost part: Part)
    requires card.Valid()
    modifies card, card.fs
    ensures Answered(card.c.cardSize, a, answer, part) && Accounted(card, answer, part, old(card.Contents()))
    ensures ReadTruly(a, answer, old(card.Contents()))
    ensures part.None? || a.Write? || part == old(Whole(card, card.fs.disk, a))
    ensures answer.ok ==> part == old(Whole(card, card.fs.disk, a))
    ensures AllCoherent(card, |old(card.fs.history)|)
    ensures !old(Haunted(card, a)) ==>
      AllRestartable(card, |old(card.fs.history)|, old(card.Contents()), old(card.limbo),
        old(Whole(card, card.fs.disk, a)))
    ensures !old(Haunted(card, a)) && !card.stranded ==>
      LimboKept(card, a, answer.ok, old(card.Contents()), old(card.limbo), old(Whole(card, card.fs.disk, a)))
    ensures old(Working(card)) ==> Served(card, answer.ok, a)
    ensures old(card.Intact()) ==> IntactUnless(card, a, answer.ok)
  {
    match a
    case Write(offset, data) =>
      answer, part := PerformWrite(card, a);
    case Read(at, length) =>
      answer := PerformRead(card, a);
      part := None;
    case Flush =>
      answer := PerformFlush(card, a);
      part := None;
    case Save(stamp) =>
      answer := PerformSave(card, a);
      part := None;
    case Restore(name, stamp) =>
      answer, part := PerformRestore(card, a);
    case Upload(stream, size, stamp) =>
      answer, part := PerformUpload(card, a);
  }

  method PerformWrite(card: SaveCard, a: Action) returns (answer: Answer, ghost part: Part)
    requires card.Valid() && a.Write?
    modifies card, card.fs
    ensures Answered(card.c.cardSize, a, answer, part) && Accounted(card, answer, part, old(card.Contents()))
    ensures answer.ok ==> part == Whole(card, old(card.fs.disk), a)
    ensures AllCoherent(card, |old(card.fs.history)|)
    ensures AllRestartable(card, |old(card.fs.history)|, old(card.Contents()), old(card.limbo),
      Whole(card, old(card.fs.disk), a))
    ensures !card.stranded ==>
      LimboKept(card, a, answer.ok, old(card.Contents()), old(card.limbo), Whole(card, old(card.fs.disk), a))
    ensures old(Working(card)) ==> Served(card, answer.ok, a)
    ensures old(card.Intact()) ==> IntactUnless(card, a, answer.ok)
  {
    if a.offset < 0 || |a.data| == 0 || |a.data| > card.c.cardSize - a.offset {
      var _ := card.WriteSaveAt(a.data, a.offset);
      return Answer(false, 0, []), None;
    }
    ghost var record := Record(a.offset, a.data);
    var r := WriteInside(card, a.data, a.offset);
    answer := Answer(r.Wrote?, if r.Wrote? || r.BaseFailed? then r.count else 0, []);
    part := Taken(r, record);
    WriteAnswered(card.c.cardSize, a, answer, r, record);
  }

  /** What the result of a write says that it did. */
  ghost function Taken(r: WriteResult, record: Record): Part
    requires r.BaseFailed? ==> r.count <= |record.data|
  {
    if r.Wrote? then Some(record)
    else if r.BaseFailed? && r.count > 0 then Some(Record(record.offset, record.data[..r.count]))
    else None
  }

  lemma WriteAnswered(cardSize: nat, a: Action, answer: Answer, r: WriteResult, record: Record)
    requires a.Write? && 0 <= a.offset && 0 < |a.data| <= cardSize - a.offset && record == Record(a.offset, a.data)
    requires r.Wrote? ==> r.count == |a.data|
    requires r.BaseFailed? ==> r.count < |a.data|
    requires answer == Answer(r.Wrote?, if r.Wrote? || r.BaseFailed? then r.count else 0, [])
    ensures Answered(cardSize, a, answer, Taken(r, record))
  {
    assert r.Wrote? ==> a.data[..r.count] == a.data;
  }

  /** A write inside the card, in the terms of a run. */
  method WriteInside(card: SaveCard, data: seq<byte>, offset: nat) returns (r: WriteResult)
    requires card.Valid() && Fits(card.c.cardSize, Record(offset, data))
    modifies card, card.fs
    ensures r.Wrote? ==> !card.stranded && r.count == |data|
    ensures r.BaseFailed? ==> r.count < |data|
    ensures !card.stranded ==> card.Valid()
    ensures !card.stranded ==> card.Contents() == Do(old(card.Contents()), Taken(r, Record(offset, data)))
    ensures AllCoherent(card, |old(card.fs.history)|)
    ensures AllRestartable(card, |old(card.fs.history)|, old(card.Contents()), old(card.limbo),
      Some(Record(offset, data)))
    ensures !card.stranded ==>
      LimboKept(card, Write(offset, data), r.Wrote?, old(card.Contents()), old(card.limbo), Some(Record(offset, data)))
    ensures old(Working(card)) ==> Served(card, r.Wrote?, Write(offset, data))
    ensures old(card.Intact()) ==> IntactUnless(card, Write(offset, data), r.Wrote?)
  {
    ghost var flat, limbo, from, k := card.Contents(), card.limbo, |card.fs.history|, card.Standing();
    ghost var record := Record(offset, data);
    r := card.WriteSaveAt(data, offset);
    if r != CardBlocked {
      LoggedRestartable(card, k, old(card.Counted()), record, from, flat, limbo);
    }
    if !card.stranded {
      LimboAfterWrite(card, r, record, flat, limbo);
      DoTaken(flat, card.Contents(), r, record);
    }
  }

  lemma DoTaken(flat: seq<byte>, now: seq<byte>, r: WriteResult, record: Record)
    requires record.offset + |record.data| <= |flat|
    requires r.Wrote? ==> now == Patch(flat, record.offset, record.data)
    requires r.BaseFailed? ==>
      r.count < |record.data| && now == Patch(flat, record.offset, record.data[..r.count])
    requires !r.Wrote? && !r.BaseFailed? ==> now == flat
    ensures now == Do(flat, Taken(r, record))
  {
    PatchNothing(flat, record.offset, record.data);
  }

  lemma LimboAfterWrite(card: SaveCard, r: WriteResult, record: Record, flat: seq<byte>, limbo: seq<byte>)
    requires |flat| == |limbo| && record.offset + |record.data| <= |flat| && r != WriteOutside
    requires r.Wrote? || r.BaseFailed? ==>
      card.limbo == Patch(limbo, record.offset, record.data) || card.limbo == Patch(flat, record.offset, record.data)
    requires r == JournalFailed ==>
      card.limbo in {flat, limbo, Patch(flat, record.offset, record.data), Patch(limbo, record.offset, record.data)}
    requires r == JournalLimit || r == CardBlocked ==> card.limbo == limbo || card.limbo == flat
    ensures LimboKept(card, Write(record.offset, record.data), r.Wrote?, flat, limbo, Some(record))
  {
  }

  lemma PatchNothing(flat: seq<byte>, offset: nat, data: seq<byte>)
    requires offset + |data| <= |flat|
    ensures Patch(flat, offset, data[..0]) == flat
  {
  }

  /** The states a write went through restart to the card or its limbo, before or after it. */
  lemma LoggedRestartable(card: SaveCard, k: Promise, counted: bool, r: Record, from: nat,
                          flat: seq<byte>, limbo: seq<byte>)
    requires k.c == card.c && k.c.Digests() && |flat| == |limbo| && r.offset + |r.data| <= |flat|
    requires card.Logged(r, from, k.(loads := counted),
      {flat, limbo, Patch(flat, r.offset, r.data), Patch(limbo, r.offset, r.data)})
    ensures AllCoherent(card, from) && AllRestartable(card, from, flat, limbo, Some(r))
  {
  }

  /** A read changes nothing. */
  method PerformRead(card: SaveCard, a: Action) returns (answer: Answer)
    requires card.Valid() && a.Read?
    modifies card.fs`faults
    ensures ReadTruly(a, answer, card.Contents())
    ensures card.fs.reliable ==> (answer.ok <==> Granted(card.c, a))
  {
    var buffer := new byte[a.length];
    var r := card.ReadSaveAt(buffer, a.at);
    answer := Answer(r.Read?, if r.ReadOutside? then 0 else r.count, buffer[..]);
  }

  method PerformFlush(card: SaveCard, a: Action) returns (answer: Answer)
    requires card.Valid() && a.Flush?
    modifies card, card.fs
    ensures Accounted(card, answer, None, old(card.Contents()))
    ensures AllCoherent(card, |old(card.fs.history)|)
    ensures AllRestartable(card, |old(card.fs.history)|, old(card.Contents()), old(card.limbo), None)
    ensures !card.stranded ==> LimboKept(card, a, answer.ok, old(card.Contents()), old(card.limbo), None)
    ensures old(Working(card)) ==> Served(card, answer.ok, a)
    ensures old(card.Intact()) ==> IntactUnless(card, a, answer.ok)
  {
    card.StandingEndures();
    ghost var k, from := card.Standing(), |card.fs.history|;
    var ok := card.FlushCard(k, from);
    KeptRestartable(card, k, from);
    answer := Answer(ok, 0, []);
  }

  method PerformSave(card: SaveCard, a: Action) returns (answer: Answer)
    requires card.Valid() && a.Save?
    modifies card, card.fs
    ensures Accounted(card, answer, None, old(card.Contents()))
    ensures AllCoherent(card, |old(card.fs.history)|)
    ensures AllRestartable(card, |old(card.fs.history)|, old(card.Contents()), old(card.limbo), None)
    ensures !card.stranded ==> LimboKept(card, a, answer.ok, old(card.Contents()), old(card.limbo), None)
    ensures old(Working(card)) ==> Served(card, answer.ok, a)
    ensures old(card.Intact()) ==> IntactUnless(card, a, answer.ok)
  {
    ghost var k, from := card.Standing(), |card.fs.history|;
    var ok := card.Backup(a.stamp);
    KeptRestartable(card, k, from);
    answer := Answer(ok, 0, []);
  }

  lemma KeptRestartable(card: SaveCard, k: Promise, from: nat)
    requires card.fs.Kept(k, from) && k.c == card.c
    ensures AllCoherent(card, from) && AllRestartable(card, from, k.x, k.y, None)
  {
    forall i | from <= i < |card.fs.history| ensures Restartable(card.c, card.fs.history[i], k.x, k.y, None) {
      assert Endures(k, card.fs.history[i]);
    }
  }

  method PerformRestore(card: SaveCard, a: Action) returns (answer: Answer, ghost part: Part)
    requires card.Valid() && a.Restore?
    modifies card, card.fs
    ensures Answered(card.c.cardSize, a, answer, part) && Accounted(card, answer, part, old(card.Contents()))
    ensures part.None? || part == old(Whole(card, card.fs.disk, a))
    ensures answer.ok ==> part == old(Whole(card, card.fs.disk, a))
    ensures AllCoherent(card, |old(card.fs.history)|)
    ensures !old(Haunted(card, a)) ==>
      AllRestartable(card, |old(card.fs.history)|, old(card.Contents()), old(card.limbo),
        old(Whole(card, card.fs.disk, a)))
    ensures !old(Haunted(card, a)) && !card.stranded ==>
      LimboKept(card, a, answer.ok, old(card.Contents()), old(card.limbo), old(Whole(card, card.fs.disk, a)))
    ensures old(Working(card)) ==> Served(card, answer.ok, a)
    ensures old(card.Intact()) ==> IntactUnless(card, a, answer.ok)
  {
    ghost var flat, limbo, whole := card.Contents(), card.limbo, Whole(card, card.fs.disk, a);
    ghost var from, haunted, k := |card.fs.history|, Haunted(card, a), card.Standing().(quiet := false);
    ghost var restored: seq<byte> := [];
    if whole.Some? {
      restored := card.Restored(whole.value.data);
      if !haunted {
        card.CarriedRestored(whole.value.data);
      }
      DoWhole(flat, whole.value);
    }
    var ok := card.Restore(a.name, a.stamp);
    if whole.Some? {
      ExchangeRestartable(card, k, from, flat, limbo, whole, restored);
    }
    part := if card.stranded || (card.Contents() == flat && !ok) then None else whole;
    answer := Answer(ok, 0, []);
  }

  method PerformUpload(card: SaveCard, a: Action) returns (answer: Answer, ghost part: Part)
    requires card.Valid() && a.Upload?
    modifies card, card.fs
    ensures Answered(card.c.cardSize, a, answer, part) && Accounted(card, answer, part, old(card.Contents()))
    ensures part.None? || part == old(Whole(card, card.fs.disk, a))
    ensures answer.ok ==> part == old(Whole(card, card.fs.disk, a))
    ensures AllCoherent(card, |old(card.fs.history)|)
    ensures !old(Haunted(card, a)) ==>
      AllRestartable(card, |old(card.fs.history)|, old(card.Contents()), old(card.limbo),
        old(Whole(card, card.fs.disk, a)))
    ensures !old(Haunted(card, a)) && !card.stranded ==>
      LimboKept(card, a, answer.ok, old(card.Contents()), old(card.limbo), old(Whole(card, card.fs.disk, a)))
    ensures old(Working(card)) ==> Served(card, answer.ok, a)
    ensures old(card.Intact()) ==> IntactUnless(card, a, answer.ok)
  {
    ghost var flat, limbo, whole := card.Contents(), card.limbo, Whole(card, card.fs.disk, a);
    ghost var from, haunted, k := |card.fs.history|, Haunted(card, a), card.Standing().(quiet := false);
    ghost var restored: seq<byte> := [];
    if whole.Some? {
      restored := card.Restored(whole.value.data);
      if !haunted {
        card.CarriedRestored(whole.value.data);
      }
      DoWhole(flat, whole.value);
    }
    var ok := card.Upload(a.stream, a.size, a.stamp);
    if whole.Some? {
      ExchangeRestartable(card, k, from, flat, limbo, whole, restored);
    } else {
      KeptRestartable(card, k, from);
    }
    part := if card.stranded || (card.Contents() == flat && !ok) then None else whole;
    answer := Answer(ok, 0, []);
  }

  lemma DoWhole(flat: seq<byte>, r: Record)
    requires r.offset == 0 && |r.data| == |flat|
    ensures Do(flat, Some(r)) == r.data
  {
  }

  /** The states an exchange went through restart to the card, its limbo or the chosen image. */
  lemma ExchangeRestartable(card: SaveCard, k: Promise, from: nat, flat: seq<byte>, limbo: seq<byte>, whole: Part,
                            restored: seq<byte>)
    requires k.c == card.c && card.LandedAmong(k, from, {flat, limbo, restored})
    requires whole.Some? && whole.value.offset == 0 && |whole.value.data| == |flat|
    ensures AllCoherent(card, from)
    ensures restored == whole.value.data ==> AllRestartable(card, from, flat, limbo, whole)
  {
    DoWhole(flat, whole.value);
  }

  /**
   * A run so far: which steps were acknowledged, what each did to the card, and what each did to
   * the card that a restart would bring back.
   */
  datatype Trace = Trace(steps: seq<Step>, acks: seq<bool>, applied: seq<Part>, maybe: seq<Part>)
  {
    ghost predicate Sound(cardSize: nat) {
      && |acks| == |applied| == |maybe| == |steps|
      && forall i :: 0 <= i < |acks| ==> Traced(cardSize, i)
    }

    ghost predicate Traced(cardSize: nat, i: nat)
      requires i < |acks| == |applied| == |maybe| == |steps|
    {
      && Stems(cardSize, steps[i].action, applied[i]) && Stems(cardSize, steps[i].action, maybe[i])
      && (acks[i] ==> Full(steps[i].action, applied[i]) && maybe[i] == applied[i])
    }
  }

  /** The card holds exactly the applied parts, and limbo exactly the possible ones. */
  ghost predicate Explains(t: Trace, start: seq<byte>, flat: seq<byte>, limbo: seq<byte>) {
    t.Sound(|start|) && flat == AfterParts(start, t.applied) && limbo == AfterParts(start, t.maybe)
  }

  /** One more step, which may go on from what was applied or, after a restart, from what was possible. */
  lemma TraceGrows(t: Trace, start: seq<byte>, step: Step, ack: bool,
                   front: seq<Part>, part: Part, back: seq<Part>, might: Part) returns (u: Trace)
    requires t.Sound(|start|) && (front == t.applied || front == t.maybe) && (back == t.applied || back == t.maybe)
    requires Stems(|start|, step.action, part) && Stems(|start|, step.action, might)
    requires ack ==> Full(step.action, part) && might == part
    ensures u.steps == t.steps + [step] && u.acks == t.acks + [ack]
    ensures Explains(u, start, Do(AfterParts(start, front), part), Do(AfterParts(start, back), might))
  {
    u := Trace(t.steps + [step], t.acks + [ack], front + [part], back + [might]);
    PartsSnoc(start, front, part);
    PartsSnoc(start, back, might);
    forall i | 0 <= i < |u.acks| ensures u.Traced(|start|, i) {
      assert i < |t.acks| ==> t.Traced(|start|, i);
    }
  }

  /** What a run knows after an action that no power cut interrupted. */
  lemma ExplainsPerformed(t: Trace, start: seq<byte>, flat: seq<byte>, limbo: seq<byte>, step: Step,
                          ok: bool, part: Part, whole: Part, limbo': seq<byte>) returns (u: Trace)
    requires Explains(t, start, flat, limbo) && Explicable(limbo', flat, limbo, whole)
    requires Stems(|start|, step.action, part) && Stems(|start|, step.action, whole)
    requires ok ==> Full(step.action, part) && part == whole
    requires ok && Full(step.action, whole) ==> limbo' == Do(flat, whole) || limbo' == Do(limbo, whole)
    ensures Explains(u, start, Do(flat, part), limbo') && u.steps == t.steps + [step] && u.acks == t.acks + [ok]
  {
    if limbo' == Do(flat, whole) {
      u := TraceGrows(t, start, step, ok, t.applied, part, t.applied, whole);
    } else if limbo' == Do(limbo, whole) {
      u := TraceGrows(t, start, step, ok, t.applied, part, t.maybe, whole);
    } else if limbo' == flat {
      u := TraceGrows(t, start, step, ok, t.applied, part, t.applied, None);
    } else {
      u := TraceGrows(t, start, step, ok, t.applied, part, t.maybe, None);
    }
  }

  /** What a run knows once a restart after a power cut has picked one of the outcomes. */
  lemma ExplainsRestarted(t: Trace, start: seq<byte>, flat: seq<byte>, limbo: seq<byte>, step: Step,
                          whole: Part, now: seq<byte>) returns (u: Trace)
    requires Explains(t, start, flat, limbo) && Explicable(now, flat, limbo, whole)
    requires Stems(|start|, step.action, whole)
    ensures Explains(u, start, now, now) && u.steps == t.steps + [step] && u.acks == t.acks + [false]
  {
    if now == Do(flat, whole) {
      u := TraceGrows(t, start, step, false, t.applied, whole, t.applied, whole);
    } else if now == Do(limbo, whole) {
      u := TraceGrows(t, start, step, false, t.maybe, whole, t.maybe, whole);
    } else if now == flat {
      u := TraceGrows(t, start, step, false, t.applied, None, t.applied, None);
    } else {
      u := TraceGrows(t, start, step, false, t.maybe, None, t.maybe, None);
    }
  }

  /** The durable state a power cut leaves: one the action passed through, or the one before it. */
  function LastDurable(history: seq<Disk>, before: Disk, from: nat, cut: nat): Disk {
    if cut == 0 || from + cut > |history| then before else history[from + cut - 1]
  }

  /** The power comes back: the directory may fail again, and the card may be refused. */
  method Restart(c: Config, d: Disk, reliable: bool, links: bool) returns (card: Option<SaveCard>)
    requires c.Valid() && Coherent(d)
    ensures card.Some? ==> fresh(card.value) && fresh(card.value.fs) && card.value.c == c && card.value.Valid()
    ensures card.Some? ==> card.value.Intact() && Yields(c, d, card.value.Contents())
    ensures card.Some? ==> card.value.fs.reliable == reliable && card.value.fs.links == links
    ensures reliable && links ==> (card.Some? <==> OpensTo(c, d).Some?)
  {
    var fs := new FileSystem(d, reliable, links);
    ghost var lands := if Base(d).Some? then After(c, Base(d).value, d.journal) else [];
    card := OpenCard(c, fs, Promise(c, lands, lands, false, false, false, false, []), 0);
  }

  /** An open card whose contents the trace explains. */
  ghost predicate Explained(card: SaveCard, t: Trace, start: seq<byte>)
    reads card, card.fs
  {
    card.Valid() && Explains(t, start, card.Contents(), card.limbo)
  }

  /** What a step leaves behind: a card whose trace goes on, unless an exchange left a failed write. */
  ghost predicate StepsOn(card: SaveCard, next: SaveCard, explained: bool, t: Trace, u: Trace, start: seq<byte>,
                          step: Step, ack: bool)
    reads card, card.fs, next, next.fs
  {
    && next.Valid() && next.c == card.c && next.fs.reliable == card.fs.reliable && next.fs.links == card.fs.links
    && (explained ==> Explained(next, u, start) && u.steps == t.steps + [step] && u.acks == t.acks + [ack])
  }

  /** One step: the action, and a restart if the power failed during it. */
  method Advance(card: SaveCard, step: Step, ghost explained: bool, ghost t: Trace, ghost start: seq<byte>)
    returns (next: Option<SaveCard>, ack: bool, ghost u: Trace)
    requires card.Valid() && (explained ==> Explained(card, t, start) && !Haunted(card, step.action))
    modifies card, card.fs
    ensures next.Some? ==> (next.value == card || fresh(next.value))
    ensures next.Some? ==> (next.value.fs == card.fs || fresh(next.value.fs))
    ensures next.Some? ==> StepsOn(card, next.value, explained, t, u, start, step, ack)
    ensures next.Some? && old(card.Intact()) && (step.powerCut.None? && step.action.Write? ==> ack) ==>
      next.value.Intact()
    ensures old(Working(card)) && card.fs.links && next.Some? ==> Working(next.value)
    ensures old(Working(card)) && step.powerCut.None? ==>
      next.Some? && (step.action.Plain() ==> (ack <==> Granted(card.c, step.action)))
  {
    if step.powerCut.None? {
      next, ack, u := AdvanceLive(card, step, explained, t, start);
    } else {
      ack := false;
      next, u := AdvanceCut(card, step, explained, t, start);
    }
  }

  /** A step that no power cut interrupts. */
  method AdvanceLive(card: SaveCard, step: Step, ghost explained: bool, ghost t: Trace, ghost start: seq<byte>)
    returns (next: Option<SaveCard>, ack: bool, ghost u: Trace)
    requires card.Valid() && (explained ==> Explained(card, t, start) && !Haunted(card, step.action))
    modifies card, card.fs
    ensures next.Some? ==> next.value == card && StepsOn(card, card, explained, t, u, start, step, ack)
    ensures next.Some? && old(card.Intact()) && (step.action.Write? ==> ack) ==> card.Intact()
    ensures old(Working(card)) ==> next.Some? && Served(card, ack, step.action)
  {
    ghost var flat, limbo, whole := card.Contents(), card.limbo, Whole(card, card.fs.disk, step.action);
    u := t;
    ghost var part;
    var answer;
    answer, part := Perform(card, step.action);
    ack := answer.ok;
    if card.stranded {
      return None, ack, u;
    }
    next := Some(card);
    if explained {
      u := ExplainsPerformed(t, start, flat, limbo, step, ack, part, whole, card.limbo);
    }
  }

  /** A step during which the power fails, and the restart after it. */
  method AdvanceCut(card: SaveCard, step: Step, ghost explained: bool, ghost t: Trace, ghost start: seq<byte>)
    returns (next: Option<SaveCard>, ghost u: Trace)
    requires card.Valid() && (explained ==> Explained(card, t, start) && !Haunted(card, step.action))
    requires step.powerCut.Some?
    modifies card, card.fs
    ensures next.Some? ==> fresh(next.value) && fresh(next.value.fs)
    ensures next.Some? ==> StepsOn(card, next.value, explained, t, u, start, step, false)
    ensures next.Some? ==> next.value.Intact()
  {
    ghost var flat, limbo, whole := card.Contents(), card.limbo, Whole(card, card.fs.disk, step.action);
    var d := PerformAndCut(card, step.action, step.powerCut.value);
    next := Restart(card.c, d, card.fs.reliable, card.fs.links);
    u := t;
    if explained && next.Some? {
      u := CutExplains(card.c, d, t, start, flat, limbo, step, whole, next.value.Contents());
    }
  }

  lemma CutExplains(c: Config, d: Disk, t: Trace, start: seq<byte>, flat: seq<byte>, limbo: seq<byte>, step: Step,
                    whole: Part, now: seq<byte>) returns (u: Trace)
    requires Explains(t, start, flat, limbo) && Stems(|start|, step.action, whole)
    requires Restartable(c, d, flat, limbo, whole) && Yields(c, d, now)
    ensures Explains(u, start, now, now) && u.steps == t.steps + [step] && u.acks == t.acks + [false]
  {
    u := ExplainsRestarted(t, start, flat, limbo, step, whole, now);
  }

  /** The disk that is left when the power fails during an action. */
  method PerformAndCut(card: SaveCard, a: Action, cut: nat) returns (d: Disk)
    requires card.Valid()
    modifies card, card.fs
    ensures Coherent(d)
    ensures !old(Haunted(card, a)) ==>
      Restartable(card.c, d, old(card.Contents()), old(card.limbo), old(Whole(card, card.fs.disk, a)))
  {
    var before, from := card.fs.disk, |card.fs.history|;
    StartRestartable(card, Whole(card, card.fs.disk, a));
    var _, _ := Perform(card, a);
    d := LastDurable(card.fs.history, before, from, cut);
  }

  /** The state a step begins with restarts to the card or its limbo. */
  lemma StartRestartable(card: SaveCard, whole: Part)
    requires card.Valid()
    ensures Coherent(card.fs.disk) && Restartable(card.c, card.fs.disk, card.Contents(), card.limbo, whole)
  {
    card.StandingEndures();
  }

  /** Every plain request outside a power cut was granted exactly when it had to be. */
  ghost predicate AllServed(c: Config, steps: seq<Step>, acks: seq<bool>)
    requires |acks| <= |steps|
  {
    forall i :: 0 <= i < |acks| && steps[i].powerCut.None? && steps[i].action.Plain() ==>
      (acks[i] <==> Granted(c, steps[i].action))
  }

  ghost predicate NoPowerCut(steps: seq<Step>) {
    forall i :: 0 <= i < |steps| ==> steps[i].powerCut.None?
  }

  /** A write that failed though the power did not. */
  predicate FailedWrite(step: Step, ack: bool) {
    step.action.Write? && step.powerCut.None? && !ack
  }

  /** No write has failed. */
  ghost predicate AllWritten(steps: seq<Step>, acks: seq<bool>)
    requires |acks| <= |steps|
  {
    forall i :: 0 <= i < |acks| ==> !FailedWrite(steps[i], acks[i])
  }

  /** No restore or upload comes after a failed write. */
  ghost predicate Untroubled(steps: seq<Step>, acks: seq<bool>)
    requires |acks| <= |steps|
  {
    forall i, j :: 0 <= i < j < |acks| && FailedWrite(steps[i], acks[i]) ==> !steps[j].action.Exchanges()
  }

  lemma ServedOneMore(c: Config, steps: seq<Step>, acks: seq<bool>, ack: bool)
    requires |acks| < |steps| && AllServed(c, steps, acks)
    requires var s := steps[|acks|];
      s.powerCut.None? && s.action.Plain() ==> (ack <==> Granted(c, s.action))
    ensures AllServed(c, steps, acks + [ack])
  {
  }

  /** What one more step means for the writes and exchanges of a run. */
  lemma OneMoreStep(steps: seq<Step>, acks: seq<bool>, ack: bool)
    requires |acks| < |steps|
    ensures AllWritten(steps, acks + [ack]) ==> AllWritten(steps, acks) && !FailedWrite(steps[|acks|], ack)
    ensures Untroubled(steps, acks + [ack]) ==> Untroubled(steps, acks)
    ensures Untroubled(steps, acks + [ack]) && steps[|acks|].action.Exchanges() ==> AllWritten(steps, acks)
  {
    var more := acks + [ack];
    assert forall i :: 0 <= i < |acks| ==> more[i] == acks[i];
    if Untroubled(steps, more) && steps[|acks|].action.Exchanges() {
      forall i | 0 <= i < |acks| ensures !FailedWrite(steps[i], acks[i]) {
        assert more[i] == acks[i];
      }
    }
  }

  /**
   * Whole runs. Whatever faults and power cuts happen, a card that still opens holds the start image
   * with the steps' parts applied in order: of an acknowledged step the whole, of any other a prefix
   * of its write, the image of its exchange, or nothing. Only an exchange after a failed write is
   * excepted. Where storage does not fail and has hard links, exactly the plain requests within the
   * limits are granted, and without a power cut the run stops nowhere.
   */
  method RunSteps(c: Config, d: Disk, steps: seq<Step>, reliable: bool, links: bool, ghost start: seq<byte>)
    returns (card: Option<SaveCard>, acks: seq<bool>, ghost applied: seq<Part>)
    requires c.Valid() && Coherent(d) && Lands(c, d, start, start) && |start| == c.cardSize
    ensures card.Some? ==> card.value.Valid() && |acks| == |steps|
    ensures card.Some? && Untroubled(steps, acks) ==>
      |applied| == |steps| && card.value.Contents() == AfterParts(start, applied)
    ensures card.Some? && Untroubled(steps, acks) ==>
      forall i :: 0 <= i < |steps| ==>
        Stems(c.cardSize, steps[i].action, applied[i]) && (acks[i] ==> Full(steps[i].action, applied[i]))
    ensures card.Some? && reliable && links ==> AllServed(c, steps, acks)
    ensures reliable && links && NoPowerCut(steps) ==> (card.Some? <==> OpensTo(c, d).Some?)
  {
    ghost var t;
    card, t := FirstStart(c, d, reliable, links, start);
    acks, applied := [], [];
    while card.Some? && |acks| < |steps|
      invariant |acks| <= |steps|
      invariant card.Some? ==> fresh(card.value) && fresh(card.value.fs)
      invariant card.Some? ==> Underway(card.value, c, reliable, links, t, start, steps, acks)
      invariant reliable && links && NoPowerCut(steps) ==> (card.Some? <==> OpensTo(c, d).Some?)
      decreases |steps| - |acks|
    {
      card, acks, t := RunOn(card.value, c, reliable, links, t, start, steps, acks);
    }
    if card.Some? {
      applied := t.applied;
      RunEnds(card.value, t, start, steps, acks);
    }
  }

  lemma RunEnds(card: SaveCard, t: Trace, start: seq<byte>, steps: seq<Step>, acks: seq<bool>)
    requires |acks| == |steps| && |start| == card.c.cardSize
    requires Untroubled(steps, acks) ==> Explained(card, t, start) && t.steps == steps[..|acks|] && t.acks == acks
    ensures Untroubled(steps, acks) ==>
      |t.applied| == |steps| && forall i :: 0 <= i < |steps| ==>
        Stems(card.c.cardSize, steps[i].action, t.applied[i]) && (acks[i] ==> Full(steps[i].action, t.applied[i]))
  {
    assert steps[..|acks|] == steps;
    if Untroubled(steps, acks) {
      forall i | 0 <= i < |steps|
        ensures Stems(card.c.cardSize, steps[i].action, t.applied[i])
        ensures acks[i] ==> Full(steps[i].action, t.applied[i])
      {
        assert t.Traced(|start|, i);
      }
    }
  }

  /** A run has performed as many steps as it has acknowledgements. */
  ghost predicate Underway(card: SaveCard, c: Config, reliable: bool, links: bool,
                           t: Trace, start: seq<byte>, steps: seq<Step>, acks: seq<bool>)
    reads card, card.fs
  {
    && card.c == c && card.fs.reliable == reliable && card.fs.links == links && |acks| <= |steps| && card.Valid()
    && (Untroubled(steps, acks) ==>
      Explained(card, t, start) && t.steps == steps[..|acks|] && t.acks == acks)
    && (AllWritten(steps, acks) ==> card.Intact())
    && (reliable && links ==> Working(card) && AllServed(c, steps, acks))
  }

  method RunOn(card: SaveCard, c: Config, reliable: bool, links: bool,
               ghost t: Trace, ghost start: seq<byte>, steps: seq<Step>, acks: seq<bool>)
    returns (next: Option<SaveCard>, more: seq<bool>, ghost u: Trace)
    requires Underway(card, c, reliable, links, t, start, steps, acks) && |acks| < |steps|
    modifies card, card.fs
    ensures |more| == |acks| + 1
    ensures next.Some? ==> (next.value == card || fresh(next.value))
    ensures next.Some? ==> (next.value.fs == card.fs || fresh(next.value.fs))
    ensures next.Some? ==> Underway(next.value, c, reliable, links, u, start, steps, more)
    ensures reliable && links && NoPowerCut(steps) ==> next.Some?
  {
    var step := steps[|acks|];
    ghost var explained := Untroubled(steps, acks) && (step.action.Exchanges() ==> AllWritten(steps, acks));
    if explained && step.action.Exchanges() {
      IntactNotHaunted(card, step.action);
    }
    var ack: bool;
    next, ack, u := Advance(card, step, explained, t, start);
    assert steps[..|acks| + 1] == steps[..|acks|] + [step];
    more := acks + [ack];
    OneMoreStep(steps, acks, ack);
    if next.Some? && reliable && links {
      ServedOneMore(c, steps, acks, ack);
    }
  }

  lemma IntactNotHaunted(card: SaveCard, a: Action)
    requires card.Valid() && card.Intact()
    ensures !Haunted(card, a)
  {
    var whole := Whole(card, card.fs.disk, a);
    if a.Exchanges() && whole.Some? {
      card.IntactCarried(whole.value.data);
    }
  }

  /** The startup that a run begins with. */
  method FirstStart(c: Config, d: Disk, reliable: bool, links: bool, ghost start: seq<byte>)
    returns (card: Option<SaveCard>, ghost t: Trace)
    requires c.Valid() && Coherent(d) && Lands(c, d, start, start)
    ensures card.Some? ==> fresh(card.value) && fresh(card.value.fs)
    ensures card.Some? ==> Underway(card.value, c, reliable, links, t, start, [], [])
    ensures reliable && links ==> (card.Some? <==> OpensTo(c, d).Some?)
  {
    card := Restart(c, d, reliable, links);
    t := Trace([], [], [], []);
  }

  /** The answer to step `i` fits what it did and, for a read, the flat array at that moment. */
  ghost predicate TrueAnswer(cardSize: nat, start: seq<byte>, steps: seq<Step>, answers: seq<Answer>,
                             parts: seq<Part>, i: nat)
    requires i < |answers| == |parts| <= |steps|
  {
    && Answered(cardSize, steps[i].action, answers[i], parts[i])
    && ReadTruly(steps[i].action, answers[i], AfterParts(start, parts[..i]))
  }

  ghost predicate TrueAnswers(cardSize: nat, start: seq<byte>, steps: seq<Step>, answers: seq<Answer>,
                              parts: seq<Part>)
  {
    && |answers| == |parts| <= |steps|
    && forall i :: 0 <= i < |answers| ==> TrueAnswer(cardSize, start, steps, answers, parts, i)
  }

  lemma TrueAnswersGrow(cardSize: nat, start: seq<byte>, steps: seq<Step>, answers: seq<Answer>, parts: seq<Part>,
                        answer: Answer, part: Part)
    requires TrueAnswers(cardSize, start, steps, answers, parts) && |answers| < |steps|
    requires Answered(cardSize, steps[|answers|].action, answer, part)
    requires ReadTruly(steps[|answers|].action, answer, AfterParts(start, parts))
    ensures TrueAnswers(cardSize, start, steps, answers + [answer], parts + [part])
    ensures AfterParts(start, parts + [part]) == Do(AfterParts(start, parts), part)
  {
    PartsSnoc(start, parts, part);
    var more := parts + [part];
    forall i | 0 <= i < |more| ensures TrueAnswer(cardSize, start, steps, answers + [answer], more, i) {
      if i < |answers| {
        assert TrueAnswer(cardSize, start, steps, answers, parts, i);
        assert more[..i] == parts[..i];
      } else {
        assert more[..i] == parts;
      }
    }
  }

  /**
   * Without power cuts the card is one flat array, whatever fails: it holds the parts that the
   * answers name, in order. Of a write that is exactly the bytes it counts, also when it fails; what
   * a read counts is what the array held at that moment. Automatic flushes do not show. A working
   * card grants exactly the plain requests within its limits.
   */
  method RunLive(card: SaveCard, steps: seq<Step>) returns (answers: seq<Answer>, ghost parts: seq<Part>)
    requires card.Valid() && NoPowerCut(steps)
    modifies card, card.fs
    ensures TrueAnswers(card.c.cardSize, old(card.Contents()), steps, answers, parts)
    ensures !card.stranded ==> |answers| == |steps| && card.Valid()
    ensures !card.stranded ==> card.Contents() == AfterParts(old(card.Contents()), parts)
    ensures old(Working(card)) ==> Working(card) && AllServed(card.c, steps, Acks(answers))
  {
    ghost var start, working := card.Contents(), Working(card);
    answers, parts := [], [];
    while !card.stranded && |answers| < |steps|
      invariant TrueAnswers(card.c.cardSize, start, steps, answers, parts)
      invariant !card.stranded ==> card.Valid() && card.Contents() == AfterParts(start, parts)
      invariant working ==> Working(card) && AllServed(card.c, steps, Acks(answers))
      decreases |steps| - |answers|
    {
      answers, parts := LiveStep(card, steps, answers, parts, start);
    }
  }

  function Acks(answers: seq<Answer>): (acks: seq<bool>)
    ensures |acks| == |answers| && forall i :: 0 <= i < |acks| ==> acks[i] == answers[i].ok
  {
    seq(|answers|, i requires 0 <= i < |answers| => answers[i].ok)
  }

  method LiveStep(card: SaveCard, steps: seq<Step>, answers: seq<Answer>, ghost parts: seq<Part>,
                  ghost start: seq<byte>)
    returns (more: seq<Answer>, ghost moreParts: seq<Part>)
    requires TrueAnswers(card.c.cardSize, start, steps, answers, parts) && |answers| < |steps|
    requires !card.stranded && card.Valid() && card.Contents() == AfterParts(start, parts)
    modifies card, card.fs
    ensures TrueAnswers(card.c.cardSize, start, steps, more, moreParts) && |more| == |answers| + 1
    ensures !card.stranded ==> card.Valid() && card.Contents() == AfterParts(start, moreParts)
    ensures old(Working(card)) && AllServed(card.c, steps, Acks(answers)) ==>
      Working(card) && AllServed(card.c, steps, Acks(more))
  {
    ghost var working, served := Working(card), AllServed(card.c, steps, Acks(answers));
    var answer: Answer;
    ghost var part;
    answer, part := Perform(card, steps[|answers|].action);
    TrueAnswersGrow(card.c.cardSize, start, steps, answers, parts, answer, part);
    more, moreParts := answers + [answer], parts + [part];
    if working && served {
      ServedOneMore(card.c, steps, Acks(answers), answer.ok);
      assert Acks(more) == Acks(answers) + [answer.ok];
    }
  }

  /** One startup that is cut off: whether storage works and links exist, and where the power fails. */
  datatype Interruption = Interruption(reliable: bool, links: bool, cut: nat)

  /** The disk after some interrupted startups, each the history of the directory during one. */
  function DiskAfter(d: Disk, startups: seq<seq<Disk>>, cuts: seq<Interruption>): Disk
    requires |startups| == |cuts|
  {
    if startups == [] then d
    else
      var n := |startups| - 1;
      AfterCut(startups[n], DiskAfter(d, startups[..n], cuts[..n]), 0, cuts[n].cut)
  }

  /**
   * A startup from `d` that went through `history`: every state still leads to `start`, a startup
   * that came to its end left the journal empty, and where storage works it does exactly when the
   * disk opens.
   */
  ghost predicate Started(c: Config, d: Disk, history: seq<Disk>, cut: Interruption, through: bool, start: seq<byte>) {
    && |history| > 0 && history[0] == d
    && (forall i :: 0 <= i < |history| ==> Coherent(history[i]) && Lands(c, history[i], start, start))
    && (through ==> Yields(c, d, start) && Drained(history[|history| - 1], start))
    && (cut.reliable && cut.links ==> (through <==> OpensTo(c, d).Some?))
  }

  /** The directory of a card that has just been opened: the image is active, the journal empty. */
  predicate Drained(d: Disk, start: seq<byte>) {
    Active in d.raw && d.raw[Active].bytes == start && d.journal == []
  }

  /**
   * Any number of interrupted startups in a row never change what a startup yields: each begins with
   * the disk that the one before left behind where it was cut off, and the last, on storage that
   * works, opens the card exactly when its disk does.
   */
  method InterruptedStartups(c: Config, d: Disk, cuts: seq<Interruption>, ghost start: seq<byte>)
    returns (startups: seq<seq<Disk>>, through: seq<bool>, card: Option<SaveCard>)
    requires c.Valid() && Coherent(d) && Lands(c, d, start, start)
    ensures |startups| == |through| == |cuts|
    ensures forall n :: 0 <= n < |cuts| ==>
      Started(c, DiskAfter(d, startups[..n], cuts[..n]), startups[n], cuts[n], through[n], start)
    ensures Lands(c, DiskAfter(d, startups, cuts), start, start)
    ensures card.Some? <==> OpensTo(c, DiskAfter(d, startups, cuts)).Some?
    ensures card.Some? ==> card.value.Valid() && card.value.Contents() == start
  {
    startups, through := [], [];
    var now := d;
    while |startups| < |cuts|
      invariant AllStarted(c, d, startups, cuts, through, start)
      invariant now == DiskAfter(d, startups, cuts[..|startups|]) && Coherent(now) && Lands(c, now, start, start)
      decreases |cuts| - |startups|
    {
      var history, ok := StartAndCut(c, now, cuts[|startups|], start);
      AllStartedGrows(c, d, startups, cuts, through, start, history, ok);
      now := AfterCut(history, now, 0, cuts[|startups|].cut);
      startups, through := startups + [history], through + [ok];
    }
    assert cuts[..|cuts|] == cuts;
    card := Restart(c, now, true, true);
  }

  ghost predicate AllStarted(c: Config, d: Disk, startups: seq<seq<Disk>>, cuts: seq<Interruption>,
                             through: seq<bool>, start: seq<byte>)
  {
    && |startups| == |through| <= |cuts|
    && forall n :: 0 <= n < |startups| ==>
      Started(c, DiskAfter(d, startups[..n], cuts[..n]), startups[n], cuts[n], through[n], start)
  }

  lemma AllStartedGrows(c: Config, d: Disk, startups: seq<seq<Disk>>, cuts: seq<Interruption>, through: seq<bool>,
                        start: seq<byte>, history: seq<Disk>, ok: bool)
    requires AllStarted(c, d, startups, cuts, through, start) && |startups| < |cuts|
    requires Started(c, DiskAfter(d, startups, cuts[..|startups|]), history, cuts[|startups|], ok, start)
    ensures AllStarted(c, d, startups + [history], cuts, through + [ok], start)
    ensures DiskAfter(d, startups + [history], cuts[..|startups| + 1])
      == AfterCut(history, DiskAfter(d, startups, cuts[..|startups|]), 0, cuts[|startups|].cut)
  {
    var more := startups + [history];
    forall n | 0 <= n < |more|
      ensures Started(c, DiskAfter(d, more[..n], cuts[..n]), more[n], cuts[n], (through + [ok])[n], start)
    {
      assert more[..n] == if n < |startups| then startups[..n] else startups;
    }
    assert more[..|startups|] == startups;
    assert cuts[..|startups| + 1][..|startups|] == cuts[..|startups|];
  }

  method StartAndCut(c: Config, d: Disk, cut: Interruption, ghost start: seq<byte>)
    returns (history: seq<Disk>, through: bool)
    requires c.Valid() && Coherent(d) && Lands(c, d, start, start)
    ensures Started(c, d, history, cut, through, start)
  {
    var fs := new FileSystem(d, cut.reliable, cut.links);
    var card := OpenCard(c, fs, Promise(c, start, start, false, false, false, false, [d]), 0);
    assert [d][0] == d;
    history, through := fs.history + [fs.disk], card.Some?;
    if card.Some? {
      OverlayNothing(card.value.file.value);
    }
  }
}
