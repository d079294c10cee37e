/** The game catalog: scans reconcile it in one transaction, acknowledgements remove confirmed losses. */
module Catalog {
  import opened Basics

  datatype Availability = Playable | ValidationRequired | MissingConfirmed

  datatype Key = Key(platform: string, id: string)

  datatype Row = Row(payload: string, availability: Availability, missing: nat, lastSeen: int, confirmed: Option<int>)

  type Rows = map<Key, Row>

  /** One scanned item; `json` tells whether its payload is well-formed. */
  datatype Item = Item(id: string, payload: string, json: bool)

  /** A scan: what it found on each platform, in order. */
  type Catalogs = map<string, seq<Item>>

  ghost predicate Named(items: seq<Item>, id: string) {
    exists i :: 0 <= i < |items| && items[i].id == id
  }

  /** No later item has the id of item i. */
  ghost predicate Final(items: seq<Item>, i: int) {
    0 <= i < |items| && forall j :: i < j < |items| ==> items[j].id != items[i].id
  }

  ghost predicate Saw(catalogs: Catalogs, k: Key) {
    k.platform in catalogs && Named(catalogs[k.platform], k.id)
  }

  /** Where the last item of an id is. */
  ghost function FinalIndex(items: seq<Item>, id: string): (i: int)
    requires Named(items, id)
    ensures Final(items, i) && items[i].id == id
  {
    var n := |items| - 1;
    if items[n].id == id then n
    else
      assert Named(items[..n], id) by {
        var i :| 0 <= i < |items| && items[i].id == id;
        assert items[..n][i].id == id;
      }
      FinalIndex(items[..n], id)
  }

  /** A scan lists its items: the row under each id is a fresh one with the last payload of that id. */
  ghost predicate Stored(rows: Rows, platform: string, items: seq<Item>, now: int) {
    forall i :: Final(items, i) ==>
      && Key(platform, items[i].id) in rows
      && rows[Key(platform, items[i].id)] == Row(items[i].payload, Playable, 0, now, None)
  }

  /** One more scan of its platform omitted the row; the first confirmation time stays. */
  ghost predicate Omitted(before: Row, after: Row, threshold: int, now: int) {
    && after.payload == before.payload && after.lastSeen == before.lastSeen && after.missing == before.missing + 1
    && after.availability == (if before.missing + 1 >= threshold then MissingConfirmed else ValidationRequired)
    && after.confirmed ==
       if before.confirmed == None && before.missing + 1 >= threshold then Some(now) else before.confirmed
  }

  /** `after` is `before` with the scanned platforms reconciled, and nothing else changed. */
  ghost predicate Reconciled(before: Rows, after: Rows, catalogs: Catalogs, threshold: int, now: int) {
    && (forall k :: k in after <==> k in before || Saw(catalogs, k))
    && (forall p :: p in catalogs ==> Stored(after, p, catalogs[p], now))
    && (forall k :: k in before && k.platform in catalogs && !Saw(catalogs, k) ==>
      Omitted(before[k], after[k], threshold, now))
    && (forall k :: k in before && k.platform !in catalogs ==> after[k] == before[k])
  }

  /** The items of a scan leave no choice about the catalog. */
  lemma ReconciledOneWay(before: Rows, a: Rows, b: Rows, catalogs: Catalogs, threshold: int, now: int)
    requires Reconciled(before, a, catalogs, threshold, now) && Reconciled(before, b, catalogs, threshold, now)
    ensures a == b
  {
    forall k | k in a ensures k in b && a[k] == b[k] {
      if Saw(catalogs, k) {
        var i := FinalIndex(catalogs[k.platform], k.id);
        assert Key(k.platform, catalogs[k.platform][i].id) == k;
      }
    }
  }

  /** Upserts what was seen, then marks what was not, on the rows of an open transaction. */
  method ReconcileCatalog(rows: Rows, platform: string, current: seq<Item>, confirmation: int, now: int)
    returns (tx: Rows, ok: bool)
    ensures ok <==>
      && (platform == "wii" || platform == "gamecube")
      && forall i :: 0 <= i < |current| ==> current[i].id != "" && current[i].json
    ensures ok ==>
      Reconciled(rows, tx, map[platform := current], if confirmation < 1 then 2 else confirmation, now)
  {
    if platform != "wii" && platform != "gamecube" { return rows, false; }
    var threshold := if confirmation < 1 then 2 else confirmation;
    var seen: set<string>;
    tx, seen, ok := UpsertSeen(rows, platform, current, now);
    if !ok { return rows, false; }
    ghost var upserted := tx;
    tx := MarkMissing(tx, platform, seen, threshold, now);
    MarkedReconciles(rows, upserted, tx, platform, current, seen, threshold, now);
  }

  /** Upserts every seen item, unless one of them is not valid. */
  method UpsertSeen(rows: Rows, platform: string, current: seq<Item>, now: int)
    returns (tx: Rows, seen: set<string>, ok: bool)
    ensures ok <==> forall i :: 0 <= i < |current| ==> current[i].id != "" && current[i].json
    ensures ok ==> forall id :: id in seen <==> Named(current, id)
    ensures ok ==> Stored(tx, platform, current, now)
    ensures ok ==> forall k :: k in tx <==> k in rows || (k.platform == platform && Named(current, k.id))
    ensures ok ==> forall k :: k in rows && !(k.platform == platform && Named(current, k.id)) ==> tx[k] == rows[k]
  {
    tx, seen := rows, {};
    for n := 0 to |current|
      invariant forall i :: 0 <= i < n ==> current[i].id != "" && current[i].json
      invariant forall id :: id in seen <==> Named(current[..n], id)
      invariant Stored(tx, platform, current[..n], now)
      invariant forall k :: k in tx <==> k in rows || (k.platform == platform && Named(current[..n], k.id))
      invariant forall k :: k in rows && !(k.platform == platform && Named(current[..n], k.id)) ==> tx[k] == rows[k]
    {
      var item := current[n];
      if item.id == "" || !item.json { return rows, seen, false; }
      OneMoreItem(current, n);
      StoredMore(tx, platform, current[..n], item, now);
      assert current[..n + 1] == current[..n] + [item];
      seen := seen + {item.id};
      tx := tx[Key(platform, item.id) := Row(item.payload, Playable, 0, now, None)];
    }
    assert current[..|current|] == current;
    ok := true;
  }

  lemma OneMoreItem(items: seq<Item>, n: nat)
    requires n < |items|
    ensures forall id :: Named(items[..n + 1], id) <==> Named(items[..n], id) || id == items[n].id
  {
    forall id ensures Named(items[..n + 1], id) <==> Named(items[..n], id) || id == items[n].id {
      assert items[..n + 1][n] == items[n];
      if Named(items[..n], id) {
        var i :| 0 <= i < n && items[..n][i].id == id;
        assert items[..n + 1][i].id == id;
      }
      if Named(items[..n + 1], id) && id != items[n].id {
        var i :| 0 <= i < n + 1 && items[..n + 1][i].id == id;
        assert items[..n][i].id == id;
      }
    }
  }

  lemma StoredMore(rows: Rows, platform: string, items: seq<Item>, item: Item, now: int)
    requires Stored(rows, platform, items, now)
    ensures Stored(rows[Key(platform, item.id) := Row(item.payload, Playable, 0, now, None)], platform,
                   items + [item], now)
  {
    var more := items + [item];
    forall i | Final(more, i) && i < |items| ensures Final(items, i) && items[i].id != item.id {
      assert more[|items|].id != more[i].id;
      forall j | i < j < |items| ensures items[j].id != items[i].id {
        assert more[j].id != more[i].id;
      }
    }
  }

  lemma MarkedReconciles(rows: Rows, upserted: Rows, tx: Rows, platform: string, items: seq<Item>, seen: set<string>,
                         threshold: int, now: int)
    requires forall id :: id in seen <==> Named(items, id)
    requires Stored(upserted, platform, items, now)
    requires forall k :: k in upserted <==> k in rows || (k.platform == platform && Named(items, k.id))
    requires forall k :: k in rows && !(k.platform == platform && Named(items, k.id)) ==> upserted[k] == rows[k]
    requires tx.Keys == upserted.Keys
    requires forall k :: k in upserted ==>
      if k.platform == platform && k.id !in seen then Omitted(upserted[k], tx[k], threshold, now)
      else tx[k] == upserted[k]
    ensures Reconciled(rows, tx, map[platform := items], threshold, now)
  {
    forall i | Final(items, i)
      ensures Key(platform, items[i].id) in tx
      ensures tx[Key(platform, items[i].id)] == Row(items[i].payload, Playable, 0, now, None)
    {
      assert Named(items, items[i].id);
      assert tx[Key(platform, items[i].id)] == upserted[Key(platform, items[i].id)];
    }
  }

  method MarkMissing(rows: Rows, platform: string, seen: set<string>, threshold: int, now: int)
    returns (tx: Rows)
    ensures tx.Keys == rows.Keys
    ensures forall k :: k in rows ==>
      if k.platform == platform && k.id !in seen then Omitted(rows[k], tx[k], threshold, now) else tx[k] == rows[k]
  {
    tx := rows;
    var missing := set k | k in rows && k.platform == platform && k.id !in seen;
    ghost var marked: set<Key> := {};
    while missing != {}
      invariant tx.Keys == rows.Keys
      invariant forall k :: k in rows && k.platform == platform && k.id !in seen <==> k in missing || k in marked
      invariant missing !! marked
      invariant forall k :: k in rows ==>
        if k in marked then Omitted(rows[k], tx[k], threshold, now) else tx[k] == rows[k]
      decreases missing
    {
      var k :| k in missing;
      var count := tx[k].missing + 1;
      var availability, confirmed := ValidationRequired, tx[k].confirmed;
      if count >= threshold {
        availability := MissingConfirmed;
        if confirmed == None { confirmed := Some(now); }
      }
      tx := tx[k := tx[k].(availability := availability, missing := count, confirmed := confirmed)];
      missing, marked := missing - {k}, marked + {k};
    }
  }

  // ---- The history that the catalog must reflect ----

  datatype Event = Scan(catalogs: Catalogs, now: int) | Acknowledgement(key: Key)

  /** Seen by some committed scan and not acknowledged since. */
  ghost predicate Present(log: seq<Event>, k: Key) {
    log != [] && match log[|log| - 1]
      case Scan(catalogs, _) => Saw(catalogs, k) || Present(log[..|log| - 1], k)
      case Acknowledgement(key) => key != k && Present(log[..|log| - 1], k)
  }

  /** The number of latest committed scans of its platform, one after another, that omitted an item. */
  ghost function Streak(log: seq<Event>, k: Key): nat {
    if log == [] then 0
    else
      var before := Streak(log[..|log| - 1], k);
      match log[|log| - 1]
      case Scan(catalogs, _) =>
        if Saw(catalogs, k) then 0 else if k.platform in catalogs then before + 1 else before
      case Acknowledgement(_) => before
  }

  /** When an item was last seen, and with what payload. */
  ghost function LastSeen(log: seq<Event>, k: Key): (int, string) {
    if log == [] then (0, "")
    else match log[|log| - 1]
      case Scan(catalogs, now) =>
        if Saw(catalogs, k) then
          (now, catalogs[k.platform][FinalIndex(catalogs[k.platform], k.id)].payload)
        else LastSeen(log[..|log| - 1], k)
      case Acknowledgement(_) => LastSeen(log[..|log| - 1], k)
  }

  /** When the current streak reached two. */
  ghost function ConfirmedAt(log: seq<Event>, k: Key): Option<int> {
    if log == [] then None
    else
      var before := ConfirmedAt(log[..|log| - 1], k);
      match log[|log| - 1]
      case Scan(catalogs, now) =>
        if Saw(catalogs, k) then None
        else if k.platform in catalogs && Streak(log, k) >= 2 && before == None then Some(now)
        else before
      case Acknowledgement(_) => before
  }

  function AvailabilityOf(missing: nat): Availability {
    if missing == 0 then Playable else if missing == 1 then ValidationRequired else MissingConfirmed
  }

  /** The row that a history demands. */
  ghost function RowOf(log: seq<Event>, k: Key): Row {
    Row(LastSeen(log, k).1, AvailabilityOf(Streak(log, k)), Streak(log, k), LastSeen(log, k).0, ConfirmedAt(log, k))
  }

  /** The catalog holds exactly the present items, each as the history demands. */
  ghost predicate Reflects(rows: Rows, log: seq<Event>) {
    && (forall k :: k in rows <==> Present(log, k))
    && (forall k :: k in rows ==> rows[k] == RowOf(log, k))
    && (forall k :: k in rows ==> (rows[k].confirmed.Some? <==> rows[k].missing >= 2))
  }

  /** Items leave only by acknowledgement, and only after at least two omissions in a row. */
  ghost predicate Lawful(log: seq<Event>) {
    forall i :: 0 <= i < |log| && log[i].Acknowledgement? ==>
      Present(log[..i], log[i].key) && Streak(log[..i], log[i].key) >= 2
  }

  lemma ScanReflected(rows: Rows, after: Rows, log: seq<Event>, catalogs: Catalogs, now: int)
    requires Reflects(rows, log) && Reconciled(rows, after, catalogs, 2, now)
    ensures Reflects(after, log + [Scan(catalogs, now)])
  {
    var longer := log + [Scan(catalogs, now)];
    assert longer[..|longer| - 1] == log;
    forall k ensures k in after <==> Present(longer, k) {
    }
    forall k | k in after
      ensures after[k] == RowOf(longer, k) && (after[k].confirmed.Some? <==> after[k].missing >= 2)
    {
      if Saw(catalogs, k) {
        var i := FinalIndex(catalogs[k.platform], k.id);
        assert Key(k.platform, catalogs[k.platform][i].id) == k;
      } else {
        assert rows[k] == RowOf(log, k);
      }
    }
  }

  lemma AcknowledgementReflected(rows: Rows, log: seq<Event>, key: Key)
    requires Reflects(rows, log) && key in rows
    ensures Reflects(rows - {key}, log + [Acknowledgement(key)])
  {
    var longer := log + [Acknowledgement(key)];
    assert longer[..|longer| - 1] == log;
    forall k | k in rows - {key} ensures (rows - {key})[k] == RowOf(longer, k) {
      assert rows[k] == RowOf(log, k);
    }
  }

  lemma LawfulGrows(log: seq<Event>, e: Event)
    requires Lawful(log) && (e.Acknowledgement? ==> Present(log, e.key) && Streak(log, e.key) >= 2)
    ensures Lawful(log + [e])
  {
    var longer := log + [e];
    forall i | 0 <= i < |longer| && longer[i].Acknowledgement?
      ensures Present(longer[..i], longer[i].key) && Streak(longer[..i], longer[i].key) >= 2
    {
      assert longer[..i] == log[..i];
      if i == |log| {
        assert longer[..i] == log;
      }
    }
  }

  lemma ReconciledNothing(rows: Rows, threshold: int, now: int)
    ensures Reconciled(rows, rows, map[], threshold, now)
  {
  }

  /** Reconciling one more platform. */
  lemma ReconciledMore(a: Rows, b: Rows, c: Rows, catalogs: Catalogs, platform: string, items: seq<Item>,
                       threshold: int, now: int)
    requires platform !in catalogs && Reconciled(a, b, catalogs, threshold, now)
    requires Reconciled(b, c, map[platform := items], threshold, now)
    ensures Reconciled(a, c, catalogs[platform := items], threshold, now)
  {
    var one, both := map[platform := items], catalogs[platform := items];
    forall k
      ensures Saw(both, k) <==> Saw(catalogs, k) || Saw(one, k)
      ensures k.platform != platform && k in b ==> k in c && c[k] == b[k]
    {
    }
    forall p | p in both ensures Stored(c, p, both[p], now) {
      if p != platform {
        assert Stored(b, p, catalogs[p], now);
      }
    }
    forall k | k in a && k.platform in both && !Saw(both, k) ensures Omitted(a[k], c[k], threshold, now) {
      if k.platform == platform {
        assert b[k] == a[k];
      }
    }
  }

  // ---- The store ----

  datatype SourceRecord = SourceRecord(id: string, available: bool)

  /** What validating the reconciled catalog yields: a failure, or possibly a new disk snapshot. */
  datatype Prepared = Rejected | Accepted(snapshot: Option<string>)

  class Store {
    var rows: Rows
    var snapshot: Option<string>
    var sources: map<string, SourceRecord>
    ghost var log: seq<Event>

    ghost predicate Valid()
      reads this
    {
      Reflects(rows, log) && Lawful(log)
    }

    constructor ()
      ensures Valid() && rows == map[] && snapshot == None && sources == map[] && log == []
    {
      rows, snapshot, sources, log := map[], None, map[], [];
    }

    /** Every catalog of the scan is valid. */
    static ghost predicate GoodScan(catalogs: Catalogs) {
      forall p :: p in catalogs ==>
        && (p == "wii" || p == "gamecube")
        && forall i :: 0 <= i < |catalogs[p]| ==> catalogs[p][i].id != "" && catalogs[p][i].json
    }

    /** The preparation accepts what this scan makes of the catalog. */
    ghost predicate Prepares(prepare: Rows -> Prepared, catalogs: Catalogs, now: int)
      reads this
    {
      forall after :: Reconciled(rows, after, catalogs, 2, now) ==> prepare(after).Accepted?
    }

    /** Publishes a whole scan, its snapshot and its source, or nothing at all. */
    method CommitSourceScan(record: SourceRecord, catalogs: Catalogs, prepare: Rows -> Prepared, now: int,
                            reliable: bool) returns (ok: bool)
      requires Valid()
      modifies this
      ensures Valid()
      ensures reliable && catalogs != map[] && record.available && GoodScan(catalogs) ==>
        (Prepares(prepare, catalogs, now) ==> ok)
      ensures !ok ==> rows == old(rows) && snapshot == old(snapshot) && sources == old(sources) && log == old(log)
      ensures ok ==> catalogs != map[] && record.available && GoodScan(catalogs) && prepare(rows).Accepted?
      ensures ok ==> Reconciled(old(rows), rows, catalogs, 2, now)
      ensures ok ==> log == old(log) + [Scan(catalogs, now)] && sources == old(sources)[record.id := record]
      ensures ok ==> snapshot == if prepare(rows).snapshot.Some? then prepare(rows).snapshot else old(snapshot)
    {
      if |catalogs| == 0 || !record.available { return false; }
      assert catalogs != map[];
      var tx, valid := ReconcileAll(rows, catalogs, now);
      if !valid { return false; }
      var prepared := prepare(tx);
      if prepared == Rejected { return false; }
      var published := if prepared.snapshot.Some? then prepared.snapshot else snapshot;
      var storageFailed: bool := *;
      if storageFailed && !reliable { return false; }
      ScanReflected(rows, tx, log, catalogs, now);
      LawfulGrows(log, Scan(catalogs, now));
      rows, snapshot, sources := tx, published, sources[record.id := record];
      log := log + [Scan(catalogs, now)];
      ok := true;
    }

    /** Reconciles the catalogs one after another, in any order. */
    static method ReconcileAll(rows: Rows, catalogs: Catalogs, now: int) returns (tx: Rows, ok: bool)
      ensures ok <==> GoodScan(catalogs)
      ensures ok ==> Reconciled(rows, tx, catalogs, 2, now)
    {
      tx := rows;
      var pending := catalogs.Keys;
      ghost var scanned: Catalogs := map[];
      ReconciledNothing(rows, 2, now);
      while pending != {}
        invariant pending <= catalogs.Keys && scanned.Keys == catalogs.Keys - pending
        invariant GoodScan(scanned) && forall p :: p in scanned ==> scanned[p] == catalogs[p]
        invariant Reconciled(rows, tx, scanned, 2, now)
        decreases pending
      {
        var platform :| platform in pending;
        var next, valid := ReconcileCatalog(tx, platform, catalogs[platform], 2, now);
        if !valid { return rows, false; }
        ReconciledMore(rows, tx, next, scanned, platform, catalogs[platform], 2, now);
        tx, pending := next, pending - {platform};
        scanned := scanned[platform := catalogs[platform]];
      }
      assert scanned == catalogs;
      ok := true;
    }

    /** Removes an item only while it is confirmed missing. */
    method AcknowledgeMissing(key: Key) returns (ok: bool)
      requires Valid()
      modifies this`rows, this`log
      ensures Valid()
      ensures ok <==> key in old(rows) && old(rows)[key].availability == MissingConfirmed
      ensures ok ==> rows == old(rows) - {key} && log == old(log) + [Acknowledgement(key)]
      ensures !ok ==> rows == old(rows) && log == old(log)
    {
      if key !in rows || rows[key].availability != MissingConfirmed { return false; }
      assert rows[key] == RowOf(log, key);
      AcknowledgementReflected(rows, log, key);
      LawfulGrows(log, Acknowledgement(key));
      rows := rows - {key};
      log := log + [Acknowledgement(key)];
      ok := true;
    }
  }

  // ---- Consequences over any run ----

  /** An item that leaves was acknowledged, and it was confirmed missing at that moment. */
  lemma LeavesOnlyConfirmed(log: seq<Event>, e: Event, k: Key)
    requires Lawful(log + [e]) && Present(log, k) && !Present(log + [e], k)
    ensures e == Acknowledgement(k) && Streak(log, k) >= 2
  {
    var longer := log + [e];
    assert longer[..|log|] == log && longer[|log|] == e;
  }

  /** Playable exactly when the latest scan saw it, confirmed missing exactly from two omissions in a row on. */
  lemma AvailabilityFollowsStreak(rows: Rows, log: seq<Event>, k: Key)
    requires Reflects(rows, log) && k in rows
    ensures rows[k].availability == Playable <==> Streak(log, k) == 0
    ensures rows[k].availability == MissingConfirmed <==> Streak(log, k) >= 2
    ensures rows[k].missing == Streak(log, k) && (rows[k].confirmed.Some? <==> Streak(log, k) >= 2)
  {
    assert rows[k] == RowOf(log, k);
  }

  datatype Operation =
    | ScanSource(record: SourceRecord, catalogs: Catalogs, prepare: Rows -> Prepared, now: int)
    | Acknowledge(key: Key)

  /** The event that an operation leaves in the history when it succeeds. */
  ghost function EventOf(operation: Operation): Event {
    match operation
    case ScanSource(_, catalogs, _, now) => Scan(catalogs, now)
    case Acknowledge(key) => Acknowledgement(key)
  }

  /** The events of the operations that succeeded, in order. */
  ghost function Successes(operations: seq<Operation>, done: seq<bool>): seq<Event>
    requires |done| <= |operations|
  {
    if done == [] then []
    else
      var n := |done| - 1;
      Successes(operations, done[..n]) + if done[n] then [EventOf(operations[n])] else []
  }

  /**
   * What an operation needs of the history before it. A scan must be good and its source there, and
   * the preparation must accept the catalog that the history and the scan demand; an acknowledged
   * item must be present and confirmed missing.
   */
  ghost predicate Permitted(log: seq<Event>, operation: Operation) {
    match operation
    case ScanSource(record, catalogs, prepare, now) =>
      && catalogs != map[] && record.available && Store.GoodScan(catalogs)
      && forall after :: Reflects(after, log + [EventOf(operation)]) ==> prepare(after).Accepted?
    case Acknowledge(key) => Present(log, key) && Streak(log, key) >= 2
  }

  /** A history leaves no choice about the catalog. */
  lemma OneCatalog(a: Rows, b: Rows, log: seq<Event>)
    requires Reflects(a, log) && Reflects(b, log)
    ensures a == b
  {
  }

  /** Only a permitted operation is done, and only storage that fails keeps a permitted scan from it. */
  ghost predicate Decided(log: seq<Event>, operation: Operation, ok: bool, reliable: bool) {
    && (ok ==> Permitted(log, operation))
    && (Permitted(log, operation) && (reliable || operation.Acknowledge?) ==> ok)
  }

  method Perform(store: Store, operation: Operation, reliable: bool) returns (ok: bool)
    requires store.Valid()
    modifies store
    ensures store.Valid() && Decided(old(store.log), operation, ok, reliable)
    ensures store.log == old(store.log) + if ok then [EventOf(operation)] else []
  {
    match operation {
      case ScanSource(record, catalogs, prepare, now) =>
        ghost var rows, log := store.rows, store.log;
        forall after | Permitted(log, operation) && Reconciled(rows, after, catalogs, 2, now)
          ensures prepare(after).Accepted?
        {
          ScanReflected(rows, after, log, catalogs, now);
        }
        ok := store.CommitSourceScan(record, catalogs, prepare, now, reliable);
        if ok {
          forall after | Reflects(after, store.log) ensures prepare(after).Accepted? {
            OneCatalog(after, store.rows, store.log);
          }
        }
      case Acknowledge(key) =>
        assert key in store.rows ==> store.rows[key] == RowOf(store.log, key);
        ok := store.AcknowledgeMissing(key);
    }
    assert old(store.log) + [] == old(store.log);
  }

  /** Each operation so far was decided by the history before it. */
  ghost predicate AllDecided(start: seq<Event>, operations: seq<Operation>, done: seq<bool>, reliable: bool) {
    && |done| <= |operations|
    && forall k :: 0 <= k < |done| ==>
      Decided(start + Successes(operations, done[..k]), operations[k], done[k], reliable)
  }

  lemma OneMoreSuccess(start: seq<Event>, operations: seq<Operation>, done: seq<bool>, ok: bool)
    requires |done| < |operations|
    ensures start + Successes(operations, done + [ok])
      == start + Successes(operations, done) + if ok then [EventOf(operations[|done|])] else []
  {
    assert (done + [ok])[..|done|] == done;
  }

  lemma OneMoreDecided(start: seq<Event>, operations: seq<Operation>, done: seq<bool>, reliable: bool, ok: bool)
    requires AllDecided(start, operations, done, reliable) && |done| < |operations|
    requires Decided(start + Successes(operations, done), operations[|done|], ok, reliable)
    ensures AllDecided(start, operations, done + [ok], reliable)
  {
    var more := done + [ok];
    forall k | 0 <= k < |more|
      ensures Decided(start + Successes(operations, more[..k]), operations[k], more[k], reliable)
    {
      if k < |done| {
        assert more[..k] == done[..k];
      } else {
        assert more[..k] == done;
      }
    }
  }

  /**
   * After any sequence of scans, committed or rolled back, and acknowledgements, the catalog reflects
   * the successful ones; which succeed is decided by the history, and on reliable storage exactly.
   */
  method Run(store: Store, operations: seq<Operation>, reliable: bool) returns (done: seq<bool>)
    requires store.Valid()
    modifies store
    ensures store.Valid() && |done| == |operations|
    ensures store.log == old(store.log) + Successes(operations, done)
    ensures AllDecided(old(store.log), operations, done, reliable)
  {
    done := [];
    assert old(store.log) + [] == old(store.log);
    while |done| < |operations|
      invariant store.Valid() && |done| <= |operations|
      invariant store.log == old(store.log) + Successes(operations, done)
      invariant AllDecided(old(store.log), operations, done, reliable)
      decreases |operations| - |done|
    {
      var ok := Perform(store, operations[|done|], reliable);
      OneMoreSuccess(old(store.log), operations, done, ok);
      OneMoreDecided(old(store.log), operations, done, reliable, ok);
      done := done + [ok];
    }
  }
}
