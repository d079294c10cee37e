/** The extent map of a virtual FAT32 disk: three lists of ranges, their lookup and their validation. */
module VirtualExtents {
  import opened Basics
  import opened Bytes
  import opened Search

  /** A half-open range of disk positions. */
  datatype Span = Span(start: int, end: int) {
    predicate Holds(pos: int) { start <= pos < end }
  }

  datatype MetadataExtent = MetadataExtent(offset: int, length: int, storage: int) {
    function Range(): Span { Span(offset, offset + length) }
  }

  datatype SourceExtent = SourceExtent(offset: int, length: int, path: string, sourceOffset: int, sourceSize: int) {
    function Range(): Span { Span(offset, offset + length) }
  }

  datatype SaveExtent = SaveExtent(offset: int, length: int, objectId: string, cardOffset: int, cardSize: int) {
    function Range(): Span { Span(offset, offset + length) }
  }

  datatype Layout = Layout(
    size: int,
    metadata: seq<byte>,
    meta: seq<MetadataExtent>,
    sources: seq<SourceExtent>,
    saves: seq<SaveExtent>)

  function MetaSpans(items: seq<MetadataExtent>): (s: seq<Span>)
    ensures |s| == |items|
  {
    seq(|items|, i requires 0 <= i < |items| => items[i].Range())
  }

  function SourceSpans(items: seq<SourceExtent>): (s: seq<Span>)
    ensures |s| == |items|
  {
    seq(|items|, i requires 0 <= i < |items| => items[i].Range())
  }

  function SaveSpans(items: seq<SaveExtent>): (s: seq<Span>)
    ensures |s| == |items|
  {
    seq(|items|, i requires 0 <= i < |items| => items[i].Range())
  }

  // ---- Lookup ----

  /** Sorted ranges that do not overlap. */
  ghost predicate InOrder(spans: seq<Span>) {
    && (forall i :: 0 <= i < |spans| ==> spans[i].start <= spans[i].end)
    && (forall i, j :: 0 <= i < j < |spans| ==> spans[i].end <= spans[j].start)
  }

  /** The range that holds a position, found by looking at all of them. */
  function Holder(spans: seq<Span>, pos: int): (r: Option<nat>)
    ensures r.Some? ==> r.value < |spans| && spans[r.value].Holds(pos)
    ensures r.None? ==> forall i :: 0 <= i < |spans| ==> !spans[i].Holds(pos)
  {
    if spans == [] then None
    else if spans[0].Holds(pos) then Some(0)
    else match Holder(spans[1..], pos)
      case None => None
      case Some(i) => Some(i + 1)
  }

  lemma OnlyHolder(spans: seq<Span>, pos: int, i: nat)
    requires InOrder(spans) && i < |spans| && spans[i].Holds(pos)
    ensures Holder(spans, pos) == Some(i)
  {
    var h := Holder(spans, pos);
    if h.Some? {
      Follows(spans, h.value, i);
      Follows(spans, i, h.value);
    }
  }

  /** Binary search for the range that holds a position. */
  function FindSpan(spans: seq<Span>, pos: int): (r: Option<nat>)
    requires InOrder(spans)
    ensures r == Holder(spans, pos)
  {
    var beyond := (i: nat) => i < |spans| && spans[i].end > pos;
    assert Upward(|spans|, beyond) by {
      forall i: nat, j: nat | i <= j < |spans| && beyond(i) ensures beyond(j) {
        assert i == j || spans[i].end <= spans[j].start;
      }
    }
    var i := FirstIndex(|spans|, beyond);
    assert forall k :: 0 <= k < i ==> spans[k].end <= pos by {
      forall k | 0 <= k < i ensures spans[k].end <= pos {
        assert !beyond(k);
      }
    }
    FoundIsHolder(spans, pos, i);
    if i < |spans| && spans[i].start <= pos then Some(i) else None
  }

  lemma FoundIsHolder(spans: seq<Span>, pos: int, i: nat)
    requires InOrder(spans) && i <= |spans| && (i < |spans| ==> spans[i].end > pos)
    requires forall k :: 0 <= k < i ==> spans[k].end <= pos
    ensures Holder(spans, pos) == if i < |spans| && spans[i].start <= pos then Some(i) else None
  {
    if i < |spans| && spans[i].start <= pos {
      OnlyHolder(spans, pos, i);
    } else {
      NoneHolds(spans, pos, i);
    }
  }

  lemma NoneHolds(spans: seq<Span>, pos: int, i: nat)
    requires InOrder(spans) && i <= |spans| && (i < |spans| ==> spans[i].end > pos && pos < spans[i].start)
    requires forall k :: 0 <= k < i ==> spans[k].end <= pos
    ensures Holder(spans, pos) == None
  {
    forall k | 0 <= k < |spans| ensures !spans[k].Holds(pos) {
      Follows(spans, i, k);
    }
  }

  lemma Follows(spans: seq<Span>, i: nat, k: nat)
    requires InOrder(spans)
    ensures i < k < |spans| ==> spans[i].start <= spans[i].end <= spans[k].start
  {
  }

  /** Where the zeros after an unheld position end: at the next range, or at the limit. */
  function NextStart(spans: seq<Span>, pos: int, limit: int): (n: int)
    requires InOrder(spans) && pos < limit
    ensures pos < n <= limit
    ensures forall i :: 0 <= i < |spans| ==> !(pos < spans[i].start < n)
    ensures n == limit || exists i :: 0 <= i < |spans| && spans[i].start == n
  {
    var after := (i: nat) => i < |spans| && spans[i].start > pos;
    assert Upward(|spans|, after) by {
      forall i: nat, j: nat | i <= j < |spans| && after(i) ensures after(j) {
        assert i == j || spans[i].end <= spans[j].start;
      }
    }
    var i := FirstIndex(|spans|, after);
    assert forall k :: 0 <= k < |spans| ==>
      spans[k].start <= pos || (i < |spans| && spans[k].start >= spans[i].start) by {
      forall k | 0 <= k < |spans| ensures spans[k].start <= pos || (i < |spans| && spans[k].start >= spans[i].start) {
        if k < i {
          assert !after(k);
        } else {
          Follows(spans, i, k);
        }
      }
    }
    if i < |spans| && spans[i].start < limit then spans[i].start else limit
  }

  /** Positions up to the next start stay unheld. */
  lemma StaysUnheld(spans: seq<Span>, pos: int, next: int, p: int)
    requires InOrder(spans) && Holder(spans, pos) == None && pos <= p < next
    requires forall i :: 0 <= i < |spans| ==> !(pos < spans[i].start < next)
    ensures Holder(spans, p) == None
  {
    forall i | 0 <= i < |spans| ensures !spans[i].Holds(p) {
      assert !spans[i].Holds(pos);
    }
  }

  // ---- Sorting ----

  function Insert<T>(x: T, s: seq<T>, key: T -> int): seq<T> {
    if s == [] || key(x) <= key(s[0]) then [x] + s else [s[0]] + Insert(x, s[1..], key)
  }

  function Sort<T>(s: seq<T>, key: T -> int): seq<T> {
    if s == [] then [] else Insert(s[0], Sort(s[1..], key), key)
  }

  ghost predicate Sorted<T>(s: seq<T>, key: T -> int) {
    forall i :: 0 <= i < |s| - 1 ==> key(s[i]) <= key(s[i + 1])
  }

  lemma {:induction false} InsertElements<T>(x: T, s: seq<T>, key: T -> int)
    ensures multiset(Insert(x, s, key)) == multiset{x} + multiset(s)
    ensures |Insert(x, s, key)| == |s| + 1
  {
    if s != [] {
      Uncons(s);
      if key(x) > key(s[0]) {
        InsertElements(x, s[1..], key);
      }
    }
  }

  lemma {:induction false} InsertSorted<T>(x: T, s: seq<T>, key: T -> int)
    requires Sorted(s, key)
    ensures Sorted(Insert(x, s, key), key)
    ensures |Insert(x, s, key)| > 0 && (Insert(x, s, key)[0] == x || (s != [] && Insert(x, s, key)[0] == s[0]))
  {
    if s != [] && key(x) > key(s[0]) {
      InsertSorted(x, s[1..], key);
    }
  }

  /** Sorting reorders and nothing else. */
  lemma {:induction false} SortSorts<T>(s: seq<T>, key: T -> int)
    ensures Sorted(Sort(s, key), key) && multiset(Sort(s, key)) == multiset(s) && |Sort(s, key)| == |s|
  {
    if s != [] {
      SortSorts(s[1..], key);
      InsertSorted(s[0], Sort(s[1..], key), key);
      InsertElements(s[0], Sort(s[1..], key), key);
      Uncons(s);
    }
  }

  // ---- Validation ----

  ghost predicate Disjoint(a: Span, b: Span) { a.end <= b.start || b.end <= a.start }

  /** Apart, and when strict also with different starts. */
  ghost predicate Clear(a: Span, b: Span, strict: bool) { Disjoint(a, b) && (strict ==> a.start != b.start) }

  ghost predicate ApartFrom(x: Span, s: seq<Span>, strict: bool) {
    forall i :: 0 <= i < |s| ==> Clear(x, s[i], strict)
  }

  /** No two ranges share a position and, when strict, no two start together. */
  ghost predicate Apart(s: seq<Span>, strict: bool) {
    forall i, j :: 0 <= i < j < |s| ==> Clear(s[i], s[j], strict)
  }

  lemma ApartCons(x: Span, s: seq<Span>, strict: bool)
    ensures Apart([x] + s, strict) <==> ApartFrom(x, s, strict) && Apart(s, strict)
  {
    var all := [x] + s;
    if Apart(all, strict) {
      forall i | 0 <= i < |s| ensures Clear(x, s[i], strict) {
        assert all[0] == x && all[i + 1] == s[i];
      }
      forall i, j | 0 <= i < j < |s| ensures Clear(s[i], s[j], strict) {
        assert all[i + 1] == s[i] && all[j + 1] == s[j];
      }
    }
  }

  function Start(): Span -> int { (x: Span) => x.start }

  lemma {:induction false} InsertApart(x: Span, s: seq<Span>, strict: bool)
    ensures Apart(Insert(x, s, Start()), strict) <==> ApartFrom(x, s, strict) && Apart(s, strict)
    ensures forall y: Span :: ApartFrom(y, Insert(x, s, Start()), strict) <==>
      Clear(y, x, strict) && ApartFrom(y, s, strict)
  {
    if s == [] || x.start <= s[0].start {
      ApartCons(x, s, strict);
      forall y: Span ensures ApartFrom(y, [x] + s, strict) <==> Clear(y, x, strict) && ApartFrom(y, s, strict) {
        FromCons(y, x, s, strict);
      }
    } else {
      var rest := Insert(x, s[1..], Start());
      InsertApart(x, s[1..], strict);
      ApartCons(s[0], rest, strict);
      Uncons(s);
      ApartCons(s[0], s[1..], strict);
      FromCons(x, s[0], s[1..], strict);
      forall y: Span ensures ApartFrom(y, [s[0]] + rest, strict) <==> Clear(y, x, strict) && ApartFrom(y, s, strict) {
        FromCons(y, s[0], rest, strict);
        FromCons(y, s[0], s[1..], strict);
      }
    }
  }

  lemma FromCons(y: Span, x: Span, s: seq<Span>, strict: bool)
    ensures ApartFrom(y, [x] + s, strict) <==> Clear(y, x, strict) && ApartFrom(y, s, strict)
  {
    var all := [x] + s;
    if ApartFrom(y, all, strict) {
      assert Clear(y, all[0], strict);
      forall i | 0 <= i < |s| ensures Clear(y, s[i], strict) {
        assert Clear(y, all[i + 1], strict);
      }
    }
  }

  lemma {:induction false} SortApart(s: seq<Span>, strict: bool)
    ensures Apart(Sort(s, Start()), strict) <==> Apart(s, strict)
    ensures forall y: Span :: ApartFrom(y, Sort(s, Start()), strict) <==> ApartFrom(y, s, strict)
  {
    if s != [] {
      SortApart(s[1..], strict);
      InsertApart(s[0], Sort(s[1..], Start()), strict);
      Uncons(s);
      ApartCons(s[0], s[1..], strict);
      forall y: Span ensures ApartFrom(y, Sort(s, Start()), strict) <==> ApartFrom(y, s, strict) {
        FromCons(y, s[0], s[1..], strict);
      }
    }
  }

  ghost predicate Chained(s: seq<Span>) {
    forall i :: 0 < i < |s| ==> s[i - 1].end <= s[i].start
  }

  lemma {:induction false} ChainedReaches(s: seq<Span>, i: nat, j: nat)
    requires Chained(s) && i < j < |s| && forall k :: 0 <= k < |s| ==> s[k].start <= s[k].end
    ensures s[i].end <= s[j].start
    decreases j
  {
    if i < j - 1 {
      ChainedReaches(s, i, j - 1);
    }
  }

  /** On sorted ranges, checking neighbours finds every overlap, and nothing else when the starts differ. */
  lemma NeighboursSuffice(s: seq<Span>)
    requires Sorted(s, Start()) && forall k :: 0 <= k < |s| ==> s[k].start <= s[k].end
    ensures Chained(s) ==> Apart(s, false)
    ensures Apart(s, true) ==> Chained(s)
  {
    if Chained(s) {
      forall i, j | 0 <= i < j < |s| ensures Disjoint(s[i], s[j]) {
        ChainedReaches(s, i, j);
      }
    }
    if Apart(s, true) {
      forall i | 0 < i < |s| ensures s[i - 1].end <= s[i].start {
        assert Start()(s[i - 1]) <= Start()(s[i - 1 + 1]);
        assert Clear(s[i - 1], s[i], true);
      }
    }
  }

  ghost predicate MetaInBounds(e: MetadataExtent, size: int) {
    e.offset >= 0 && e.length > 0 && e.offset + e.length <= size
  }

  ghost predicate SourceInBounds(e: SourceExtent, size: int) {
    && e.offset >= 0 && e.length >= 0 && e.sourceOffset >= 0 && e.sourceOffset + e.length <= e.sourceSize
    && e.offset + e.length <= size
  }

  ghost predicate SaveInBounds(e: SaveExtent, size: int) {
    && e.offset >= 0 && e.length > 0 && e.objectId != "" && e.cardOffset >= 0 && e.cardSize > 0
    && e.cardOffset + e.length <= e.cardSize && e.offset + e.length <= size
  }

  ghost predicate InBounds(l: Layout) {
    && (forall i :: 0 <= i < |l.meta| ==> MetaInBounds(l.meta[i], l.size))
    && (forall i :: 0 <= i < |l.sources| ==> SourceInBounds(l.sources[i], l.size))
    && (forall i :: 0 <= i < |l.saves| ==> SaveInBounds(l.saves[i], l.size))
  }

  /** Every save object has one extent, so a write shows at one place. */
  ghost predicate OneExtentPerObject(saves: seq<SaveExtent>) {
    forall i, j :: 0 <= i < j < |saves| ==> saves[i].objectId != saves[j].objectId
  }

  function AllSpans(l: Layout): seq<Span> {
    MetaSpans(l.meta) + SourceSpans(l.sources) + SaveSpans(l.saves)
  }

  /** Accepts a map in bounds, with one extent per object, whose ranges do not overlap; an empty range may not share
      a start. */
  method ValidateRanges(l: Layout) returns (ok: bool)
    ensures ok ==> InBounds(l) && OneExtentPerObject(l.saves) && Apart(AllSpans(l), false)
    ensures InBounds(l) && OneExtentPerObject(l.saves) && Apart(AllSpans(l), true) ==> ok
  {
    ok := CheckMetadata(l);
    if !ok { return; }
    ok := CheckSources(l);
    if !ok { return; }
    ok := CheckSaves(l);
    if !ok { return; }
    ok := CheckOverlap(l);
  }

  method CheckMetadata(l: Layout) returns (ok: bool)
    ensures ok <==> forall i :: 0 <= i < |l.meta| ==> MetaInBounds(l.meta[i], l.size)
  {
    for n := 0 to |l.meta|
      invariant forall i :: 0 <= i < n ==> MetaInBounds(l.meta[i], l.size)
    {
      var e := l.meta[n];
      if e.offset < 0 || e.length <= 0 || e.offset > l.size - e.length { return false; }
    }
    ok := true;
  }

  method CheckSources(l: Layout) returns (ok: bool)
    ensures ok <==> forall i :: 0 <= i < |l.sources| ==> SourceInBounds(l.sources[i], l.size)
  {
    for n := 0 to |l.sources|
      invariant forall i :: 0 <= i < n ==> SourceInBounds(l.sources[i], l.size)
    {
      var e := l.sources[n];
      if e.offset < 0 || e.length < 0 || e.sourceOffset < 0 || e.sourceOffset > e.sourceSize - e.length
        || e.offset > l.size - e.length { return false; }
    }
    ok := true;
  }

  method CheckSaves(l: Layout) returns (ok: bool)
    ensures ok <==> (forall i :: 0 <= i < |l.saves| ==> SaveInBounds(l.saves[i], l.size)) && OneExtentPerObject(l.saves)
  {
    var seen: set<string> := {};
    for n := 0 to |l.saves|
      invariant forall i :: 0 <= i < n ==> SaveInBounds(l.saves[i], l.size)
      invariant forall i, j :: 0 <= i < j < n ==> l.saves[i].objectId != l.saves[j].objectId
      invariant forall id :: id in seen <==> exists i :: 0 <= i < n && l.saves[i].objectId == id
    {
      var e := l.saves[n];
      if e.offset < 0 || e.length <= 0 || e.objectId == "" || e.cardOffset < 0 || e.cardSize <= 0
        || e.cardOffset > e.cardSize - e.length || e.offset > l.size - e.length { return false; }
      if e.objectId in seen { return false; }
      seen := seen + {e.objectId};
    }
    ok := true;
  }

  method CheckOverlap(l: Layout) returns (ok: bool)
    requires InBounds(l)
    ensures ok ==> Apart(AllSpans(l), false)
    ensures Apart(AllSpans(l), true) ==> ok
  {
    var spans := Sort(AllSpans(l), Start());
    ok := true;
    var n := 1;
    while n < |spans|
      invariant 1 <= n && (n <= |spans| || n == 1)
      invariant forall i :: 0 < i < n && i < |spans| ==> spans[i - 1].end <= spans[i].start
      invariant ok
    {
      if spans[n].start < spans[n - 1].end {
        ok := false;
        break;
      }
      n := n + 1;
    }
    assert ok <==> Chained(spans);
    OverlapFound(l, spans);
  }

  lemma OverlapFound(l: Layout, spans: seq<Span>)
    requires InBounds(l) && spans == Sort(AllSpans(l), Start())
    ensures Chained(spans) ==> Apart(AllSpans(l), false)
    ensures Apart(AllSpans(l), true) ==> Chained(spans)
  {
    var all := AllSpans(l);
    SortSorts(all, Start());
    SortApart(all, false);
    SortApart(all, true);
    assert forall i :: 0 <= i < |all| ==> all[i].start <= all[i].end;
    forall k | 0 <= k < |spans| ensures spans[k].start <= spans[k].end {
      assert spans[k] in multiset(spans);
      assert spans[k] in all;
    }
    NeighboursSuffice(spans);
  }
}
