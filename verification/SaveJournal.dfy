/** The append-only write journal of one memory card. */
module SaveJournal {
  import opened Basics
  import opened Bytes

  const SAVE_BLOCK_SIZE: nat := 512
  const RECORD_HEADER_SIZE: nat := 52
  const MAXIMUM_UPLOAD_SIZE: nat := 0x100_0000
  const JOURNAL_MAGIC: seq<byte> := [0x57, 0x42, 0x53, 0x41, 0x56, 0x45, 0x31, 0x0a]

  /** Limits and identity of one card; `hash` stands for SHA-256. */
  datatype Config = Config(
    owner: string,
    cardSize: nat,
    maxDirtyBlocks: nat,
    maxJournalBytes: nat,
    maxPendingBytes: nat,
    maxBackups: nat,
    hash: seq<byte> -> seq<byte>)
  {
    /** Checksums are 32 bytes wide. */
    ghost predicate Digests() {
      forall s :: |hash(s)| == 32
    }

    /** Every supported card size is a whole number of blocks, at most 16 MiB. */
    ghost predicate Valid() {
      && Digests()
      && 0 < cardSize <= MAXIMUM_UPLOAD_SIZE && cardSize % SAVE_BLOCK_SIZE == 0
      && maxDirtyBlocks >= 1 && maxJournalBytes >= 1 && maxPendingBytes >= 1 && maxBackups >= 1
    }
  }

  datatype Record = Record(offset: nat, data: seq<byte>)

  /** The record lies inside a card of the given size and is not empty. */
  predicate Fits(cardSize: nat, r: Record) {
    0 < |r.data| <= MAXIMUM_UPLOAD_SIZE && r.offset + |r.data| <= cardSize
  }

  ghost predicate AllFit(cardSize: nat, rs: seq<Record>) {
    forall i :: 0 <= i < |rs| ==> Fits(cardSize, rs[i])
  }

  function Header(c: Config, r: Record): (s: seq<byte>)
    requires c.Digests()
    ensures |s| == RECORD_HEADER_SIZE
  {
    JOURNAL_MAGIC + LittleEndian(8, r.offset) + LittleEndian(4, |r.data|) + c.hash(r.data)
  }

  function Encode(c: Config, r: Record): (s: seq<byte>)
    requires c.Digests()
    ensures |s| == RECORD_HEADER_SIZE + |r.data|
  {
    Header(c, r) + r.data
  }

  /** Where a record keeps its mark, offset, length, checksum and data. */
  lemma RecordLayout(c: Config, r: Record)
    requires c.Digests() && r.offset < 0x1_0000_0000_0000_0000 && |r.data| < 0x1_0000_0000
    ensures var s := Encode(c, r);
      && |s| == 52 + |r.data| && s[..8] == [0x57, 0x42, 0x53, 0x41, 0x56, 0x45, 0x31, 0x0a]
      && FromLittleEndian(s[8..16]) == r.offset && FromLittleEndian(s[16..20]) == |r.data|
      && s[20..52] == c.hash(r.data) && s[52..] == r.data
  {
    var s, header := Encode(c, r), Header(c, r);
    assert s[8..16] == header[8..16] == LittleEndian(8, r.offset);
    assert s[16..20] == header[16..20] == LittleEndian(4, |r.data|);
    Capacities();
    LittleEndianRoundTrip(8, r.offset);
    LittleEndianRoundTrip(4, |r.data|);
  }

  function EncodeAll(c: Config, rs: seq<Record>): seq<byte>
    requires c.Digests()
  {
    if rs == [] then [] else EncodeAll(c, rs[..|rs| - 1]) + Encode(c, rs[|rs| - 1])
  }

  /** Payload bytes of a run of records. */
  function Payload(rs: seq<Record>): nat {
    if rs == [] then 0 else Payload(rs[..|rs| - 1]) + |rs[|rs| - 1].data|
  }

  /** The first record of a journal, or None when its header, bounds or checksum refuse it. */
  function First(c: Config, s: seq<byte>): (r: Option<Record>)
    ensures r.Some? ==> Fits(c.cardSize, r.value) && RECORD_HEADER_SIZE + |r.value.data| <= |s|
  {
    if |s| < RECORD_HEADER_SIZE || s[..8] != JOURNAL_MAGIC then None
    else
      var offset := FromLittleEndian(s[8..16]);
      var length := FromLittleEndian(s[16..20]);
      if length == 0 || length > MAXIMUM_UPLOAD_SIZE || offset >= 0x8000_0000_0000_0000
         || offset + length > c.cardSize then None
      else if |s| < RECORD_HEADER_SIZE + length then None
      else
        var data := s[RECORD_HEADER_SIZE..RECORD_HEADER_SIZE + length];
        if c.hash(data) != s[20..RECORD_HEADER_SIZE] then None else Some(Record(offset, data))
  }

  function Parse(c: Config, s: seq<byte>): (rs: Option<seq<Record>>)
    ensures rs.Some? ==> AllFit(c.cardSize, rs.value)
    decreases |s|
  {
    if s == [] then Some([])
    else match First(c, s)
      case None => None
      case Some(r) => Prepend(r, Parse(c, s[RECORD_HEADER_SIZE + |r.data|..]))
  }

  function Prepend(r: Record, more: Option<seq<Record>>): Option<seq<Record>> {
    if more.None? then None else Some([r] + more.value)
  }

  /** What `loadJournal` accepts: the records of `s`, or None when it refuses the journal. */
  function Decode(c: Config, s: seq<byte>): (rs: Option<seq<Record>>)
    ensures rs.Some? ==> AllFit(c.cardSize, rs.value) && Payload(rs.value) <= c.maxPendingBytes
  {
    match Parse(c, s)
    case None => None
    case Some(rs) => if Payload(rs) <= c.maxPendingBytes then Some(rs) else None
  }

  lemma {:induction false} PayloadCons(r: Record, rs: seq<Record>)
    ensures Payload([r] + rs) == |r.data| + Payload(rs)
  {
    var all := [r] + rs;
    if rs != [] {
      PayloadCons(r, rs[..|rs| - 1]);
      assert all[..|all| - 1] == [r] + rs[..|rs| - 1];
    } else {
      assert all[..0] == [];
    }
  }

  lemma {:induction false} EncodeCons(c: Config, r: Record, rs: seq<Record>)
    requires c.Digests()
    ensures EncodeAll(c, [r] + rs) == Encode(c, r) + EncodeAll(c, rs)
  {
    var all := [r] + rs;
    if rs != [] {
      EncodeCons(c, r, rs[..|rs| - 1]);
      assert all[..|all| - 1] == [r] + rs[..|rs| - 1];
    } else {
      assert all[..0] == [];
    }
  }

  lemma EncodeSnoc(c: Config, rs: seq<Record>, r: Record)
    requires c.Digests()
    ensures EncodeAll(c, rs + [r]) == EncodeAll(c, rs) + Encode(c, r)
    ensures Payload(rs + [r]) == Payload(rs) + |r.data|
  {
    assert (rs + [r])[..|rs|] == rs;
  }

  /** The fields that `Decode` reads from an encoded record followed by anything. */
  lemma HeaderFields(c: Config, r: Record, tail: seq<byte>)
    requires c.Digests()
    requires r.offset < Capacity(8) && |r.data| < Capacity(4)
    ensures var s := Header(c, r) + tail;
      && s[..8] == JOURNAL_MAGIC
      && FromLittleEndian(s[8..16]) == r.offset
      && FromLittleEndian(s[16..20]) == |r.data|
      && s[20..52] == c.hash(r.data)
  {
    LittleEndianRoundTrip(8, r.offset);
    LittleEndianRoundTrip(4, |r.data|);
    var s := Header(c, r) + tail;
    assert s[8..16] == LittleEndian(8, r.offset);
    assert s[16..20] == LittleEndian(4, |r.data|);
  }

  lemma FirstOfEncoded(c: Config, r: Record, tail: seq<byte>)
    requires c.Valid() && Fits(c.cardSize, r)
    ensures First(c, Encode(c, r) + tail) == Some(r)
    ensures (Encode(c, r) + tail)[RECORD_HEADER_SIZE + |r.data|..] == tail
  {
    Capacities();
    var s := Encode(c, r) + tail;
    assert s == Header(c, r) + (r.data + tail);
    HeaderFields(c, r, r.data + tail);
    assert s[52..52 + |r.data|] == r.data;
  }

  lemma ParseEncoded(c: Config, r: Record, tail: seq<byte>)
    requires c.Valid() && Fits(c.cardSize, r)
    ensures Parse(c, Encode(c, r) + tail) == Prepend(r, Parse(c, tail))
  {
    FirstOfEncoded(c, r, tail);
  }

  lemma EncodeSplit(c: Config, rs: seq<Record>, tail: seq<byte>)
    requires c.Digests() && |rs| > 0
    ensures EncodeAll(c, rs) + tail == Encode(c, rs[0]) + (EncodeAll(c, rs[1..]) + tail)
  {
    Uncons(rs);
    EncodeCons(c, rs[0], rs[1..]);
    ConcatAssociates(Encode(c, rs[0]), EncodeAll(c, rs[1..]), tail);
  }

  function PrependAll(rs: seq<Record>, more: Option<seq<Record>>): Option<seq<Record>> {
    if more.None? then None else Some(rs + more.value)
  }

  lemma PrependSplit(rs: seq<Record>, more: Option<seq<Record>>)
    ensures rs == [] ==> PrependAll(rs, more) == more
    ensures rs != [] ==> PrependAll(rs, more) == Prepend(rs[0], PrependAll(rs[1..], more))
  {
    if more.Some? {
      if rs == [] {
        assert rs + more.value == more.value;
      } else {
        assert [rs[0]] + (rs[1..] + more.value) == rs + more.value;
      }
    }
  }

  /** Reading a journal gives back the appended records, then whatever the tail gives. */
  lemma {:induction false} JournalRoundTrip(c: Config, rs: seq<Record>, tail: seq<byte>)
    requires c.Valid() && AllFit(c.cardSize, rs)
    ensures Parse(c, EncodeAll(c, rs) + tail) == PrependAll(rs, Parse(c, tail))
    decreases |rs|
  {
    PrependSplit(rs, Parse(c, tail));
    if |rs| == 0 {
      assert EncodeAll(c, rs) + tail == tail;
    } else {
      EncodeSplit(c, rs, tail);
      ParseEncoded(c, rs[0], EncodeAll(c, rs[1..]) + tail);
      JournalRoundTrip(c, rs[1..], tail);
    }
  }

  /** A journal of whole records is accepted exactly when their payload is within the limit. */
  lemma WholeJournalAccepted(c: Config, rs: seq<Record>)
    requires c.Valid() && AllFit(c.cardSize, rs)
    ensures Decode(c, EncodeAll(c, rs)) == if Payload(rs) <= c.maxPendingBytes then Some(rs) else None
  {
    JournalRoundTrip(c, rs, []);
    assert EncodeAll(c, rs) + [] == EncodeAll(c, rs);
    assert rs + [] == rs;
  }

  lemma FirstOnto(c: Config, s: seq<byte>)
    requires c.Digests() && First(c, s).Some?
    ensures var r := First(c, s).value; s == Encode(c, r) + s[RECORD_HEADER_SIZE + |r.data|..]
  {
    var r := First(c, s).value;
    LittleEndianOnto(s[8..16]);
    LittleEndianOnto(s[16..20]);
    assert Header(c, r) == s[..RECORD_HEADER_SIZE] by {
      assert s[..RECORD_HEADER_SIZE] == s[..8] + s[8..16] + s[16..20] + s[20..RECORD_HEADER_SIZE];
    }
    assert s == s[..RECORD_HEADER_SIZE] + r.data + s[RECORD_HEADER_SIZE + |r.data|..];
  }

  /** A readable journal is the encoding of the records it holds, so decoding loses nothing. */
  lemma {:induction false} ParseOnto(c: Config, s: seq<byte>)
    requires c.Digests() && Parse(c, s).Some?
    ensures EncodeAll(c, Parse(c, s).value) == s
    decreases |s|
  {
    if |s| > 0 {
      var r := First(c, s).value;
      var tail := s[RECORD_HEADER_SIZE + |r.data|..];
      ParseOnto(c, tail);
      EncodeCons(c, r, Parse(c, tail).value);
      FirstOnto(c, s);
    }
  }

  lemma {:induction false} PayloadConcat(a: seq<Record>, b: seq<Record>)
    ensures Payload(a + b) == Payload(a) + Payload(b)
  {
    if b == [] {
      assert a + b == a;
    } else {
      PayloadConcat(a, b[..|b| - 1]);
      assert (a + b)[..|a + b| - 1] == a + b[..|b| - 1];
    }
  }

  /** A journal that ends in a proper, non-empty prefix of any record is refused. */
  lemma TornJournalRejected(c: Config, rs: seq<Record>, r: Record, k: nat)
    requires c.Valid() && AllFit(c.cardSize, rs)
    requires r.offset < Capacity(8) && |r.data| < Capacity(4)
    requires 0 < k < |Encode(c, r)|
    ensures Decode(c, EncodeAll(c, rs) + Encode(c, r)[..k]) == None
  {
    var torn := Encode(c, r)[..k];
    JournalRoundTrip(c, rs, torn);
    if k >= RECORD_HEADER_SIZE {
      assert torn == Header(c, r) + r.data[..k - RECORD_HEADER_SIZE];
      HeaderFields(c, r, r.data[..k - RECORD_HEADER_SIZE]);
    }
  }

  /** The card after the records have been applied in order. */
  function Replay(card: seq<byte>, rs: seq<Record>): (r: seq<byte>)
    requires AllFit(|card|, rs)
    ensures |r| == |card|
  {
    if rs == [] then card
    else
      var last := rs[|rs| - 1];
      Patch(Replay(card, rs[..|rs| - 1]), last.offset, last.data)
  }

  lemma ReplaySnoc(card: seq<byte>, rs: seq<Record>, r: Record)
    requires AllFit(|card|, rs) && Fits(|card|, r)
    ensures AllFit(|card|, rs + [r])
    ensures Replay(card, rs + [r]) == Patch(Replay(card, rs), r.offset, r.data)
  {
    assert (rs + [r])[..|rs|] == rs;
  }

  ghost predicate Covered(rs: seq<Record>, i: int) {
    exists k :: 0 <= k < |rs| && rs[k].offset <= i < rs[k].offset + |rs[k].data|
  }

  /** A covered byte no longer depends on the base; an uncovered byte is the base's. */
  lemma {:induction false} ReplayAt(a: seq<byte>, b: seq<byte>, rs: seq<Record>, i: nat)
    requires |a| == |b| && AllFit(|a|, rs) && i < |a|
    ensures Covered(rs, i) ==> Replay(a, rs)[i] == Replay(b, rs)[i]
    ensures !Covered(rs, i) ==> Replay(a, rs)[i] == a[i]
  {
    if rs != [] {
      var front, last := rs[..|rs| - 1], rs[|rs| - 1];
      ReplayAt(a, b, front, i);
      if Covered(front, i) {
        assert Covered(rs, i);
      } else if last.offset <= i < last.offset + |last.data| {
        assert rs[|rs| - 1] == last;
      } else {
        forall k | 0 <= k < |rs| ensures !(rs[k].offset <= i < rs[k].offset + |rs[k].data|) {
          assert k < |front| ==> front[k] == rs[k];
        }
      }
    }
  }

  /** `a` and `b` agree wherever the record does not write. */
  ghost predicate AgreeBeside(a: seq<byte>, b: seq<byte>, r: Record) {
    |a| == |b| && forall i :: 0 <= i < |a| && !(r.offset <= i < r.offset + |r.data|) ==> a[i] == b[i]
  }

  lemma ReplayKeepsAgreement(a: seq<byte>, b: seq<byte>, rs: seq<Record>, r: Record)
    requires AgreeBeside(a, b, r) && AllFit(|a|, rs)
    ensures AgreeBeside(Replay(a, rs), Replay(b, rs), r)
  {
    forall i: nat | i < |a| && !(r.offset <= i < r.offset + |r.data|) ensures Replay(a, rs)[i] == Replay(b, rs)[i] {
      ReplayAt(a, b, rs, i);
      ReplayAt(b, a, rs, i);
    }
  }

  lemma PatchAgrees(a: seq<byte>, b: seq<byte>, r: Record)
    requires AgreeBeside(a, b, r) && Fits(|a|, r)
    ensures Patch(a, r.offset, r.data) == Patch(b, r.offset, r.data)
  {
  }

  /** Two cards that differ only inside the last record are one card once it is replayed. */
  lemma ReplayAgrees(a: seq<byte>, b: seq<byte>, rs: seq<Record>, r: Record)
    requires AgreeBeside(a, b, r) && AllFit(|a|, rs) && Fits(|a|, r)
    ensures AllFit(|a|, rs + [r]) && Replay(a, rs + [r]) == Replay(b, rs + [r])
  {
    ReplaySnoc(a, rs, r);
    ReplaySnoc(b, rs, r);
    ReplayKeepsAgreement(a, b, rs, r);
    PatchAgrees(Replay(a, rs), Replay(b, rs), r);
  }

  /** Replaying a journal over a card that already holds its effects changes nothing. */
  lemma ReplayIdempotent(card: seq<byte>, rs: seq<Record>)
    requires AllFit(|card|, rs)
    ensures Replay(Replay(card, rs), rs) == Replay(card, rs)
  {
    var once := Replay(card, rs);
    forall i: nat | i < |card| ensures Replay(once, rs)[i] == once[i] {
      ReplayAt(card, once, rs, i);
      ReplayAt(once, card, rs, i);
    }
  }
}
