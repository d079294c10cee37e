/** The NBD transmission phase: a byte stream of requests, answered in order on one connection. */
module Nbd {
  import opened Bytes

  const REQUEST_MAGIC: nat := 0x25609513
  const REPLY_MAGIC: nat := 0x67446698
  const READ: nat := 0
  const WRITE: nat := 1
  const DISCONNECT: nat := 2
  const FLUSH: nat := 3
  const TRIM: nat := 4
  const WRITE_ZEROES: nat := 6
  const EPERM: nat := 1
  const EIO: nat := 5
  const EINVAL: nat := 22
  const REQUEST_SIZE: nat := 28
  const REPLY_SIZE: nat := 16

  // ---- Framing ----

  /** One request with the payload that belongs to it. */
  datatype Request = Request(flags: nat, command: nat, handle: nat, offset: nat, length: nat, payload: seq<byte>)

  /** What the next bytes of the stream are. */
  datatype Next =
    | Got(request: Request, next: nat)
    | EndOfStream | BadMagic | Disconnected | Oversized | Truncated

  ghost predicate Fields(r: Request) {
    && r.flags < 0x1_0000 && r.command < 0x1_0000 && r.handle < Capacity(8) && r.offset < Capacity(8)
    && r.length < Capacity(4)
  }

  /** The fixed part of a request. */
  datatype Header = Header(magic: nat, flagsType: nat, handle: nat, offset: nat, length: nat)

  function DecodeHeader(h: seq<byte>): Header
    requires |h| == REQUEST_SIZE
  {
    Header(FromBigEndian(h[0..4]), FromBigEndian(h[4..8]), FromBigEndian(h[8..16]),
      FromBigEndian(h[16..24]), FromBigEndian(h[24..28]))
  }

  /** The 28 bytes that a client sends before the payload. */
  function EncodeHeader(r: Request): (s: seq<byte>)
    ensures |s| == 28
  {
    [0x25, 0x60, 0x95, 0x13] + (BigEndian(2, r.flags) + BigEndian(2, r.command)) + BigEndian(8, r.handle)
    + BigEndian(8, r.offset) + BigEndian(4, r.length)
  }

  function HeaderOf(r: Request): Header {
    Header(REQUEST_MAGIC, r.flags * 0x1_0000 + r.command, r.handle, r.offset, r.length)
  }

  lemma Slices(a: seq<byte>, b: seq<byte>, c: seq<byte>, d: seq<byte>, e: seq<byte>, s: seq<byte>)
    requires |a| == 4 && |b| == 4 && |c| == 8 && |d| == 8 && |e| == 4 && s == a + b + c + d + e
    ensures s[0..4] == a && s[4..8] == b && s[8..16] == c && s[16..24] == d && s[24..28] == e
  {
  }

  /** The server reads each field where the client puts it. */
  lemma HeaderRoundTrip(r: Request)
    requires Fields(r)
    ensures DecodeHeader(EncodeHeader(r)) == HeaderOf(r)
  {
    var magic: seq<byte> := [0x25, 0x60, 0x95, 0x13];
    Slices(magic, BigEndian(2, r.flags) + BigEndian(2, r.command), BigEndian(8, r.handle), BigEndian(8, r.offset),
           BigEndian(4, r.length), EncodeHeader(r));
    Capacities();
    FourByteWeights(magic);
    BigEndianJoins(BigEndian(2, r.flags), BigEndian(2, r.command));
    BigEndianRoundTrip(2, r.flags);
    BigEndianRoundTrip(2, r.command);
    BigEndianRoundTrip(8, r.handle);
    BigEndianRoundTrip(8, r.offset);
    BigEndianRoundTrip(4, r.length);
  }

  function PayloadSize(h: Header): nat {
    if h.flagsType % 0x1_0000 == WRITE then h.length else 0
  }

  /** Reads one request at a position; it depends on the stream and the size limit only. */
  function Parse(input: seq<byte>, pos: nat, maxRequest: nat): (n: Next)
    ensures n.Got? ==> n.next == pos + REQUEST_SIZE + |n.request.payload| <= |input|
    ensures n.Got? ==> |n.request.payload| == if n.request.command == WRITE then n.request.length else 0
  {
    if pos + REQUEST_SIZE > |input| then EndOfStream
    else ParseHeader(input, pos + REQUEST_SIZE, DecodeHeader(input[pos..pos + REQUEST_SIZE]), maxRequest)
  }

  function ParseHeader(input: seq<byte>, pos: nat, h: Header, maxRequest: nat): (n: Next)
    requires pos <= |input|
    ensures n.Got? ==> n.next == pos + |n.request.payload| <= |input|
    ensures n.Got? ==> |n.request.payload| == if n.request.command == WRITE then n.request.length else 0
  {
    var command := h.flagsType % 0x1_0000;
    if h.magic != REQUEST_MAGIC then BadMagic
    else if command == DISCONNECT then Disconnected
    else if command == WRITE && h.length > maxRequest then Oversized
    else if pos + PayloadSize(h) > |input| then Truncated
    else
      Got(Request(h.flagsType / 0x1_0000, command, h.handle, h.offset, h.length, input[pos..pos + PayloadSize(h)]),
        pos + PayloadSize(h))
  }

  /** How a client sends a request. */
  function Encode(r: Request): seq<byte> {
    EncodeHeader(r) + r.payload
  }

  /** A request that the server takes in full, whatever it answers: command 1 is a write, 2 a disconnect. */
  ghost predicate Sendable(r: Request, maxRequest: nat) {
    && Fields(r) && r.command != 2
    && (if r.command == 1 then r.length <= maxRequest && |r.payload| == r.length else r.payload == [])
  }

  lemma Middle(before: seq<byte>, header: seq<byte>, payload: seq<byte>, after: seq<byte>, input: seq<byte>)
    requires input == before + (header + payload) + after
    ensures input[|before|..|before| + |header|] == header
    ensures input[|before| + |header|..|before| + |header| + |payload|] == payload
  {
  }

  /** Every request is read back exactly, with nothing taken from what surrounds it. */
  lemma RequestRoundTrip(before: seq<byte>, r: Request, after: seq<byte>, maxRequest: nat)
    requires Sendable(r, maxRequest)
    ensures Parse(before + Encode(r) + after, |before|, maxRequest) == Got(r, |before| + |Encode(r)|)
  {
    var input := before + Encode(r) + after;
    Middle(before, EncodeHeader(r), r.payload, after, input);
    HeaderRoundTrip(r);
    ParsesHeader(input, |before| + REQUEST_SIZE, r, maxRequest);
  }

  lemma ParsesHeader(input: seq<byte>, pos: nat, r: Request, maxRequest: nat)
    requires Sendable(r, maxRequest) && pos + |r.payload| <= |input| && input[pos..pos + |r.payload|] == r.payload
    ensures ParseHeader(input, pos, HeaderOf(r), maxRequest) == Got(r, pos + |r.payload|)
  {
    CommandOf(r);
  }

  lemma CommandOf(r: Request)
    requires Fields(r)
    ensures HeaderOf(r).flagsType % 0x1_0000 == r.command && HeaderOf(r).flagsType / 0x1_0000 == r.flags
  {
  }

  /**
   * Where the stream stops: at a disconnect, at a write larger than the limit, at a payload that is
   * cut off, or when fewer than 28 bytes are left.
   */
  lemma StopsAtHeader(before: seq<byte>, r: Request, after: seq<byte>, maxRequest: nat)
    requires Fields(r)
    ensures var next := Parse(before + EncodeHeader(r) + after, |before|, maxRequest);
      && (next == Disconnected <==> r.command == 2)
      && (next == Oversized <==> r.command == 1 && r.length > maxRequest)
      && (next == Truncated <==> r.command == 1 && |after| < r.length <= maxRequest)
      && next != EndOfStream && next != BadMagic
  {
    var input := before + EncodeHeader(r) + after;
    assert input[|before|..|before| + 28] == EncodeHeader(r);
    HeaderRoundTrip(r);
    CommandOf(r);
  }

  /** The stream ends where no 28 bytes are left, and is refused exactly where other bytes than the magic are. */
  lemma StopsBeforeHeader(input: seq<byte>, pos: nat, maxRequest: nat)
    ensures Parse(input, pos, maxRequest) == EndOfStream <==> pos + 28 > |input|
    ensures pos + 28 <= |input| ==>
      (Parse(input, pos, maxRequest) == BadMagic <==> input[pos..pos + 4] != [0x25, 0x60, 0x95, 0x13])
  {
    if pos + 28 <= |input| {
      var magic: seq<byte> := [0x25, 0x60, 0x95, 0x13];
      assert input[pos..pos + 28][0..4] == input[pos..pos + 4];
      FourByteWeights(magic);
      BigEndianOnto(magic);
      BigEndianOnto(input[pos..pos + 4]);
    }
  }

  // ---- What a session must look like ----

  /** One answered request. */
  datatype Exchange = Exchange(request: Request, status: nat, data: seq<byte>)

  function Frame(e: Exchange): seq<byte> {
    BigEndian(4, REPLY_MAGIC) + BigEndian(4, e.status) + BigEndian(8, e.request.handle) + e.data
  }

  /** A client reads back the status and the handle of its own request, and all of the payload. */
  lemma ReplyDecodes(e: Exchange)
    requires e.status < Capacity(4) && e.request.handle < Capacity(8)
    ensures var f := Frame(e);
      && |f| == 16 + |e.data| && FromBigEndian(f[0..4]) == 0x6744_6698 && FromBigEndian(f[4..8]) == e.status
      && FromBigEndian(f[8..16]) == e.request.handle && f[16..] == e.data
  {
    Capacities();
    ReplySlices(BigEndian(4, REPLY_MAGIC), BigEndian(4, e.status), BigEndian(8, e.request.handle), e.data, Frame(e));
    BigEndianRoundTrip(4, REPLY_MAGIC);
    BigEndianRoundTrip(4, e.status);
    BigEndianRoundTrip(8, e.request.handle);
  }

  lemma ReplySlices(a: seq<byte>, b: seq<byte>, c: seq<byte>, d: seq<byte>, s: seq<byte>)
    requires |a| == 4 && |b| == 4 && |c| == 8 && s == a + b + c + d
    ensures s[0..4] == a && s[4..8] == b && s[8..16] == c && s[16..] == d
  {
  }

  function Frames(es: seq<Exchange>): seq<byte> {
    if es == [] then [] else Frames(es[..|es| - 1]) + Frame(es[|es| - 1])
  }

  /** How an export behaves: whether its storage can fail, and which in-range writes it takes at all. */
  datatype Manner = Manner(sound: bool, accepts: (nat, nat) -> bool)

  /**
   * Which answers the protocol rules allow. Payload goes with a successful read only, at its exact length.
   * The commands are 0 read, 1 write, 3 flush, 4 trim and 6 write zeroes; the errors are 1 not permitted,
   * 5 input or output and 22 invalid.
   */
  ghost predicate Allowed(e: Exchange, size: nat, readOnly: bool, maxRequest: nat, manner: Manner) {
    var r := e.request;
    var inRange := 0 < r.length <= maxRequest && r.offset + r.length <= size;
    && (e.data != [] ==> r.command == 0 && e.status == 0)
    && (r.command == 0 ==>
      if inRange then (e.status == 0 && |e.data| == r.length) || (e.status == 5 && !manner.sound)
      else e.status == 22)
    && (r.command == 3 ==> e.status == 0 || (e.status == 5 && !readOnly && !manner.sound))
    && (r.command == 1 ==>
      if !inRange then e.status == 22
      else if readOnly then e.status == 1
      else e.status == (if manner.accepts(r.offset, r.length) then 0 else 1) || (e.status == 5 && !manner.sound))
    && (r.command == 4 ==> e.status == 1)
    && (r.command == 6 ==> e.status == if r.length > maxRequest then 22 else 1)
    && (r.command !in {0, 1, 3, 4, 6} ==> e.status == 22)
  }

  /** What the export's bytes are before and after an exchange. */
  ghost predicate Effect(e: Exchange, readOnly: bool, before: seq<byte>, after: seq<byte>) {
    var r := e.request;
    && |after| == |before|
    && (r.command == 0 && e.status == 0 ==>
      r.offset + r.length <= |before| && e.data == before[r.offset..r.offset + r.length])
    && (r.command == 1 && e.status == 0 ==>
        r.offset + |r.payload| <= |before| && after == Patch(before, r.offset, r.payload))
    && (r.command != 1 || readOnly || e.status == 22 || e.status == 1 ==> after == before)
  }

  /** A call on the disk, with what it was given; a sync also says how it ended. */
  datatype Call = ReadCall(offset: nat, length: nat) | WriteCall(offset: nat, data: seq<byte>) | SyncCall(ok: bool)

  /**
   * The calls that one exchange makes: one for a read inside the export, one for a write inside a writable
   * export, and for a flush of a writable export one sync, whose outcome is the answer.
   */
  ghost predicate Called(e: Exchange, calls: seq<Call>, size: nat, readOnly: bool, maxRequest: nat) {
    var r := e.request;
    var inRange := 0 < r.length <= maxRequest && r.offset + r.length <= size;
    if r.command == 0 && inRange then calls == [ReadCall(r.offset, r.length)]
    else if r.command == 1 && inRange && !readOnly then calls == [WriteCall(r.offset, r.payload)]
    else if r.command == 3 && !readOnly then
      |calls| == 1 && calls[0].SyncCall? && e.status == if calls[0].ok then 0 else 5
    else calls == []
  }

  function Flat(calls: seq<seq<Call>>): seq<Call> {
    if calls == [] then [] else Flat(calls[..|calls| - 1]) + calls[|calls| - 1]
  }

  /** A session: the stream is cut into consecutive requests, each with an allowed answer, its calls and its effect. */
  datatype Session = Session(exchanges: seq<Exchange>, marks: seq<nat>, images: seq<seq<byte>>, calls: seq<seq<Call>>,
                             manner: Manner)

  ghost predicate Follows(s: Session, input: seq<byte>, readOnly: bool, maxRequest: nat) {
    && |s.marks| == |s.exchanges| + 1 == |s.images| && |s.calls| == |s.exchanges| && s.marks[0] == 0
    && forall k :: 0 <= k < |s.exchanges| ==> FollowsAt(s, input, readOnly, maxRequest, k)
  }

  ghost predicate FollowsAt(s: Session, input: seq<byte>, readOnly: bool, maxRequest: nat, k: nat)
    requires |s.marks| == |s.exchanges| + 1 == |s.images| && |s.calls| == |s.exchanges| && k < |s.exchanges|
  {
    && Parse(input, s.marks[k], maxRequest) == Got(s.exchanges[k].request, s.marks[k + 1])
    && |s.images[k]| == |s.images[0]| && Allowed(s.exchanges[k], |s.images[0]|, readOnly, maxRequest, s.manner)
    && Called(s.exchanges[k], s.calls[k], |s.images[0]|, readOnly, maxRequest)
    && Effect(s.exchanges[k], readOnly, s.images[k], s.images[k + 1])
  }

  function More(s: Session, e: Exchange, mark: nat, image: seq<byte>, calls: seq<Call>): Session {
    Session(s.exchanges + [e], s.marks + [mark], s.images + [image], s.calls + [calls], s.manner)
  }

  lemma FollowsMore(s: Session, input: seq<byte>, readOnly: bool, maxRequest: nat, e: Exchange, mark: nat,
                    image: seq<byte>, calls: seq<Call>)
    requires Follows(s, input, readOnly, maxRequest)
    requires Parse(input, s.marks[|s.exchanges|], maxRequest) == Got(e.request, mark)
    requires |s.images[|s.exchanges|]| == |s.images[0]|
    requires Allowed(e, |s.images[0]|, readOnly, maxRequest, s.manner)
    requires Called(e, calls, |s.images[0]|, readOnly, maxRequest)
    requires Effect(e, readOnly, s.images[|s.exchanges|], image)
    ensures Follows(More(s, e, mark, image, calls), input, readOnly, maxRequest)
  {
    var n := More(s, e, mark, image, calls);
    forall k | 0 <= k < |n.exchanges| ensures FollowsAt(n, input, readOnly, maxRequest, k) {
      if k < |s.exchanges| {
        assert FollowsAt(s, input, readOnly, maxRequest, k);
      }
    }
  }

  ghost predicate CallInside(c: Call, size: nat) {
    match c
    case ReadCall(offset, length) => length > 0 && offset + length <= size
    case WriteCall(offset, data) => data != [] && offset + |data| <= size
    case SyncCall(_) => true
  }

  lemma {:induction false} InFlat(calls: seq<seq<Call>>, c: Call) returns (k: nat)
    requires c in Flat(calls)
    ensures k < |calls| && c in calls[k]
  {
    k := |calls| - 1;
    if c !in calls[k] {
      k := InFlat(calls[..k], c);
    }
  }

  /** No call of a session ever leaves the disk. */
  lemma CallsStayInside(s: Session, input: seq<byte>, readOnly: bool, maxRequest: nat, c: Call)
    requires Follows(s, input, readOnly, maxRequest) && c in Flat(s.calls)
    ensures CallInside(c, |s.images[0]|)
  {
    var k := InFlat(s.calls, c);
    assert FollowsAt(s, input, readOnly, maxRequest, k);
  }

  /** How the syncs among some calls ended, in order. */
  function Syncs(calls: seq<Call>): seq<bool> {
    if calls == [] then []
    else
      var last := calls[|calls| - 1];
      Syncs(calls[..|calls| - 1]) + if last.SyncCall? then [last.ok] else []
  }

  /** The answers to the flushes among some exchanges, in order: whether each reported success. */
  function Flushes(es: seq<Exchange>): seq<bool> {
    if es == [] then []
    else
      var last := es[|es| - 1];
      Flushes(es[..|es| - 1]) + if last.request.command == 3 then [last.status == 0] else []
  }

  lemma {:induction false} SyncsConcat(a: seq<Call>, b: seq<Call>)
    ensures Syncs(a + b) == Syncs(a) + Syncs(b)
  {
    if b == [] {
      assert a + b == a;
    } else {
      var front := b[..|b| - 1];
      SyncsConcat(a, front);
      assert (a + b)[..|a + b| - 1] == a + front;
    }
  }

  lemma OneCall(e: Exchange, calls: seq<Call>, size: nat, readOnly: bool, maxRequest: nat)
    requires Called(e, calls, size, readOnly, maxRequest)
    ensures Syncs(calls) == if !readOnly && e.request.command == 3 then [e.status == 0] else []
  {
    if calls != [] {
      assert calls[..|calls| - 1] == [];
    }
  }

  /**
   * Every flush of a writable export is one sync of the disk, and is answered with success exactly if that
   * sync succeeded; nothing else syncs, and a read-only export is never synced.
   */
  lemma {:induction false} FlushesAreSyncs(s: Session, input: seq<byte>, readOnly: bool, maxRequest: nat, k: nat)
    requires Follows(s, input, readOnly, maxRequest) && k <= |s.exchanges|
    ensures Syncs(Flat(s.calls[..k])) == if readOnly then [] else Flushes(s.exchanges[..k])
  {
    if k > 0 {
      FlushesAreSyncs(s, input, readOnly, maxRequest, k - 1);
      assert FollowsAt(s, input, readOnly, maxRequest, k - 1);
      OneMoreExchange(s.exchanges, s.calls, k);
      SyncsConcat(Flat(s.calls[..k - 1]), s.calls[k - 1]);
      OneCall(s.exchanges[k - 1], s.calls[k - 1], |s.images[0]|, readOnly, maxRequest);
    }
  }

  lemma OneMoreExchange(es: seq<Exchange>, calls: seq<seq<Call>>, k: nat)
    requires 0 < k <= |es| == |calls|
    ensures Flat(calls[..k]) == Flat(calls[..k - 1]) + calls[k - 1]
    ensures Flushes(es[..k]) ==
      Flushes(es[..k - 1]) + if es[k - 1].request.command == 3 then [es[k - 1].status == 0] else []
  {
    assert calls[..k][..k - 1] == calls[..k - 1] && es[..k][..k - 1] == es[..k - 1];
  }

  lemma AllFlushes(s: Session, input: seq<byte>, readOnly: bool, maxRequest: nat)
    requires Follows(s, input, readOnly, maxRequest)
    ensures Syncs(Flat(s.calls)) == if readOnly then [] else Flushes(s.exchanges)
  {
    FlushesAreSyncs(s, input, readOnly, maxRequest, |s.exchanges|);
    assert s.calls[..|s.exchanges|] == s.calls && s.exchanges[..|s.exchanges|] == s.exchanges;
  }

  // ---- The connection and the export ----

  /** Only the beginning of a frame was sent. */
  ghost predicate CutShort(before: seq<byte>, frame: seq<byte>, after: seq<byte>) {
    exists n: nat :: n <= |frame| && after == before + frame[..n]
  }

  /** All replies were sent but the last, of which only a beginning was. */
  ghost predicate LastReplyCut(es: seq<Exchange>, output: seq<byte>) {
    es != [] && CutShort(Frames(es[..|es| - 1]), Frame(es[|es| - 1]), output)
  }

  class Connection {
    const input: seq<byte>
    const sound: bool
    var pos: nat
    var output: seq<byte>

    constructor (input: seq<byte>, sound: bool)
      ensures this.input == input && this.sound == sound && pos == 0 && output == []
    {
      this.input, this.sound, pos, output := input, sound, 0, [];
    }

    /** Takes exactly `n` bytes, or reports the end of the stream. */
    method ReadFull(n: nat) returns (data: seq<byte>, ok: bool)
      requires pos <= |input|
      modifies `pos
      ensures pos <= |input|
      ensures ok <==> old(pos) + n <= |input|
      ensures ok ==> pos == old(pos) + n && data == input[old(pos)..pos]
    {
      if pos + n > |input| {
        pos := |input|;
        return [], false;
      }
      data := input[pos..pos + n];
      pos, ok := pos + n, true;
    }

    /** Sends a frame, or only its beginning when the connection fails. */
    method Write(frame: seq<byte>) returns (ok: bool)
      modifies `output
      ensures ok ==> output == old(output) + frame
      ensures !ok ==> CutShort(old(output), frame, output)
      ensures sound ==> ok
    {
      ok := *;
      if sound { ok := true; }
      if ok {
        output := output + frame;
      } else {
        var n: nat :| n <= |frame|;
        ghost var before := output;
        output := output + frame[..n];
        assert output == before + frame[..n];
      }
    }
  }

  datatype WriteError = WriteOk | Refused | WriteFailed

  class Export {
    const readOnly: bool
    const manner: Manner
    var bytes: seq<byte>
    var calls: seq<Call>

    constructor (bytes: seq<byte>, readOnly: bool, manner: Manner)
      ensures this.bytes == bytes && this.readOnly == readOnly && this.manner == manner && calls == []
    {
      this.bytes, this.readOnly, this.manner, calls := bytes, readOnly, manner, [];
    }

    method ReadAt(p: array<byte>, start: nat, count: nat, offset: nat) returns (n: nat, ok: bool)
      requires start + count <= p.Length
      modifies p, `calls
      ensures calls == old(calls) + [ReadCall(offset, count)]
      ensures p[..start] == old(p[..start])
      ensures ok && n == count ==> offset + count <= |bytes| && p[start..start + count] == bytes[offset..offset + count]
      ensures manner.sound && offset + count <= |bytes| ==> ok && n == count
    {
      calls := calls + [ReadCall(offset, count)];
      var failed: bool := *;
      if (failed && !manner.sound) || offset + count > |bytes| { return 0, false; }
      ghost var before := p[..];
      CopyInto(p, start, bytes[offset..offset + count]);
      assert p[..][..start] == before[..start];
      n, ok := count, true;
    }

    /** A write that is not accepted changes nothing; one that fails may have left anything behind. */
    method WriteAt(data: seq<byte>, offset: nat) returns (n: nat, err: WriteError)
      requires !readOnly
      modifies this
      ensures calls == old(calls) + [WriteCall(offset, data)] && |bytes| == |old(bytes)|
      ensures err == WriteOk && n == |data| ==> offset + |data| <= |bytes| && bytes == Patch(old(bytes), offset, data)
      ensures err == WriteOk && n == |data| ==> manner.accepts(offset, |data|)
      ensures err == Refused ==> !manner.accepts(offset, |data|) && bytes == old(bytes)
      ensures manner.sound && offset + |data| <= |bytes| && manner.accepts(offset, |data|) ==>
        err == WriteOk && n == |data|
      ensures manner.sound && offset + |data| <= |bytes| && !manner.accepts(offset, |data|) ==> err == Refused
    {
      calls := calls + [WriteCall(offset, data)];
      var failed: bool := *;
      if (failed && !manner.sound) || offset + |data| > |bytes| { return 0, WriteFailed; }
      if !manner.accepts(offset, |data|) { return 0, Refused; }
      bytes := Patch(bytes, offset, data);
      n, err := |data|, WriteOk;
    }

    method Sync() returns (ok: bool)
      requires !readOnly
      modifies `calls
      ensures calls == old(calls) + [SyncCall(ok)]
      ensures manner.sound ==> ok
    {
      ok := *;
      ok := ok || manner.sound;
      calls := calls + [SyncCall(ok)];
    }
  }

  // ---- The server ----

  datatype Outcome = Ended(next: Next) | ReplyFailed

  class Server {
    const maxRequest: nat
    /** A buffer that an earlier request has returned, with whatever it still holds. */
    var pooled: array?<byte>

    constructor (maxRequest: nat)
      ensures this.maxRequest == maxRequest && pooled == null
    {
      this.maxRequest, pooled := maxRequest, null;
    }

    /** A buffer with room for a reply header and the payload, new or reused. */
    method AcquireBuffer(length: nat) returns (frame: array<byte>)
      modifies `pooled
      ensures frame.Length >= REPLY_SIZE + length && (frame == old(pooled) || fresh(frame)) && pooled == null
    {
      if pooled != null && pooled.Length >= REPLY_SIZE + length {
        frame := pooled;
      } else {
        frame := new byte[REPLY_SIZE + length](_ => 0);
      }
      pooled := null;
    }

    /** Keeps a buffer for later unless it is larger than any request. */
    method ReleaseBuffer(frame: array<byte>)
      modifies `pooled
      ensures pooled == old(pooled) || pooled == frame
    {
      if frame.Length - REPLY_SIZE <= maxRequest { pooled := frame; }
    }

    /** Answers a read: the payload of a good read, and no payload otherwise. */
    method ServeRead(disk: Export, r: Request) returns (e: Exchange)
      requires r.command == 0
      modifies this, pooled, disk`calls
      ensures e.request == r && Allowed(e, |disk.bytes|, disk.readOnly, maxRequest, disk.manner)
      ensures Effect(e, disk.readOnly, disk.bytes, disk.bytes)
      ensures old(disk.calls) <= disk.calls
      ensures Called(e, disk.calls[|old(disk.calls)|..], |disk.bytes|, disk.readOnly, maxRequest)
      ensures pooled == old(pooled) || pooled == null || fresh(pooled)
    {
      if r.length == 0 || r.length > maxRequest || r.offset > |disk.bytes| || r.length > |disk.bytes| - r.offset {
        return Exchange(r, EINVAL, []);
      }
      var frame := AcquireBuffer(r.length);
      var n, ok := disk.ReadAt(frame, REPLY_SIZE, r.length, r.offset);
      if !ok || n != r.length {
        ReleaseBuffer(frame);
        return Exchange(r, EIO, []);
      }
      e := Exchange(r, 0, frame[REPLY_SIZE..REPLY_SIZE + r.length]);
      ReleaseBuffer(frame);
    }

    /** Consumes a write's payload, whatever the answer, and passes it on only inside a writable disk. */
    method ServeWrite(conn: Connection, disk: Export, r: Request) returns (e: Exchange, complete: bool)
      requires r.command == 1 && conn.pos <= |conn.input| && r.length <= maxRequest
      modifies conn`pos, disk
      ensures conn.pos <= |conn.input| && |disk.bytes| == |old(disk.bytes)|
      ensures complete <==> old(conn.pos) + r.length <= |conn.input|
      ensures complete ==> conn.pos == old(conn.pos) + r.length
      ensures complete ==> e.request == r.(payload := conn.input[old(conn.pos)..conn.pos])
      ensures complete ==> Allowed(e, |disk.bytes|, disk.readOnly, maxRequest, disk.manner)
      ensures complete ==> Effect(e, disk.readOnly, old(disk.bytes), disk.bytes)
      ensures old(disk.calls) <= disk.calls
      ensures complete ==> Called(e, disk.calls[|old(disk.calls)|..], |disk.bytes|, disk.readOnly, maxRequest)
      ensures !complete ==> disk.bytes == old(disk.bytes) && disk.calls == old(disk.calls)
    {
      var data;
      data, complete := conn.ReadFull(r.length);
      e := Exchange(r, 0, []);
      if !complete { return; }
      var full := r.(payload := data);
      if r.length == 0 || r.length > maxRequest || r.offset > |disk.bytes| || r.length > |disk.bytes| - r.offset {
        return Exchange(full, EINVAL, []), true;
      }
      if disk.readOnly { return Exchange(full, EPERM, []), true; }
      var n, err := disk.WriteAt(data, r.offset);
      if err == WriteOk && n == |data| {
        e := Exchange(full, 0, []);
      } else {
        e := Exchange(full, if err == Refused then EPERM else EIO, []);
      }
    }

    /** Answers the commands that carry no payload either way. */
    method ServeOther(disk: Export, r: Request) returns (e: Exchange)
      requires r.command != 0 && r.command != 1
      modifies disk`calls
      ensures e.request == r && Allowed(e, |disk.bytes|, disk.readOnly, maxRequest, disk.manner)
      ensures Effect(e, disk.readOnly, disk.bytes, disk.bytes)
      ensures r.command == 3 && !disk.readOnly ==>
        exists ok :: disk.calls == old(disk.calls) + [SyncCall(ok)] && e.status == if ok then 0 else 5
      ensures r.command != 3 || disk.readOnly ==> disk.calls == old(disk.calls)
    {
      var status := 0;
      if r.command == FLUSH {
        if !disk.readOnly {
          var ok := disk.Sync();
          if !ok { status := EIO; }
          assert disk.calls == old(disk.calls) + [SyncCall(ok)];
        }
      } else if r.command == TRIM || r.command == WRITE_ZEROES {
        status := EPERM;
        if r.command == WRITE_ZEROES && r.length > maxRequest { status := EINVAL; }
      } else {
        status := EINVAL;
      }
      e := Exchange(r, status, []);
    }

    /** Takes the next request off the stream and answers it, or says why there is none. */
    method ServeNext(conn: Connection, disk: Export) returns (e: Exchange, next: Next)
      requires conn.pos <= |conn.input|
      modifies this, pooled, conn`pos, disk
      ensures conn.pos <= |conn.input| && Parse(conn.input, old(conn.pos), maxRequest) == next
      ensures |disk.bytes| == |old(disk.bytes)| && (pooled == null || pooled == old(pooled) || fresh(pooled))
      ensures next.Got? ==>
        next == Got(e.request, conn.pos) && Allowed(e, |disk.bytes|, disk.readOnly, maxRequest, disk.manner)
      ensures next.Got? ==> Effect(e, disk.readOnly, old(disk.bytes), disk.bytes)
      ensures old(disk.calls) <= disk.calls
      ensures next.Got? ==>
        Called(e, disk.calls[|old(disk.calls)|..], |disk.bytes|, disk.readOnly, maxRequest)
      ensures !next.Got? ==> disk.bytes == old(disk.bytes) && disk.calls == old(disk.calls)
    {
      e := Exchange(Request(0, 0, 0, 0, 0, []), 0, []);
      var header, ok := conn.ReadFull(REQUEST_SIZE);
      if !ok { return e, EndOfStream; }
      var h := DecodeHeader(header);
      if h.magic != REQUEST_MAGIC { return e, BadMagic; }
      var r := Request(h.flagsType / 0x1_0000, h.flagsType % 0x1_0000, h.handle, h.offset, h.length, []);
      if r.command == DISCONNECT { return e, Disconnected; }
      if r.command == READ {
        e := ServeRead(disk, r);
      } else if r.command == WRITE {
        if r.length > maxRequest { return e, Oversized; }
        var complete;
        e, complete := ServeWrite(conn, disk, r);
        if !complete { return e, Truncated; }
      } else {
        e := ServeOther(disk, r);
      }
      next := Got(e.request, conn.pos);
    }

    /** Serves one connection from its first request to its last. */
    method Transmission(conn: Connection, disk: Export) returns (s: Session, outcome: Outcome)
      requires conn.pos == 0 && conn.output == [] && disk.calls == []
      modifies this, pooled, conn, disk
      ensures Follows(s, conn.input, disk.readOnly, maxRequest) && s.manner == disk.manner
      ensures s.images[0] == old(disk.bytes) && s.images[|s.exchanges|] == disk.bytes
      ensures disk.calls == Flat(s.calls)
      ensures Syncs(disk.calls) == if disk.readOnly then [] else Flushes(s.exchanges)
      ensures |disk.bytes| == |old(disk.bytes)|
      ensures outcome.Ended? ==>
        !outcome.next.Got? && Parse(conn.input, s.marks[|s.exchanges|], maxRequest) == outcome.next
      ensures outcome.Ended? ==> conn.output == Frames(s.exchanges)
      ensures outcome == ReplyFailed ==> LastReplyCut(s.exchanges, conn.output)
      ensures conn.sound ==> outcome.Ended?
    {
      s := Session([], [0], [disk.bytes], [], disk.manner);
      while true
        invariant Follows(s, conn.input, disk.readOnly, maxRequest) && s.manner == disk.manner
        invariant conn.pos <= |conn.input| && conn.pos == s.marks[|s.exchanges|]
        invariant s.images[0] == old(disk.bytes) && s.images[|s.exchanges|] == disk.bytes
        invariant |disk.bytes| == |old(disk.bytes)|
        invariant disk.calls == Flat(s.calls)
        invariant conn.output == Frames(s.exchanges)
        invariant pooled == null || pooled == old(pooled) || fresh(pooled)
        decreases |conn.input| - conn.pos
      {
        var before := |disk.calls|;
        var e, next := ServeNext(conn, disk);
        if !next.Got? {
          AllFlushes(s, conn.input, disk.readOnly, maxRequest);
          return s, Ended(next);
        }
        FollowsMore(s, conn.input, disk.readOnly, maxRequest, e, conn.pos, disk.bytes, disk.calls[before..]);
        assert (s.exchanges + [e])[..|s.exchanges|] == s.exchanges;
        assert (s.calls + [disk.calls[before..]])[..|s.calls|] == s.calls;
        s := More(s, e, conn.pos, disk.bytes, disk.calls[before..]);
        var sent := conn.Write(Frame(e));
        if !sent {
          AllFlushes(s, conn.input, disk.readOnly, maxRequest);
          return s, ReplyFailed;
        }
      }
    }
  }

  // ---- Whole client streams ----

  function EncodeAll(rs: seq<Request>): seq<byte> {
    if rs == [] then [] else EncodeAll(rs[..|rs| - 1]) + Encode(rs[|rs| - 1])
  }

  lemma {:induction false} Positions(rs: seq<Request>, n: nat)
    requires n <= |rs|
    ensures exists after :: EncodeAll(rs) == EncodeAll(rs[..n]) + after
    decreases |rs|
  {
    if n < |rs| {
      Positions(rs[..|rs| - 1], n);
      assert rs[..|rs| - 1][..n] == rs[..n];
      var after :| EncodeAll(rs[..|rs| - 1]) == EncodeAll(rs[..n]) + after;
      ConcatAssociates(EncodeAll(rs[..n]), after, Encode(rs[|rs| - 1]));
    } else {
      assert rs[..n] == rs && EncodeAll(rs) == EncodeAll(rs[..n]) + [];
    }
  }

  /** The server never loses its place: in a stream of sendable requests the k-th one is found where it starts. */
  lemma StaysInStep(rs: seq<Request>, k: nat, maxRequest: nat)
    requires k < |rs| && forall i :: 0 <= i < |rs| ==> Sendable(rs[i], maxRequest)
    ensures Parse(EncodeAll(rs), |EncodeAll(rs[..k])|, maxRequest) == Got(rs[k], |EncodeAll(rs[..k + 1])|)
  {
    Positions(rs, k + 1);
    var after :| EncodeAll(rs) == EncodeAll(rs[..k + 1]) + after;
    assert rs[..k + 1][..k] == rs[..k];
    RequestRoundTrip(EncodeAll(rs[..k]), rs[k], after, maxRequest);
  }

  /** Every sendable request of a stream is answered, in order and under its own handle. */
  lemma {:induction false} AnswersInOrder(rs: seq<Request>, s: Session, readOnly: bool, maxRequest: nat, k: nat)
    requires forall i :: 0 <= i < |rs| ==> Sendable(rs[i], maxRequest)
    requires Follows(s, EncodeAll(rs), readOnly, maxRequest) && k <= |s.exchanges| && k <= |rs|
    ensures s.marks[k] == |EncodeAll(rs[..k])|
    ensures k < |s.exchanges| && k < |rs| ==> s.exchanges[k].request == rs[k]
  {
    if k > 0 {
      AnswersInOrder(rs, s, readOnly, maxRequest, k - 1);
      assert FollowsAt(s, EncodeAll(rs), readOnly, maxRequest, k - 1);
      StaysInStep(rs, k - 1, maxRequest);
    }
    if k < |s.exchanges| && k < |rs| {
      assert FollowsAt(s, EncodeAll(rs), readOnly, maxRequest, k);
      StaysInStep(rs, k, maxRequest);
    }
  }

  lemma GotAt(s: Session, input: seq<byte>, readOnly: bool, maxRequest: nat, k: nat)
    requires Follows(s, input, readOnly, maxRequest)
    ensures k < |s.exchanges| ==> Parse(input, s.marks[k], maxRequest).Got?
  {
    if k < |s.exchanges| {
      assert FollowsAt(s, input, readOnly, maxRequest, k);
    }
  }

  /** On a sound connection all of them are answered, and then the stream ends. */
  lemma AllAnswered(rs: seq<Request>, s: Session, readOnly: bool, maxRequest: nat)
    requires forall i :: 0 <= i < |rs| ==> Sendable(rs[i], maxRequest)
    requires Follows(s, EncodeAll(rs), readOnly, maxRequest)
    requires !Parse(EncodeAll(rs), s.marks[|s.exchanges|], maxRequest).Got?
    ensures |s.exchanges| == |rs| && Parse(EncodeAll(rs), s.marks[|s.exchanges|], maxRequest) == EndOfStream
  {
    if |s.exchanges| < |rs| {
      AnswersInOrder(rs, s, readOnly, maxRequest, |s.exchanges|);
      StaysInStep(rs, |s.exchanges|, maxRequest);
    } else {
      AnswersInOrder(rs, s, readOnly, maxRequest, |rs|);
      assert rs[..|rs|] == rs;
      GotAt(s, EncodeAll(rs), readOnly, maxRequest, |rs|);
    }
  }
}
