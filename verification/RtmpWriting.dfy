/** The bytes an RTMP writer produces for media messages and chunk size announcements, and what the reader at the
    other end makes of them. */
module RtmpWriting {
  import opened Bytes
  import opened FlvTags
  import opened RtmpChunks
  import opened RtmpRuns

  /** Header type 0: absolute time, length, type and message stream id; a time that does not fit 24 bits follows. */
  function Header0(csid: nat, timestamp: u32, typeid: byte, msgsid: u32, len: nat): seq<byte> {
    [csid % 64] + BE24(if timestamp < EXTENDED then timestamp else EXTENDED) + BE24(len % 0x100_0000)
      + [typeid] + LE32(msgsid) + (if timestamp < EXTENDED then [] else BE32(timestamp))
  }

  /** Header type 3: the message continues; an extended time is repeated. */
  function Header3(csid: nat, timestamp: u32): seq<byte> {
    [0xc0 + csid % 64] + (if timestamp < EXTENDED then [] else BE32(timestamp))
  }

  /** Cuts data into pieces of at most max bytes, each behind a continuation header. */
  function Continue(csid: nat, timestamp: u32, data: seq<byte>, max: nat): seq<byte>
    requires max >= 1
  {
    if |data| <= max then Header3(csid, timestamp) + data
    else Header3(csid, timestamp) + data[..max] + Continue(csid, timestamp, data[max..], max)
  }

  /** A whole message: the first piece behind a full header. */
  function Encode(csid: nat, timestamp: u32, typeid: byte, msgsid: u32, data: seq<byte>, max: nat): seq<byte>
    requires max >= 1
  {
    Header0(csid, timestamp, typeid, msgsid, |data|)
      + (if |data| <= max then data else data[..max] + Continue(csid, timestamp, data[max..], max))
  }

  /** The announcement of a chunk size is always written in one piece. */
  function EncodeAnnounce(size: nat): seq<byte> {
    Header0(2, 0, SET_CHUNK_SIZE, 0, 4) + BE32(ToU32(size))
  }

  datatype Op = Media(tag: Tag, ts: int) | Announce(size: nat)

  function CsidOf(t: Tag): nat { if t.Audio? then 6 else 7 }

  function PayloadOf(t: Tag): seq<byte> { FillHeader(t) + t.data }

  function EncodeOp(op: Op, msgsid: u32, max: nat): seq<byte>
    requires max >= 1
  {
    match op
    case Media(tag, ts) => Encode(CsidOf(tag), ToU32(ts), Kind(tag), msgsid, PayloadOf(tag), max)
    case Announce(size) => EncodeAnnounce(size)
  }

  function MaxAfterOp(op: Op, max: nat): nat { if op.Announce? then op.size else max }

  function MessageOf(op: Op, msgsid: u32): Message {
    match op
    case Media(tag, ts) => Message(CsidOf(tag), ToU32(ts), msgsid, Kind(tag), PayloadOf(tag))
    case Announce(size) => Message(2, 0, 0, SET_CHUNK_SIZE, BE32(ToU32(size)))
  }

  /** The stream in the middle of a message of which sent bytes have arrived. */
  function Partway(cs: ChunkStream, timestamp: u32, typeid: byte, msgsid: u32, data: seq<byte>, sent: nat): ChunkStream
    requires sent <= |data|
  {
    ChunkStream(timestamp, cs.timedelta, timestamp >= EXTENDED, msgsid, typeid, |data| - sent, 0,
                data[..sent] + Zeros(|data| - sent))
  }

  lemma FillPartway(cs: ChunkStream, timestamp: u32, typeid: byte, msgsid: u32, data: seq<byte>, sent: nat, k: nat)
    requires sent + k <= |data|
    ensures Fill(Partway(cs, timestamp, typeid, msgsid, data, sent), data[sent..sent + k])
         == Partway(cs, timestamp, typeid, msgsid, data, sent + k)
  {
    var at := Partway(cs, timestamp, typeid, msgsid, data, sent);
    assert at.Received() == sent;
    assert at.buffer[..sent] == data[..sent];
    assert data[..sent] + data[sent..sent + k] == data[..sent + k];
    assert at.buffer[sent + k..] == Zeros(|data| - sent - k);
  }

  lemma PartwayDone(cs: ChunkStream, timestamp: u32, typeid: byte, msgsid: u32, data: seq<byte>)
    ensures var at := Partway(cs, timestamp, typeid, msgsid, data, |data|); at.left == 0 && at.buffer == data
  {
  }

  lemma Header0Basic(csid: nat, timestamp: u32, typeid: byte, msgsid: u32, len: nat, rest: seq<byte>)
    requires 2 <= csid < 64
    ensures ParseBasic(Header0(csid, timestamp, typeid, msgsid, len) + rest) == Parsed((0, csid), 1)
  {
  }

  /** What follows the basic header. */
  function Fields(timestamp: u32, typeid: byte, msgsid: u32, len: u24, rest: seq<byte>): seq<byte> {
    BE24(if timestamp < EXTENDED then timestamp else EXTENDED)
      + (BE24(len) + ([typeid] + (LE32(msgsid) + ((if timestamp < EXTENDED then [] else BE32(timestamp)) + rest))))
  }

  lemma Header0Tail(csid: nat, timestamp: u32, typeid: byte, msgsid: u32, len: u24, rest: seq<byte>)
    ensures (Header0(csid, timestamp, typeid, msgsid, len) + rest)[1..] == Fields(timestamp, typeid, msgsid, len, rest)
  {
    hide BE24, BE32, LE32;
    assert len % 0x100_0000 == len;
  }

  lemma TimeReadsBack(timestamp: u32, typeid: byte, msgsid: u32, len: u24, rest: seq<byte>)
    ensures var h := Fields(timestamp, typeid, msgsid, len, rest);
      |h| >= 11 && ParseTime(h, 11) == Parsed((timestamp, timestamp >= EXTENDED), if timestamp < EXTENDED then 11
          else 15)
  {
    hide BE24, BE32, LE32, U24BE, U32BE;
    var field: u24 := if timestamp < EXTENDED then timestamp else EXTENDED;
    var h := Fields(timestamp, typeid, msgsid, len, rest);
    ReadBack24(field, h[3..]);
    assert h == BE24(field) + h[3..];
    if timestamp >= EXTENDED {
      assert h[11..] == BE32(timestamp) + rest;
      ReadBack32(timestamp, rest);
    }
  }

  lemma LayoutReadsBack(timestamp: u32, typeid: byte, msgsid: u32, len: u24, rest: seq<byte>)
    ensures var h := Fields(timestamp, typeid, msgsid, len, rest);
      |h| >= 11 && U24BE(h[3..]) == len && h[6] == typeid && U32LE(h[7..]) == msgsid
  {
    hide BE24, BE32, LE32, U24BE, U32LE;
    var h := Fields(timestamp, typeid, msgsid, len, rest);
    assert h[3..] == BE24(len) + h[6..];
    ReadBack24(len, h[6..]);
    assert h[7..] == LE32(msgsid) + h[11..];
    ReadBackLE32(msgsid, h[11..]);
  }

  /** The fields after the basic header read back as written. */
  lemma Header0Fields(csid: nat, timestamp: u32, typeid: byte, msgsid: u32, len: u24, rest: seq<byte>, cs: ChunkStream)
    requires cs.left == 0
    ensures var h := (Header0(csid, timestamp, typeid, msgsid, len) + rest)[1..];
      ParseHead(cs, 0, h) == Parsed(Full(timestamp, timestamp >= EXTENDED, len, typeid, msgsid),
                                    if timestamp < EXTENDED then 11 else 15)
  {
    hide Header0, Fields, ParseTime, U24BE, U32LE;
    Header0Tail(csid, timestamp, typeid, msgsid, len, rest);
    TimeReadsBack(timestamp, typeid, msgsid, len, rest);
    LayoutReadsBack(timestamp, typeid, msgsid, len, rest);
  }

  /** Reading the first piece of a message on an idle stream. */
  lemma ParseFirst(r: Reader, csid: nat, timestamp: u32, typeid: byte, msgsid: u32, data: seq<byte>, rest: seq<byte>)
    requires r.Valid() && 2 <= csid < 64 && r.Stream(csid).left == 0 && |data| < 0x100_0000
    requires var k := if |data| > r.max then r.max else |data|; data[..k] <= rest
    ensures var k := if |data| > r.max then r.max else |data|; var h := Header0(csid, timestamp, typeid, msgsid,
        |data|);
      && ParseChunk(r, h + rest) ==
         Parsed(Chunk(csid, Full(timestamp, timestamp >= EXTENDED, |data|, typeid, msgsid), data[..k]), |h| + k)
      && Absorb(r.Stream(csid), ParseChunk(r, h + rest).value)
          == Partway(r.Stream(csid), timestamp, typeid, msgsid, data, k)
  {
    hide ParseBasic, ParseHead, Header0, Apply, Fill, Partway;
    var k := if |data| > r.max then r.max else |data|;
    var h := Header0(csid, timestamp, typeid, msgsid, |data|);
    var cs := r.Stream(csid);
    Header0Basic(csid, timestamp, typeid, msgsid, |data|, rest);
    Header0Fields(csid, timestamp, typeid, msgsid, |data|, rest, cs);
    Header0Size(csid, timestamp, typeid, msgsid, |data|);
    assert (h + rest)[|h|..|h| + k] == data[..k];
    Started(cs, timestamp, typeid, msgsid, data);
    assert data[0..0 + k] == data[..k];
    FillPartway(cs, timestamp, typeid, msgsid, data, 0, k);
  }

  lemma Header0Size(csid: nat, timestamp: u32, typeid: byte, msgsid: u32, len: nat)
    ensures |Header0(csid, timestamp, typeid, msgsid, len)| == 1 + if timestamp < EXTENDED then 11 else 15
  {
  }

  lemma Started(cs: ChunkStream, timestamp: u32, typeid: byte, msgsid: u32, data: seq<byte>)
    requires |data| < 0x100_0000
    ensures var started := Apply(cs, Full(timestamp, timestamp >= EXTENDED, |data|, typeid, msgsid));
      started == Partway(cs, timestamp, typeid, msgsid, data, 0) && started.left == |data| == |started.buffer|
  {
  }

  /** Reading a continuation piece. The reader takes whatever follows the one-byte header as payload. */
  lemma ParseNext(r: Reader, csid: nat, payload: seq<byte>, rest: seq<byte>)
    requires r.Valid() && 2 <= csid < 64 && r.Stream(csid).left > 0
    requires |payload| == if r.Stream(csid).left > r.max then r.max else r.Stream(csid).left
    ensures ParseChunk(r, [0xc0 + csid] + payload + rest) == Parsed(Chunk(csid, Bare(None), payload), 1 + |payload|)
    ensures Absorb(r.Stream(csid), Chunk(csid, Bare(None), payload)) == Fill(r.Stream(csid), payload)
  {
    var b := [0xc0 + csid] + payload + rest;
    assert ParseBasic(b) == Parsed((3, csid), 1);
    assert b[1..1 + |payload|] == payload;
  }

  /** One accepted chunk at the front of the input. */
  lemma ReadOne(r: Reader, b: seq<byte>, c: Chunk, n: nat, r': Reader)
    requires r.Valid() && b != [] && ParseChunk(r, b) == Parsed(c, n) && Take(r, c) == Some(r')
    ensures r'.Valid() && n <= |b| && ReadAll(r, b) == ReadAll(r', b[n..])
  {
    hide ParseChunk, Take;
    assert ReadChunk(r, b) == Parsed(r', n);
  }

  /** r' is r after a message on csid has been delivered. */
  ghost predicate After(r: Reader, r': Reader, m: Message) {
    && r'.Valid() && Acceptable(m)
    && r'.got == r.got + [m] && r'.max == MaxAfter(r.max, m)
    && r'.Stream(m.csid).left == 0
    && forall csid :: csid != m.csid ==> r'.Stream(csid) == r.Stream(csid)
  }

  lemma ContinueSplits(csid: nat, timestamp: u32, data: seq<byte>, sent: nat, max: nat, rest: seq<byte>)
    requires 2 <= csid < 64 && timestamp < EXTENDED && max >= 1 && sent <= |data|
    ensures var k := if |data| - sent > max then max else |data| - sent;
      Continue(csid, timestamp, data[sent..], max) + rest
      == [0xc0 + csid] + data[sent..sent + k]
         + (if |data| - sent > max then Continue(csid, timestamp, data[sent + k..], max) + rest else rest)
  {
    var tail := data[sent..];
    ContinueUnfold(csid, timestamp, tail, max);
    hide Continue;
    if |tail| > max {
      assert tail[..max] == data[sent..sent + max] && tail[max..] == data[sent + max..];
      TwoJoined([0xc0 + csid] + tail[..max], Continue(csid, timestamp, tail[max..], max), rest);
    } else {
      assert tail == data[sent..sent + |tail|];
    }
  }

  lemma ContinueUnfold(csid: nat, timestamp: u32, tail: seq<byte>, max: nat)
    requires 2 <= csid < 64 && timestamp < EXTENDED && max >= 1
    ensures Continue(csid, timestamp, tail, max) ==
      if |tail| > max then [0xc0 + csid] + tail[..max] + Continue(csid, timestamp, tail[max..], max)
      else [0xc0 + csid] + tail
  {
  }

  lemma TwoJoined(a: seq<byte>, b: seq<byte>, c: seq<byte>)
    ensures a + b + c == a + (b + c)
  {
  }

  /** A continuation of a message whose time fits 24 bits completes it. */
  lemma {:induction false} ReadContinued(r: Reader, csid: nat, timestamp: u32, typeid: byte, msgsid: u32,
                                         data: seq<byte>, sent: nat, cs: ChunkStream, rest: seq<byte>)
    returns (r': Reader)
    requires r.Valid() && 2 <= csid < 64 && timestamp < EXTENDED && r.max >= 1 && sent < |data|
    requires r.Stream(csid) == Partway(cs, timestamp, typeid, msgsid, data, sent)
    requires Acceptable(Message(csid, timestamp, msgsid, typeid, data))
    ensures After(r, r', Message(csid, timestamp, msgsid, typeid, data))
    ensures ReadAll(r, Continue(csid, timestamp, data[sent..], r.max) + rest) == ReadAll(r', rest)
    decreases |data| - sent
  {
    hide ParseChunk, ReadAll, Fill, Absorb, Fits, Continue;
    var left := |data| - sent;
    var k := if left > r.max then r.max else left;
    var payload := data[sent..sent + k];
    var more := if left > r.max then Continue(csid, timestamp, data[sent + k..], r.max) + rest else rest;
    var b := Continue(csid, timestamp, data[sent..], r.max) + rest;
    ContinueSplits(csid, timestamp, data, sent, r.max, rest);
    ParseNext(r, csid, payload, more);
    var c := Chunk(csid, Bare(None), payload);
    ParsedFits(r, b);
    FillPartway(cs, timestamp, typeid, msgsid, data, sent, k);
    var next := Partway(cs, timestamp, typeid, msgsid, data, sent + k);
    if left > r.max {
      var mid := r.(streams := r.streams[csid := next]);
      ReadOne(r, b, c, 1 + k, mid);
      assert b[1 + k..] == more;
      r' := ReadContinued(mid, csid, timestamp, typeid, msgsid, data, sent + k, cs, rest);
    } else {
      PartwayDone(cs, timestamp, typeid, msgsid, data);
      r' := Reader(r.streams[csid := next], MaxAfter(r.max, Finished(csid, next)), r.got + [Finished(csid, next)]);
      ReadOne(r, b, c, 1 + k, r');
      assert b[1 + k..] == rest;
    }
  }

  lemma ParsedFits(r: Reader, b: seq<byte>)
    requires r.Valid() && ParseChunk(r, b).Parsed?
    ensures Fits(r.Stream(ParseChunk(r, b).value.csid), ParseChunk(r, b).value)
  {
  }

  /** The reader after the first piece of a message too long for one chunk. */
  function Begun(r: Reader, csid: nat, timestamp: u32, typeid: byte, msgsid: u32, data: seq<byte>): Reader
    requires |data| > r.max
  {
    r.(streams := r.streams[csid := Partway(r.Stream(csid), timestamp, typeid, msgsid, data, r.max)])
  }

  lemma ReadFirstPiece(r: Reader, csid: nat, timestamp: u32, typeid: byte, msgsid: u32, data: seq<byte>,
      more: seq<byte>)
    requires r.Valid() && 2 <= csid < 64 && r.Stream(csid).left == 0 && r.max < |data| < 0x100_0000
    ensures var mid := Begun(r, csid, timestamp, typeid, msgsid, data);
      && mid.Valid()
      && ReadAll(r, Header0(csid, timestamp, typeid, msgsid, |data|) + (data[..r.max] + more)) == ReadAll(mid, more)
  {
    hide ParseChunk, ReadAll, Fill, Absorb, Fits, Header0;
    var h := Header0(csid, timestamp, typeid, msgsid, |data|);
    var b := h + (data[..r.max] + more);
    ParseFirst(r, csid, timestamp, typeid, msgsid, data, data[..r.max] + more);
    ParsedFits(r, b);
    var c := Chunk(csid, Full(timestamp, timestamp >= EXTENDED, |data|, typeid, msgsid), data[..r.max]);
    ReadOne(r, b, c, |h| + r.max, Begun(r, csid, timestamp, typeid, msgsid, data));
    assert b[|h| + r.max..] == more;
  }

  /** Whether a message can be written so that this reader understands it. */
  predicate Carries(timestamp: u32, len: nat, max: nat) {
    len < 0x100_0000 && (timestamp < EXTENDED || len <= max)
  }

  /** A whole message written for the reader's chunk size is delivered as it was, and the reader is ready for more. */
  lemma ReadMessage(r: Reader, csid: nat, timestamp: u32, typeid: byte, msgsid: u32, data: seq<byte>, rest: seq<byte>)
    returns (r': Reader)
    requires r.Valid() && 2 <= csid < 64 && r.max >= 1 && r.Stream(csid).left == 0
    requires Carries(timestamp, |data|, r.max)
    requires Acceptable(Message(csid, timestamp, msgsid, typeid, data))
    ensures After(r, r', Message(csid, timestamp, msgsid, typeid, data))
    ensures ReadAll(r, Encode(csid, timestamp, typeid, msgsid, data, r.max) + rest) == ReadAll(r', rest)
  {
    hide ParseChunk, ReadAll, Fill, Absorb, Fits, Header0;
    var h := Header0(csid, timestamp, typeid, msgsid, |data|);
    var b := Encode(csid, timestamp, typeid, msgsid, data, r.max) + rest;
    if |data| > r.max {
      var more := Continue(csid, timestamp, data[r.max..], r.max) + rest;
      assert b == h + (data[..r.max] + more);
      ReadFirstPiece(r, csid, timestamp, typeid, msgsid, data, more);
      var mid := Begun(r, csid, timestamp, typeid, msgsid, data);
      r' := ReadContinued(mid, csid, timestamp, typeid, msgsid, data, r.max, r.Stream(csid), rest);
    } else {
      assert data[..|data|] == data;
      assert b == h + (data + rest);
      ParseFirst(r, csid, timestamp, typeid, msgsid, data, data + rest);
      ParsedFits(r, b);
      PartwayDone(r.Stream(csid), timestamp, typeid, msgsid, data);
      var next := Partway(r.Stream(csid), timestamp, typeid, msgsid, data, |data|);
      var c := Chunk(csid, Full(timestamp, timestamp >= EXTENDED, |data|, typeid, msgsid), data);
      r' := Reader(r.streams[csid := next], MaxAfter(r.max, Finished(csid, next)), r.got + [Finished(csid, next)]);
      ReadOne(r, b, c, |h| + |data|, r');
      assert b[|h| + |data|..] == rest;
    }
  }
}
