/** Writing then reading an RTMP connection, and the exact conditions under which it works. */
module RtmpRoundTrip {
  import opened Bytes
  import opened FlvTags
  import opened RtmpChunks
  import opened RtmpRuns
  import opened RtmpWriting

  function EncodeOps(ops: seq<Op>, msgsid: u32, max: nat): seq<byte>
    requires max >= 1 && forall op :: op in ops && op.Announce? ==> op.size >= 1
  {
    if ops == [] then []
    else EncodeOp(ops[0], msgsid, max) + EncodeOps(ops[1..], msgsid, MaxAfterOp(ops[0], max))
  }

  function Messages(ops: seq<Op>, msgsid: u32): (ms: seq<Message>)
    ensures |ms| == |ops| && forall i :: 0 <= i < |ms| ==> ms[i] == MessageOf(ops[i], msgsid)
  {
    seq(|ops|, i requires 0 <= i < |ops| => MessageOf(ops[i], msgsid))
  }

  /** An operation the reader can follow when both sides use chunks of max bytes. */
  predicate Followed(op: Op, max: nat) {
    match op
    case Media(tag, ts) => Representable(tag) && Carries(ToU32(ts), |PayloadOf(tag)|, max)
    case Announce(size) => 1 <= size < TWO32 && max >= 4
  }

  ghost predicate AllFollowed(ops: seq<Op>, max: nat) {
    ops != [] ==> Followed(ops[0], max) && AllFollowed(ops[1..], MaxAfterOp(ops[0], max))
  }

  predicate Ready(r: Reader) {
    r.Stream(2).left == 0 && r.Stream(6).left == 0 && r.Stream(7).left == 0
  }

  lemma ReadOp(r: Reader, op: Op, msgsid: u32, rest: seq<byte>) returns (r': Reader)
    requires r.Valid() && Ready(r) && r.max >= 1 && Followed(op, r.max)
    ensures r'.Valid() && Ready(r') && r'.max == MaxAfterOp(op, r.max) >= 1
    ensures r'.got == r.got + [MessageOf(op, msgsid)]
    ensures ReadAll(r, EncodeOp(op, msgsid, r.max) + rest) == ReadAll(r', rest)
  {
    hide ReadAll, Encode, EncodeAnnounce, FillHeader, BE32, ParseTag, Representable;
    match op
    case Media(tag, ts) =>
      TagRecovered(tag, ts, msgsid);
      r' := ReadMessage(r, CsidOf(tag), ToU32(ts), Kind(tag), msgsid, PayloadOf(tag), rest);
    case Announce(size) =>
      AnnounceIsMessage(size, r.max);
      AnnouncedSize(size, r.max);
      r' := ReadMessage(r, 2, 0, SET_CHUNK_SIZE, 0, BE32(size), rest);
  }

  lemma AnnouncedSize(size: u32, max: nat)
    ensures ToU32(size) == size
    ensures var m := Message(2, 0, 0, SET_CHUNK_SIZE, BE32(size)); Acceptable(m) && MaxAfter(max, m) == size
  {
    ReadBack32(size, []);
    assert BE32(size) + [] == BE32(size);
  }

  lemma AnnounceIsMessage(size: u32, max: nat)
    requires max >= 4
    ensures EncodeAnnounce(size) == Encode(2, 0, SET_CHUNK_SIZE, 0, BE32(size), max)
  {
  }

  lemma AllFollowedSizes(ops: seq<Op>, max: nat)
    requires AllFollowed(ops, max)
    ensures forall op :: op in ops && op.Announce? ==> op.size >= 1
  {
    if ops != [] {
      AllFollowedSizes(ops[1..], MaxAfterOp(ops[0], max));
    }
  }

  /** Any sequence of tags and chunk size announcements written with the reader's chunk size is read back as
      exactly those messages, in order, and both sides end with the same chunk size. */
  lemma {:induction false} WriteThenRead(r: Reader, ops: seq<Op>, msgsid: u32) returns (r': Reader)
    requires r.Valid() && Ready(r) && r.max >= 1 && AllFollowed(ops, r.max)
    ensures forall op :: op in ops && op.Announce? ==> op.size >= 1
    ensures ReadAll(r, EncodeOps(ops, msgsid, r.max)) == Some(r')
    ensures r'.got == r.got + Messages(ops, msgsid)
    decreases |ops|
  {
    hide EncodeOp, Followed, Ready, ReadAll, MessageOf;
    AllFollowedSizes(ops, r.max);
    if ops == [] {
      r' := r;
      NothingLeft(r);
    } else {
      var op, more := ops[0], ops[1..];
      SizeFollowed(op, r.max);
      var mid := ReadOp(r, op, msgsid, EncodeOps(more, msgsid, MaxAfterOp(op, r.max)));
      r' := WriteThenRead(mid, more, msgsid);
      MessagesFirst(ops, msgsid, r.got);
    }
  }

  lemma MessagesFirst(ops: seq<Op>, msgsid: u32, got: seq<Message>)
    requires ops != []
    ensures got + [MessageOf(ops[0], msgsid)] + Messages(ops[1..], msgsid) == got + Messages(ops, msgsid)
  {
    hide MessageOf;
    assert [MessageOf(ops[0], msgsid)] + Messages(ops[1..], msgsid) == Messages(ops, msgsid);
  }

  lemma SizeFollowed(op: Op, max: nat)
    requires Followed(op, max) && max >= 1
    ensures MaxAfterOp(op, max) >= 1
  {
  }

  /** The tag the handler extracts from a media message. */
  lemma TagRecovered(tag: Tag, ts: int, msgsid: u32)
    ensures var m := MessageOf(Media(tag, ts), msgsid);
      ParseTag(m.typeid, m.data) == Some(tag) <==> Representable(tag)
  {
    hide ParseTag, Representable;
    ReadsBackIffRepresentable(tag);
  }

  /** The bytes alone make the reader deliver exactly this message. */
  ghost predicate Delivers(r: Reader, b: seq<byte>, m: Message)
    requires r.Valid()
  {
    ReadAll(r, b).Some? && ReadAll(r, b).value.got == r.got + [m]
  }

  lemma MessagesOnNext(got: seq<Message>, m: Message, csid: nat)
    ensures MessagesOn(got + [m], csid) == if m.csid == csid then MessagesOn(got, csid) + [m] else MessagesOn(got, csid)
  {
    assert (got + [m])[..|got|] == got;
  }

  /** What one read step does to a stream in the middle of a message. */
  lemma StepMidMessage(r: Reader, b: seq<byte>, csid: nat)
    requires r.Valid() && ReadChunk(r, b).Parsed? && r.Stream(csid).left > 0
    ensures var p := ReadChunk(r, b); var c := ParseChunk(r, b).value; var cs := r.Stream(csid);
      && ParseChunk(r, b).Parsed? && 1 + |c.payload| <= p.n
      && (c.csid != csid ==>
            p.value.Stream(csid) == cs && MessagesOn(p.value.got, csid) == MessagesOn(r.got, csid))
      && (c.csid == csid ==>
            && |c.payload| <= cs.left && p.value.Stream(csid) == Fill(cs, c.payload)
            && (p.value.Stream(csid).left > 0 ==> MessagesOn(p.value.got, csid) == MessagesOn(r.got, csid))
            && (p.value.Stream(csid).left == 0 ==>
                  MessagesOn(p.value.got, csid) == MessagesOn(r.got, csid) + [Finished(csid, p.value.Stream(csid))]))
  {
    hide ParseHead, ParseBasic;
    var c := ParseChunk(r, b).value;
    FirstChunk(r, b);
    TakeEffect(r, c, csid);
  }

  /** A stream that misses more bytes than the input holds completes nothing. */
  lemma {:induction false} Starved(r: Reader, b: seq<byte>, csid: nat)
    requires r.Valid() && |b| <= r.Stream(csid).left && r.Stream(csid).left > 0
    ensures ReadAll(r, b).Some? ==> MessagesOn(ReadAll(r, b).value.got, csid) == MessagesOn(r.got, csid)
    decreases |b|
  {
    hide ReadChunk, ParseChunk, Fill;
    if b != [] && ReadChunk(r, b).Parsed? {
      var p := ReadChunk(r, b);
      StepMidMessage(r, b, csid);
      var c := ParseChunk(r, b).value;
      if c.csid == csid {
        FillLeft(r.Stream(csid), c.payload);
      }
      Starved(p.value, b[p.n..], csid);
    }
  }

  lemma FillLeft(cs: ChunkStream, payload: seq<byte>)
    requires cs.left <= |cs.buffer| && |payload| <= cs.left
    ensures Fill(cs, payload).left == cs.left - |payload|
    ensures |Fill(cs, payload).buffer| == |cs.buffer|
    ensures forall k :: 0 <= k < cs.Received() ==> Fill(cs, payload).buffer[k] == cs.buffer[k]
    ensures payload != [] ==> Fill(cs, payload).buffer[cs.Received()] == payload[0]
  {
  }

  /** A message written in one piece, as all but media messages are. */
  function EncodeUncut(csid: nat, typeid: byte, msgsid: u32, data: seq<byte>): seq<byte> {
    Header0(csid, 0, typeid, msgsid, |data|) + data
  }

  /** A command, or any other message that is not cut into chunks, gets through to the reader exactly when the reader's
      chunk size holds all of it. */
  lemma UncutDeliveredIff(r: Reader, csid: nat, typeid: byte, msgsid: u32, data: seq<byte>)
    requires r.Valid() && 2 <= csid < 64 && r.Stream(csid).left == 0 && 0 < |data| < 0x100_0000
    requires Acceptable(Message(csid, 0, msgsid, typeid, data))
    ensures Delivers(r, EncodeUncut(csid, typeid, msgsid, data), Message(csid, 0, msgsid, typeid, data))
      <==> |data| <= r.max
  {
    hide ReadAll, Header0, Acceptable;
    if |data| <= r.max {
      WholeInOneChunk(r, csid, typeid, msgsid, data);
    } else {
      CutShort(r, csid, typeid, msgsid, data);
    }
  }

  lemma WholeInOneChunk(r: Reader, csid: nat, typeid: byte, msgsid: u32, data: seq<byte>)
    requires r.Valid() && 2 <= csid < 64 && r.Stream(csid).left == 0 && 0 < |data| < 0x100_0000 && |data| <= r.max
    requires Acceptable(Message(csid, 0, msgsid, typeid, data))
    ensures Delivers(r, EncodeUncut(csid, typeid, msgsid, data), Message(csid, 0, msgsid, typeid, data))
  {
    hide ReadAll, Header0, Acceptable;
    var b := EncodeUncut(csid, typeid, msgsid, data);
    var r' := ReadMessage(r, csid, 0, typeid, msgsid, data, []);
    assert Encode(csid, 0, typeid, msgsid, data, r.max) == b && b + [] == b;
    NothingLeft(r');
  }

  lemma CutShort(r: Reader, csid: nat, typeid: byte, msgsid: u32, data: seq<byte>)
    requires r.Valid() && 2 <= csid < 64 && r.Stream(csid).left == 0 && r.max < |data| < 0x100_0000
    ensures !Delivers(r, EncodeUncut(csid, typeid, msgsid, data), Message(csid, 0, msgsid, typeid, data))
  {
    hide ReadAll, Fill, Header0;
    var m := Message(csid, 0, msgsid, typeid, data);
    assert EncodeUncut(csid, typeid, msgsid, data)
        == Header0(csid, 0, typeid, msgsid, |data|) + (data[..r.max] + data[r.max..]);
    ReadFirstPiece(r, csid, 0, typeid, msgsid, data, data[r.max..]);
    Starved(Begun(r, csid, 0, typeid, msgsid, data), data[r.max..], csid);
    MessagesOnNext(r.got, m, csid);
  }

  /** So a chunk size can be announced to a reader exactly when the reader's present chunk size is at least four. */
  lemma AnnounceDeliveredIff(r: Reader, size: u32)
    requires r.Valid() && r.Stream(2).left == 0
    ensures Delivers(r, EncodeAnnounce(size), MessageOf(Announce(size), 0)) <==> r.max >= 4
  {
    hide ReadAll, BE32, Header0, Acceptable;
    AnnouncedSize(size, r.max);
    assert EncodeAnnounce(size) == EncodeUncut(2, SET_CHUNK_SIZE, 0, BE32(size));
    UncutDeliveredIff(r, 2, SET_CHUNK_SIZE, 0, BE32(size));
  }

  lemma NothingLeft(r: Reader)
    requires r.Valid()
    ensures ReadAll(r, []) == Some(r)
  {
  }

  /** Bytes already received stay in the message: what is delivered first begins with them. */
  lemma {:induction false} ReceivedSticks(r: Reader, b: seq<byte>, csid: nat, k: nat)
    requires r.Valid() && r.Stream(csid).left > 0 && k < r.Stream(csid).Received()
    ensures ReadAll(r, b).Some? ==>
      var was, now := MessagesOn(r.got, csid), MessagesOn(ReadAll(r, b).value.got, csid);
      now == was || (|now| > |was| && k < |now[|was|].data| && now[|was|].data[k] == r.Stream(csid).buffer[k])
    decreases |b|
  {
    hide ReadChunk, ParseChunk, Fill;
    if b != [] && ReadChunk(r, b).Parsed? {
      var p := ReadChunk(r, b);
      StepMidMessage(r, b, csid);
      var c := ParseChunk(r, b).value;
      if c.csid == csid {
        FillLeft(r.Stream(csid), c.payload);
      }
      if p.value.Stream(csid).left > 0 {
        ReceivedSticks(p.value, b[p.n..], csid, k);
      } else {
        DeliveredStays(p.value, b[p.n..], csid);
      }
    }
  }

  lemma {:induction false} DeliveredStays(r: Reader, b: seq<byte>, csid: nat)
    requires r.Valid()
    ensures ReadAll(r, b).Some? ==> MessagesOn(r.got, csid) <= MessagesOn(ReadAll(r, b).value.got, csid)
    decreases |b|
  {
    hide ReadChunk, ParseChunk, Fill, Take;
    if b != [] && ReadChunk(r, b).Parsed? {
      var p := ReadChunk(r, b);
      FirstChunk(r, b);
      TakeEffect(r, ParseChunk(r, b).value, csid);
      DeliveredStays(p.value, b[p.n..], csid);
    }
  }

  /** After the first piece of a message with an extended time, the repeated time is taken for payload. */
  lemma LongTimeCorrupts(r: Reader, csid: nat, timestamp: u32, typeid: byte, msgsid: u32, data: seq<byte>)
    requires r.Valid() && 2 <= csid < 64 && r.max >= 1 && r.Stream(csid).left == 0
    requires |data| < 0x100_0000 && timestamp >= EXTENDED && |data| > r.max
    requires data[r.max] != timestamp / 0x100_0000
    ensures !Delivers(r, Encode(csid, timestamp, typeid, msgsid, data, r.max),
        Message(csid, timestamp, msgsid, typeid, data))
  {
    hide Fill, Header0, ReadAll, Continue;
    var m := Message(csid, timestamp, msgsid, typeid, data);
    var k := r.max;
    var more := Continue(csid, timestamp, data[k..], k);
    assert Encode(csid, timestamp, typeid, msgsid, data, k)
        == Header0(csid, timestamp, typeid, msgsid, |data|) + (data[..k] + more);
    ReadFirstPiece(r, csid, timestamp, typeid, msgsid, data, more);
    MessagesOnNext(r.got, m, csid);
    RepeatedTimeIsPayload(Begun(r, csid, timestamp, typeid, msgsid, data), csid, timestamp, data[k..], data, k, more);
  }

  lemma RepeatedTimeIsPayload(mid: Reader, csid: nat, timestamp: u32, tail: seq<byte>, data: seq<byte>, k: nat,
      more: seq<byte>)
    requires mid.Valid() && 2 <= csid < 64 && mid.max >= 1 && timestamp >= EXTENDED && tail != []
    requires mid.Stream(csid).left == |tail| && mid.Stream(csid).Received() == k < |data|
    requires more == Continue(csid, timestamp, tail, mid.max) && data[k] != timestamp / 0x100_0000
    ensures ReadAll(mid, more).Some? ==>
      var was, now := MessagesOn(mid.got, csid), MessagesOn(ReadAll(mid, more).value.got, csid);
      now == was || (|now| > |was| && (k < |now[|was|].data| ==> now[|was|].data[k] != data[k]))
  {
    hide ParseChunk, Fill, Absorb, Fits, ReadAll, Continue, MessagesOn;
    var size := if |tail| > mid.max then mid.max else |tail|;
    ContinueStart(csid, timestamp, tail, mid.max);
    var payload := more[1..1 + size];
    ThreeParts(more, size);
    ParseNext(mid, csid, payload, more[1 + size..]);
    CorruptNeverMatches(mid, more, csid, data, k, Chunk(csid, Bare(None), payload), 1 + size);
  }

  lemma ThreeParts(b: seq<byte>, size: nat)
    requires |b| >= 1 + size
    ensures b == [b[0]] + b[1..1 + size] + b[1 + size..]
  {
  }

  lemma ContinueStart(csid: nat, timestamp: u32, tail: seq<byte>, max: nat)
    requires 2 <= csid < 64 && max >= 1 && timestamp >= EXTENDED && tail != []
    ensures var more := Continue(csid, timestamp, tail, max);
      |more| >= 5 && more[0] == 0xc0 + csid && more[1] == timestamp / 0x100_0000
      && |more| >= 1 + (if |tail| > max then max else |tail|)
  {
    hide BE32;
    var head := if |tail| > max then tail[..max] else tail;
    var rest := if |tail| > max then Continue(csid, timestamp, tail[max..], max) else [];
    assert Continue(csid, timestamp, tail, max) == [0xc0 + csid] + (BE32(timestamp) + (head + rest));
    FirstByte(timestamp);
  }

  lemma FirstByte(v: u32)
    ensures BE32(v)[0] == v / 0x100_0000
  {
  }

  lemma CorruptNeverMatches(mid: Reader, more: seq<byte>, csid: nat, data: seq<byte>, k: nat, c: Chunk, n: nat)
    requires mid.Valid() && mid.Stream(csid).left > 0 && mid.Stream(csid).Received() == k < |data|
    requires ParseChunk(mid, more) == Parsed(c, n) && c.csid == csid
    requires Absorb(mid.Stream(csid), c) == Fill(mid.Stream(csid), c.payload)
    requires c.payload != [] && c.payload[0] != data[k]
    ensures ReadAll(mid, more).Some? ==>
      var was, now := MessagesOn(mid.got, csid), MessagesOn(ReadAll(mid, more).value.got, csid);
      now == was || (|now| > |was| && (k < |now[|was|].data| ==> now[|was|].data[k] != data[k]))
  {
    hide ParseChunk, Fill, Absorb, Take;
    if ReadChunk(mid, more).Parsed? {
      var p := ReadChunk(mid, more);
      StepMidMessage(mid, more, csid);
      FillLeft(mid.Stream(csid), c.payload);
      if p.value.Stream(csid).left > 0 {
        ReceivedSticks(p.value, more[p.n..], csid, k);
      } else {
        DeliveredStays(p.value, more[p.n..], csid);
      }
    }
  }

  /** Messages of a given type, length and time that the handler accepts reach the reader, whatever they contain, exactly
      when the time fits 24 bits or the message fits one chunk. Commands and data messages, which the connection never
      cuts, are not among them. */
  lemma MessageDeliveredIff(r: Reader, csid: nat, timestamp: u32, typeid: byte, msgsid: u32, len: nat)
    requires r.Valid() && 2 <= csid < 64 && r.max >= 1 && r.Stream(csid).left == 0
    requires len < 0x100_0000 && typeid != SET_CHUNK_SIZE
    requires typeid != COMMAND_AMF0 && typeid != COMMAND_AMF3 && typeid != DATA_AMF0
    ensures (forall data: seq<byte> :: |data| == len && Acceptable(Message(csid, timestamp, msgsid, typeid, data)) ==>
               Delivers(r, Encode(csid, timestamp, typeid, msgsid, data, r.max),
                   Message(csid, timestamp, msgsid, typeid, data)))
            <==> (timestamp < EXTENDED || len <= r.max)
  {
    hide Encode;
    if timestamp < EXTENDED || len <= r.max {
      forall data: seq<byte> | |data| == len && Acceptable(Message(csid, timestamp, msgsid, typeid, data))
        ensures Delivers(r, Encode(csid, timestamp, typeid, msgsid, data, r.max),
            Message(csid, timestamp, msgsid, typeid, data))
      {
        var r' := ReadMessage(r, csid, timestamp, typeid, msgsid, data, []);
        var b := Encode(csid, timestamp, typeid, msgsid, data, r.max);
        assert b + [] == b;
      }
    } else {
      var wrong: byte := if timestamp / 0x100_0000 == 0 then 1 else 0;
      var data: seq<byte> := seq(len, _ => wrong);
      assert Acceptable(Message(csid, timestamp, msgsid, typeid, data));
      LongTimeCorrupts(r, csid, timestamp, typeid, msgsid, data);
    }
  }
}
