/** What holds after any run of an RTMP reader, however the chunks of its streams are interleaved. */
module RtmpRuns {
  import opened Bytes
  import opened RtmpChunks

  /** The reader after a list of chunks, if it accepts them all. */
  function TakeAll(r: Reader, chunks: seq<Chunk>): Option<Reader> {
    if chunks == [] then Some(r)
    else match TakeAll(r, chunks[..|chunks| - 1])
      case None => None
      case Some(r') => Take(r', chunks[|chunks| - 1])
  }

  /** The chunks a successful run finds in its input. */
  function ChunksIn(r: Reader, b: seq<byte>): seq<Chunk>
    requires r.Valid()
    decreases |b|
  {
    if b == [] then []
    else match ReadChunk(r, b)
      case Parsed(r', n) => [ParseChunk(r, b).value] + ChunksIn(r', b[n..])
      case Short => []
      case Refused => []
  }

  lemma {:induction false} TakeAllSplits(r: Reader, a: seq<Chunk>, b: seq<Chunk>)
    ensures TakeAll(r, a + b) == (match TakeAll(r, a) case None => None case Some(r') => TakeAll(r', b))
  {
    if b == [] {
      assert a + b == a;
    } else {
      var front := b[..|b| - 1];
      assert (a + b)[..|a + b| - 1] == a + front;
      TakeAllSplits(r, a, front);
    }
  }

  /** Reading bytes is taking the chunks found in them. */
  lemma {:induction false} ReadingTakesChunks(r: Reader, b: seq<byte>)
    requires r.Valid() && ReadAll(r, b).Some?
    ensures TakeAll(r, ChunksIn(r, b)) == ReadAll(r, b)
    decreases |b|
  {
    hide Take, ParseChunk;
    if b != [] {
      var p := ReadChunk(r, b);
      var c := ParseChunk(r, b).value;
      FirstChunk(r, b);
      ReadingTakesChunks(p.value, b[p.n..]);
      TakeAllSplits(r, [c], ChunksIn(p.value, b[p.n..]));
      assert [c][..0] == [];
      assert TakeAll(r, [c]) == Take(r, c);
    }
  }

  lemma FirstChunk(r: Reader, b: seq<byte>)
    requires r.Valid() && ReadChunk(r, b).Parsed?
    ensures ParseChunk(r, b).Parsed? && Take(r, ParseChunk(r, b).value) == Some(ReadChunk(r, b).value)
  {
    hide Take, ParseChunk;
  }

  /** The chunks of one chunk stream. */
  function Only(chunks: seq<Chunk>, csid: nat): seq<Chunk> {
    if chunks == [] then []
    else
      var front, c := Only(chunks[..|chunks| - 1], csid), chunks[|chunks| - 1];
      if c.csid == csid then front + [c] else front
  }

  function MessagesOn(got: seq<Message>, csid: nat): seq<Message> {
    if got == [] then []
    else
      var front, m := MessagesOn(got[..|got| - 1], csid), got[|got| - 1];
      if m.csid == csid then front + [m] else front
  }

  /** A chunk stream on its own: its state and its messages after its chunks. */
  function StateAfter(chunks: seq<Chunk>): ChunkStream {
    if chunks == [] then Fresh
    else
      var cs, c := StateAfter(chunks[..|chunks| - 1]), chunks[|chunks| - 1];
      if Fits(cs, c) then Absorb(cs, c) else cs
  }

  function MessagesAfter(chunks: seq<Chunk>, csid: nat): seq<Message> {
    if chunks == [] then []
    else
      var front := MessagesAfter(chunks[..|chunks| - 1], csid);
      var next := StateAfter(chunks);
      if next.left == 0 then front + [Finished(csid, next)] else front
  }

  /** Each chunk was acceptable to its stream when it came. */
  ghost predicate AllFit(chunks: seq<Chunk>) {
    chunks == [] || (AllFit(chunks[..|chunks| - 1]) && Fits(StateAfter(chunks[..|chunks| - 1]), chunks[|chunks| - 1]))
  }

  const Idle := map[]

  /** Chunk streams do not interfere: after any run each stream has exactly the state and has delivered exactly
      the messages that its own chunks alone produce, in order. */
  lemma {:induction false} StreamsAreIndependent(max: nat, chunks: seq<Chunk>, r: Reader, csid: nat)
    requires TakeAll(Reader(Idle, max, []), chunks) == Some(r)
    ensures r.Stream(csid) == StateAfter(Only(chunks, csid))
    ensures MessagesOn(r.got, csid) == MessagesAfter(Only(chunks, csid), csid)
    ensures AllFit(Only(chunks, csid))
  {
    hide Fits, Absorb;
    if chunks != [] {
      var front, c := chunks[..|chunks| - 1], chunks[|chunks| - 1];
      var r' := TakeAll(Reader(Idle, max, []), front).value;
      StreamsAreIndependent(max, front, r', csid);
      TakeEffect(r', c, csid);
      if c.csid == csid {
        var mine := Only(front, csid);
        assert (mine + [c])[..|mine|] == mine;
      }
    }
  }

  lemma TakeEffect(r: Reader, c: Chunk, csid: nat)
    requires Take(r, c).Some?
    ensures Fits(r.Stream(c.csid), c)
    ensures var next := Absorb(r.Stream(c.csid), c); var r' := Take(r, c).value;
      && r'.Stream(csid) == (if c.csid == csid then next else r.Stream(csid))
      && MessagesOn(r'.got, csid) ==
         (if c.csid == csid && next.left == 0 then MessagesOn(r.got, csid) + [Finished(csid, next)]
             else MessagesOn(r.got, csid))
  {
    hide Fits, Absorb;
    var m := Finished(c.csid, Absorb(r.Stream(c.csid), c));
    assert (r.got + [m])[..|r.got|] == r.got;
  }

  function Payload(chunks: seq<Chunk>): seq<byte> {
    if chunks == [] then [] else Payload(chunks[..|chunks| - 1]) + chunks[|chunks| - 1].payload
  }

  function Delivered(ms: seq<Message>): seq<byte> {
    if ms == [] then [] else Delivered(ms[..|ms| - 1]) + ms[|ms| - 1].data
  }

  /** The bytes of the unfinished message. */
  function Pending(cs: ChunkStream): seq<byte>
    requires cs.left <= |cs.buffer|
  {
    if cs.left == 0 then [] else cs.buffer[..cs.Received()]
  }

  lemma AbsorbKeepsBytes(cs: ChunkStream, c: Chunk)
    requires cs.left <= |cs.buffer| && Fits(cs, c)
    ensures var next := Absorb(cs, c);
      && next.left <= |next.buffer|
      && Pending(cs) + c.payload == if next.left == 0 then next.buffer else Pending(next)
  {
    var started := Apply(cs, c.head);
    var off := started.Received();
    assert started.buffer[..off] == Pending(cs);
    var next := Absorb(cs, c);
    assert next.buffer[..off + |c.payload|] == started.buffer[..off] + c.payload;
  }

  /** Nothing is lost, invented or reordered on a stream: the payload bytes it received are its delivered messages
      followed by the part of the message in progress, which its buffer holds. */
  lemma {:induction false} PayloadIsPreserved(chunks: seq<Chunk>, csid: nat)
    requires AllFit(chunks)
    ensures var cs := StateAfter(chunks);
      && cs.left <= |cs.buffer|
      && Payload(chunks) == Delivered(MessagesAfter(chunks, csid)) + Pending(cs)
  {
    hide Fits, Absorb, Pending;
    if chunks == [] {
      NothingPending();
    } else {
      var front, c := chunks[..|chunks| - 1], chunks[|chunks| - 1];
      PayloadIsPreserved(front, csid);
      var cs, next := StateAfter(front), StateAfter(chunks);
      AbsorbKeepsBytes(cs, c);
      var before := MessagesAfter(front, csid);
      Regrouped(Delivered(before), Pending(cs), c.payload);
      if next.left == 0 {
        hide StateAfter, Payload;
        DeliveredNext(before, Finished(csid, next));
        FinishedHasNothingPending(next);
        Regrouped(Delivered(before), next.buffer, []);
      }
    }
  }

  lemma Regrouped(a: seq<byte>, b: seq<byte>, c: seq<byte>)
    ensures a + b + c == a + (b + c)
    ensures c == [] ==> a + b + c == a + b
  {
  }

  lemma DeliveredNext(ms: seq<Message>, m: Message)
    ensures Delivered(ms + [m]) == Delivered(ms) + m.data
  {
    assert (ms + [m])[..|ms|] == ms;
  }

  lemma NothingPending()
    ensures Pending(Fresh) == []
  {
  }

  lemma FinishedHasNothingPending(cs: ChunkStream)
    requires cs.left == 0
    ensures Pending(cs) == []
  {
  }

  /** How a message start moves its stream's clock. */
  datatype Tick = At(t: u32) | Plus(d: u32)

  function TicksOf(cs: ChunkStream, head: Head): seq<Tick> {
    match head
    case Full(t, _, _, _, _) => [At(t)]
    case SameStream(d, _, _, _) => [Plus(d)]
    case TimeOnly(d, _) => [Plus(d)]
    case Bare(again) =>
      if cs.left != 0 then []
      else if cs.msghdrtype == 0 then (if again.Some? then [At(again.value)] else [])
      else [Plus(if again.Some? then again.value else cs.timedelta)]
  }

  function TicksAfter(chunks: seq<Chunk>): seq<Tick> {
    if chunks == [] then []
    else TicksAfter(chunks[..|chunks| - 1]) + TicksOf(StateAfter(chunks[..|chunks| - 1]), chunks[|chunks| - 1].head)
  }

  /** The last absolute time plus everything added after it. */
  function Elapsed(ticks: seq<Tick>): nat {
    if ticks == [] then 0
    else match ticks[|ticks| - 1]
      case At(t) => t
      case Plus(d) => Elapsed(ticks[..|ticks| - 1]) + d
  }

  /** A stream's clock is the last absolute timestamp plus the deltas applied since, in 32-bit arithmetic. */
  lemma {:induction false} ClockIsElapsed(chunks: seq<Chunk>)
    requires AllFit(chunks)
    ensures StateAfter(chunks).timenow == ToU32(Elapsed(TicksAfter(chunks)))
  {
    hide Fits;
    if chunks != [] {
      var front, c := chunks[..|chunks| - 1], chunks[|chunks| - 1];
      ClockIsElapsed(front);
      ClockStep(StateAfter(front), c, TicksAfter(front));
    }
  }

  lemma ClockStep(cs: ChunkStream, c: Chunk, before: seq<Tick>)
    requires Fits(cs, c) && cs.timenow == ToU32(Elapsed(before))
    ensures Absorb(cs, c).timenow == ToU32(Elapsed(before + TicksOf(cs, c.head)))
  {
    hide Fits, Elapsed, TicksOf, Apply;
    var after := TicksOf(cs, c.head);
    ApplyTicks(cs, c.head);
    if after == [] {
      assert before + after == before;
    } else {
      assert after == [after[0]];
      ElapsedNext(before, after[0]);
      AddWraps(Elapsed(before), if after[0].Plus? then after[0].d else 0);
    }
  }

  lemma ApplyTicks(cs: ChunkStream, head: Head)
    ensures var ticks := TicksOf(cs, head);
      && |ticks| <= 1
      && Apply(cs, head).timenow ==
         if ticks == [] then cs.timenow
         else if ticks[0].At? then ticks[0].t else ToU32(cs.timenow + ticks[0].d)
  {
  }

  lemma ElapsedNext(before: seq<Tick>, t: Tick)
    ensures Elapsed(before + [t]) == if t.At? then t.t else Elapsed(before) + t.d
  {
    assert (before + [t])[..|before|] == before;
  }

  lemma AddWraps(x: nat, d: nat)
    ensures ToU32(ToU32(x) + d) == ToU32(x + d)
  {
  }

  /** Over any run from a fresh connection, for every chunk stream at once. */
  lemma RunIsFaithful(max: nat, b: seq<byte>, r: Reader, csid: nat)
    requires ReadAll(Reader(Idle, max, []), b) == Some(r)
    ensures var mine := Only(ChunksIn(Reader(Idle, max, []), b), csid);
      && r.Stream(csid).left <= |r.Stream(csid).buffer|
      && Payload(mine) == Delivered(MessagesOn(r.got, csid)) + Pending(r.Stream(csid))
      && MessagesOn(r.got, csid) == MessagesAfter(mine, csid)
      && r.Stream(csid).timenow == ToU32(Elapsed(TicksAfter(mine)))
  {
    var r0 := Reader(Idle, max, []);
    var chunks := ChunksIn(r0, b);
    ReadingTakesChunks(r0, b);
    StreamsAreIndependent(max, chunks, r, csid);
    PayloadIsPreserved(Only(chunks, csid), csid);
    ClockIsElapsed(Only(chunks, csid));
  }
}
