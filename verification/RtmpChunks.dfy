/** The RTMP chunk stream (section 5.3 of Adobe's RTMP 1.0 specification) as format/rtmp reads and writes it:
    headers of four types, several interleaved chunk streams, messages cut at an adjustable size. */
module RtmpChunks {
  import opened Bytes
  import opened FlvTags
  import opened RtmpCommands

  const EXTENDED: u24 := 0xffffff
  const SET_CHUNK_SIZE: byte := 1
  const USER_CONTROL: byte := 4
  const COMMAND_AMF3: byte := 17
  const DATA_AMF0: byte := 18
  const COMMAND_AMF0: byte := 20

  /** A complete message as handed to the message handler, with the chunk stream it arrived on. */
  datatype Message = Message(csid: nat, timestamp: u32, msgsid: u32, typeid: byte, data: seq<byte>)

  /** What the reader remembers of one chunk stream; buffer has the length of the current message. */
  datatype ChunkStream = ChunkStream(
    timenow: u32, timedelta: u32, hastimeext: bool, msgsid: u32, msgtypeid: byte,
    left: nat, msghdrtype: byte, buffer: seq<byte>)
  {
    predicate Valid() { left <= |buffer| && msghdrtype < 4 && |buffer| < 0x100_0000 }
    function Received(): nat requires left <= |buffer| { |buffer| - left }
  }

  const Fresh := ChunkStream(0, 0, false, 0, 0, 0, 0, [])

  /** A parsed message header. Types 0 to 2 carry a time field and whether it was extended;
      type 3 carries an extended time only when a new message starts on a stream that had one. */
  datatype Head =
    | Full(time: u32, ext: bool, len: u24, typeid: byte, msgsid: u32)
    | SameStream(time: u32, ext: bool, len: u24, typeid: byte)
    | TimeOnly(time: u32, ext: bool)
    | Bare(again: Option<u32>)

  datatype Parsed<+T> = Parsed(value: T, n: nat) | Short | Refused

  /** Basic header: header type and chunk stream id, in one, two or three bytes. */
  function ParseBasic(b: seq<byte>): (p: Parsed<(byte, nat)>)
    ensures p.Parsed? ==> 1 <= p.n <= |b| && p.value.0 < 4
  {
    if |b| < 1 then Short
    else
      var kind, csid := b[0] / 64, b[0] % 64;
      if csid == 0 then (if |b| < 2 then Short else Parsed((kind, b[1] as int + 64), 2))
      else if csid == 1 then (if |b| < 3 then Short else Parsed((kind, U16BE(b[1..]) as int + 64), 3))
      else Parsed((kind, csid), 1)
  }

  /** A 24-bit time field at the start of h; the all-ones value announces four more bytes after the header. */
  function ParseTime(h: seq<byte>, hlen: nat): (p: Parsed<(u32, bool)>)
    requires 3 <= hlen <= |h|
    ensures p.Parsed? ==> hlen <= p.n <= |h|
  {
    var t := U24BE(h);
    if t == EXTENDED then
      if |h| < hlen + 4 then Short else Parsed((U32BE(h[hlen..]), true), hlen + 4)
    else Parsed((t, false), hlen)
  }

  /** The message header; a new header is refused while the stream's message is incomplete. */
  function ParseHead(cs: ChunkStream, kind: byte, h: seq<byte>): (p: Parsed<Head>)
    requires kind < 4
    ensures p.Parsed? ==> p.n <= |h|
  {
    if kind == 3 then
      if cs.left == 0 && cs.hastimeext && cs.msghdrtype < 3 then
        if |h| < 4 then Short else Parsed(Bare(Some(U32BE(h))), 4)
      else Parsed(Bare(None), 0)
    else if cs.left != 0 then Refused
    else
      var hlen := if kind == 0 then 11 else if kind == 1 then 7 else 3;
      if |h| < hlen then Short
      else match ParseTime(h, hlen)
        case Short => Short
        case Refused => Refused
        case Parsed(t, n) =>
          if kind == 0 then Parsed(Full(t.0, t.1, U24BE(h[3..]), h[6], U32LE(h[7..])), n)
          else if kind == 1 then Parsed(SameStream(t.0, t.1, U24BE(h[3..]), h[6]), n)
          else Parsed(TimeOnly(t.0, t.1), n)
  }

  function Zeros(n: nat): (z: seq<byte>)
    ensures |z| == n
  {
    seq(n, _ => 0)
  }

  /** Allocates the buffer for a message of len bytes. */
  function Begin(cs: ChunkStream, len: nat): ChunkStream { cs.(left := len, buffer := Zeros(len)) }

  /** The header's effect on its stream. */
  function Apply(cs: ChunkStream, head: Head): ChunkStream {
    match head
    case Full(t, ext, len, typeid, msgsid) =>
      Begin(cs.(timenow := t, hastimeext := ext, msghdrtype := 0, msgtypeid := typeid, msgsid := msgsid), len)
    case SameStream(t, ext, len, typeid) =>
      Begin(cs.(timedelta := t, timenow := ToU32(cs.timenow + t), hastimeext := ext, msghdrtype := 1,
          msgtypeid := typeid), len)
    case TimeOnly(t, ext) =>
      Begin(cs.(timedelta := t, timenow := ToU32(cs.timenow + t), hastimeext := ext, msghdrtype := 2), |cs.buffer|)
    case Bare(again) =>
      if cs.left != 0 then cs
      else if cs.msghdrtype == 0 then
        Begin(if again.Some? then cs.(timenow := again.value) else cs, |cs.buffer|)
      else
        var step := if again.Some? then again.value else cs.timedelta;
        Begin(cs.(timenow := ToU32(cs.timenow + step)), |cs.buffer|)
  }

  /** Stores the next payload bytes of the message. */
  function Fill(cs: ChunkStream, payload: seq<byte>): ChunkStream
    requires cs.left <= |cs.buffer| && |payload| <= cs.left
  {
    var off := cs.Received();
    cs.(left := cs.left - |payload|, buffer := cs.buffer[..off] + payload + cs.buffer[off + |payload|..])
  }

  /** The reader: its chunk streams, the chunk size it expects, and the messages completed so far. */
  datatype Reader = Reader(streams: map<nat, ChunkStream>, max: nat, got: seq<Message>)
  {
    function Stream(csid: nat): ChunkStream { if csid in streams then streams[csid] else Fresh }
    predicate Valid() { forall csid :: csid in streams ==> streams[csid].Valid() }
  }

  /** One chunk: whose it is, its header, and the payload bytes it brought. */
  datatype Chunk = Chunk(csid: nat, head: Head, payload: seq<byte>)

  /** The chunk may follow on its stream: a new header only between messages, and no byte past the message. */
  predicate Fits(cs: ChunkStream, c: Chunk) {
    && (c.head.Bare? || cs.left == 0)
    && var started := Apply(cs, c.head);
      started.left <= |started.buffer| && |c.payload| <= started.left
  }

  function Absorb(cs: ChunkStream, c: Chunk): ChunkStream
    requires Fits(cs, c)
  {
    Fill(Apply(cs, c.head), c.payload)
  }

  function Finished(csid: nat, cs: ChunkStream): Message {
    Message(csid, cs.timenow, cs.msgsid, cs.msgtypeid, cs.buffer)
  }

  /** The handler's checks: control messages must be long enough, media messages must carry a tag header, data messages
      are made of values, and commands of at least three, the first of them a string. */
  predicate Acceptable(m: Message) {
    && (m.typeid == SET_CHUNK_SIZE ==> |m.data| >= 4)
    && (m.typeid == USER_CONTROL ==> |m.data| >= 2)
    && (m.typeid == COMMAND_AMF3 ==> |m.data| >= 1 && ParseCommand(m.data[1..]).Some?)
    && (m.typeid == COMMAND_AMF0 ==> ParseCommand(m.data).Some?)
    && (m.typeid == DATA_AMF0 ==> ParseAll(m.data).Some?)
    && (m.typeid == TAG_AUDIO || m.typeid == TAG_VIDEO ==> m.data == [] || ParseTag(m.typeid, m.data).Some?)
  }

  function MaxAfter(max: nat, m: Message): nat
    requires Acceptable(m)
  {
    if m.typeid == SET_CHUNK_SIZE then U32BE(m.data) else max
  }

  /** The reader after one chunk; a message that is complete goes to the handler. */
  function Take(r: Reader, c: Chunk): Option<Reader> {
    var cs := r.Stream(c.csid);
    if !Fits(cs, c) then None
    else
      var next := Absorb(cs, c);
      var r' := r.(streams := r.streams[c.csid := next]);
      if next.left != 0 then Some(r')
      else
        var m := Finished(c.csid, next);
        if Acceptable(m) then Some(r'.(max := MaxAfter(r.max, m), got := r.got + [m])) else None
  }

  /** The chunk at the front of the input. */
  function ParseChunk(r: Reader, b: seq<byte>): (p: Parsed<Chunk>)
    requires r.Valid()
    ensures p.Parsed? ==> 1 <= p.n <= |b| && Fits(r.Stream(p.value.csid), p.value)
  {
    match ParseBasic(b)
    case Short => Short
    case Refused => Refused
    case Parsed(basic, n) =>
      var cs := r.Stream(basic.1);
      match ParseHead(cs, basic.0, b[n..])
      case Short => Short
      case Refused => Refused
      case Parsed(head, k) =>
        var started := Apply(cs, head);
        var size := if started.left > r.max then r.max else started.left;
        if |b| < n + k + size then Short
        else
          HeadFits(cs, basic.0, b[n..]);
          Parsed(Chunk(basic.1, head, b[n + k..n + k + size]), n + k + size)
  }

  lemma HeadFits(cs: ChunkStream, kind: byte, h: seq<byte>)
    requires cs.Valid() && kind < 4 && ParseHead(cs, kind, h).Parsed?
    ensures Apply(cs, ParseHead(cs, kind, h).value).Valid()
  {
  }

  /** One read step, as the connection performs it. */
  function ReadChunk(r: Reader, b: seq<byte>): (p: Parsed<Reader>)
    requires r.Valid()
    ensures p.Parsed? ==> p.value.Valid() && 1 <= p.n <= |b|
  {
    match ParseChunk(r, b)
    case Short => Short
    case Refused => Refused
    case Parsed(c, n) =>
      match Take(r, c)
      case None => Refused
      case Some(r') => TakeValid(r, b); Parsed(r', n)
  }

  lemma TakeValid(r: Reader, b: seq<byte>)
    requires r.Valid() && ParseChunk(r, b).Parsed? && Take(r, ParseChunk(r, b).value).Some?
    ensures Take(r, ParseChunk(r, b).value).value.Valid()
  {
    hide ParseBasic, ParseTime;
    var c := ParseChunk(r, b).value;
    var cs := r.Stream(c.csid);
    assert cs.Valid();
    ParsedHeadValid(r, b);
    assert Absorb(cs, c).Valid();
  }

  lemma ParsedHeadValid(r: Reader, b: seq<byte>)
    requires r.Valid() && ParseChunk(r, b).Parsed?
    ensures var c := ParseChunk(r, b).value; Apply(r.Stream(c.csid), c.head).Valid()
  {
    hide ParseBasic, ParseTime, ParseHead;
    var p := ParseBasic(b);
    HeadFits(r.Stream(p.value.1), p.value.0, b[p.n..]);
  }

  /** Reads until the input is used up. */
  function ReadAll(r: Reader, b: seq<byte>): Option<Reader>
    requires r.Valid()
    decreases |b|
  {
    if b == [] then Some(r)
    else match ReadChunk(r, b)
      case Parsed(r', n) => ReadAll(r', b[n..])
      case Short => None
      case Refused => None
  }
}
