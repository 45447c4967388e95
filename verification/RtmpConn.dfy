/** The RTMP connection of format/rtmp: chunk streams kept in a table and updated in place as chunks arrive,
    and the writing of tags in chunks. */
module RtmpConn {
  import opened Bytes
  import Amf0
  import opened FlvTags
  import opened RtmpCommands
  import opened RtmpChunks
  import opened RtmpWriting

  class StreamState {
    var timenow: u32
    var timedelta: u32
    var hastimeext: bool
    var msgsid: u32
    var msgtypeid: byte
    var msgdatalen: nat
    var msgdataleft: nat
    var msghdrtype: byte
    var msgdata: seq<byte>

    ghost const csid: nat  // the id under which the connection keeps this stream

    constructor (ghost csid: nat)
      ensures Value() == Fresh && Valid() && this.csid == csid
    {
      this.csid := csid;
      timenow, timedelta, hastimeext, msgsid, msgtypeid := 0, 0, false, 0, 0;
      msgdatalen, msgdataleft, msghdrtype, msgdata := 0, 0, 0, [];
    }

    function Value(): ChunkStream
      reads this
    {
      ChunkStream(timenow, timedelta, hastimeext, msgsid, msgtypeid, msgdataleft, msghdrtype, msgdata)
    }

    ghost predicate Valid()
      reads this
    {
      msgdatalen == |msgdata| && Value().Valid()
    }

    method Start()
      modifies `msgdataleft, `msgdata
      ensures msgdataleft == msgdatalen && msgdata == Zeros(msgdatalen)
    {
      msgdataleft := msgdatalen;
      msgdata := Zeros(msgdatalen);
    }
  }

  class Conn {
    var input: seq<byte>
    var readcsmap: map<nat, StreamState>
    var readMaxChunkSize: nat
    ghost var streams: map<nat, ChunkStream>
    ghost var got: seq<Message>

    var gotmsg: bool
    var avtag: Option<Tag>
    var command: Option<Command>
    var datamsgvals: seq<Amf0.Val>

    var out: seq<byte>
    var writeMaxChunkSize: nat
    var avmsgsid: u32

    constructor (input: seq<byte>, avmsgsid: u32)
      ensures Valid() && State() == Reader(map[], 128, [])
      ensures this.input == input && out == [] && writeMaxChunkSize == 128 && this.avmsgsid == avmsgsid
    {
      this.input, this.avmsgsid := input, avmsgsid;
      readcsmap, readMaxChunkSize, streams, got := map[], 128, map[], [];
      gotmsg, avtag, out, writeMaxChunkSize := false, None, [], 128;
      command, datamsgvals := None, [];
    }

    /** streams holds the value of every chunk stream in the table. */
    ghost predicate Valid()
      reads this, readcsmap.Values
    {
      && readcsmap.Keys == streams.Keys
      && (forall c :: c in readcsmap ==>
            readcsmap[c].csid == c && readcsmap[c].Valid() && readcsmap[c].Value() == streams[c])
    }

    ghost function State(): (r: Reader)
      requires Valid()
      reads this, readcsmap.Values
      ensures r.Valid()
    {
      Reader(streams, readMaxChunkSize, got)
    }

    /** Takes exactly n bytes from the connection, or fails. */
    method ReadFull(n: nat) returns (ok: bool, b: seq<byte>)
      modifies `input
      ensures ok <==> n <= |old(input)|
      ensures ok ==> b == old(input)[..n] && input == old(input)[n..]
    {
      if |input| < n {
        return false, [];
      }
      ok, b, input := true, input[..n], input[n..];
    }

    method ReadBasicHeader() returns (ok: bool, kind: byte, csid: nat)
      modifies `input
      ensures var p := ParseBasic(old(input));
        && (ok <==> p.Parsed?)
        && (ok ==> p.value == (kind, csid) && input == old(input)[p.n..])
    {
      kind, csid := 0, 0;
      var b;
      ok, b := ReadFull(1);
      if !ok {
        return;
      }
      kind, csid := b[0] / 64, b[0] % 64;
      if csid == 0 {
        ok, b := ReadFull(1);
        if ok {
          csid := b[0] as int + 64;
        }
      } else if csid == 1 {
        ok, b := ReadFull(2);
        if ok {
          csid := U16BE(b) as int + 64;
        }
      }
    }

    /** Reads the rest of a header of hlen bytes whose first three are a time. */
    method ReadTimedHeader(hlen: nat) returns (ok: bool, h: seq<byte>, timestamp: u32, ext: bool)
      requires hlen >= 3
      modifies `input
      ensures ok <==> hlen <= |old(input)| && ParseTime(old(input), hlen).Parsed?
      ensures ok ==> h == old(input)[..hlen] && var p := ParseTime(old(input), hlen);
        p.value == (timestamp, ext) && input == old(input)[p.n..]
    {
      timestamp, ext := 0, false;
      ok, h := ReadFull(hlen);
      if !ok {
        return;
      }
      timestamp := U24BE(h[..3]);
      assert timestamp == U24BE(old(input));
      if timestamp == 0xffffff {
        var b;
        ok, b := ReadFull(4);
        if ok {
          timestamp, ext := U32BE(b), true;
          assert U32BE(b) == U32BE(old(input)[hlen..]);
          assert input == old(input)[hlen + 4..];
        }
      }
    }

    /** Reads a message header and applies it to the chunk stream. */
    method ReadMessageHeader(cs: StreamState, kind: byte) returns (ok: bool)
      requires kind < 4 && cs.Valid()
      modifies `input, cs
      ensures var p := ParseHead(old(cs.Value()), kind, old(input));
        && (ok <==> p.Parsed?)
        && (ok ==> cs.Valid() && cs.Value() == Apply(old(cs.Value()), p.value) && input == old(input)[p.n..])
    {
      if kind < 3 {
        ok := ReadNewHeader(cs, kind);
      } else {
        ok := ReadContinuation(cs);
      }
    }

    /** A header of a new message may only come between messages. */
    method ReadNewHeader(cs: StreamState, kind: byte) returns (ok: bool)
      requires kind < 3 && cs.Valid()
      modifies `input, cs
      ensures var p := ParseHead(old(cs.Value()), kind, old(input));
        && (ok <==> p.Parsed?)
        && (ok ==> cs.Valid() && cs.Value() == Apply(old(cs.Value()), p.value) && input == old(input)[p.n..])
    {
      hide U24BE, U32LE, ParseTime;
      if cs.msgdataleft != 0 {
        return false;
      }
      var hlen := if kind == 0 then 11 else if kind == 1 then 7 else 3;
      var h, timestamp, ext;
      ok, h, timestamp, ext := ReadTimedHeader(hlen);
      if !ok {
        return;
      }
      HeaderFields(old(input), h, hlen);
      cs.msghdrtype := kind;
      if kind <= 1 {
        cs.msgdatalen := U24BE(h[3..6]);
        cs.msgtypeid := h[6];
      }
      if kind == 0 {
        cs.msgsid := U32LE(h[7..11]);
        cs.timenow := timestamp;
      } else {
        cs.timedelta := timestamp;
        cs.timenow := ToU32(cs.timenow + timestamp);
      }
      cs.hastimeext := ext;
      cs.Start();
    }

    /** A continuation begins a message of its own only between messages. */
    method ReadContinuation(cs: StreamState) returns (ok: bool)
      requires cs.Valid()
      modifies `input, cs
      ensures var p := ParseHead(old(cs.Value()), 3, old(input));
        && (ok <==> p.Parsed?)
        && (ok ==> cs.Valid() && cs.Value() == Apply(old(cs.Value()), p.value) && input == old(input)[p.n..])
    {
      hide U32BE;
      ok := true;
      if cs.msgdataleft == 0 {
        if cs.msghdrtype < 3 && cs.hastimeext {
          var b;
          ok, b := ReadFull(4);
          if !ok {
            return;
          }
          FourBytes(old(input));
          var timestamp := U32BE(b);
          cs.timenow := if cs.msghdrtype == 0 then timestamp else ToU32(cs.timenow + timestamp);
        } else if cs.msghdrtype != 0 {
          cs.timenow := ToU32(cs.timenow + cs.timedelta);
        }
        cs.Start();
      }
    }

    static lemma FourBytes(b: seq<byte>)
      requires |b| >= 4
      ensures U32BE(b[..4]) == U32BE(b)
    {
    }

    static lemma HeaderFields(b: seq<byte>, h: seq<byte>, hlen: nat)
      requires 3 <= hlen <= |b| && h == b[..hlen]
      ensures hlen >= 7 ==> U24BE(h[3..6]) == U24BE(b[3..]) && h[6] == b[6]
      ensures hlen >= 11 ==> U32LE(h[7..11]) == U32LE(b[7..])
    {
      if hlen >= 7 {
        assert h[3..6] == b[3..][..3];
      }
      if hlen >= 11 {
        assert h[7..11] == b[7..][..4];
      }
    }

    /** What the handler does with a complete message. */
    method HandleMsg(m: Message) returns (ok: bool)
      modifies `readMaxChunkSize, `gotmsg, `avtag, `command, `datamsgvals, `got
      ensures ok <==> Acceptable(m)
      ensures got == old(got) + [m]
      ensures ok ==> readMaxChunkSize == MaxAfter(old(readMaxChunkSize), m)
      ensures ok && (m.typeid == TAG_AUDIO || m.typeid == TAG_VIDEO) && m.data != [] ==>
        var tag := ParseTag(m.typeid, m.data).value;
        if tag.Audio? || tag.frameType == FRAME_INTER || tag.frameType == FRAME_KEY
        then gotmsg && avtag == Some(tag) else gotmsg == old(gotmsg) && avtag == old(avtag)
      ensures ok && m.typeid == COMMAND_AMF0 ==> gotmsg && command == ParseCommand(m.data)
      ensures ok && m.typeid == COMMAND_AMF3 ==> gotmsg && command == ParseCommand(m.data[1..])
      ensures ok && m.typeid == DATA_AMF0 ==> gotmsg && datamsgvals == old(datamsgvals) + ParseAll(m.data).value
      ensures m.typeid != COMMAND_AMF0 && m.typeid != COMMAND_AMF3 ==> command == old(command)
    {
      hide ParseCommand, ParseAll;
      got := got + [m];
      var b := m.data;
      ok := true;
      if m.typeid == COMMAND_AMF0 || m.typeid == COMMAND_AMF3 {
        if m.typeid == COMMAND_AMF3 {
          if |b| < 1 {
            return false;
          }
          b := b[1..];
        }
        var c := ReadCommand(b);
        if c.None? {
          return false;
        }
        command := c;
      } else if m.typeid == DATA_AMF0 {
        var vals := ReadValues(b, 0, []);
        assert b[0..] == b;
        BeforeNothing(b);
        if vals.None? {
          return false;
        }
        datamsgvals := datamsgvals + vals.value;
      } else if m.typeid == TAG_AUDIO || m.typeid == TAG_VIDEO {
        if |b| == 0 {
          return;
        }
        var tag := ParseTag(m.typeid, b);
        if tag.None? {
          return false;
        }
        if tag.value.Video? && !(tag.value.frameType == FRAME_INTER || tag.value.frameType == FRAME_KEY) {
          return;
        }
        avtag := tag;
      } else if m.typeid == SET_CHUNK_SIZE {
        if |b| < 4 {
          return false;
        }
        readMaxChunkSize := U32BE(b);
        return;
      } else if m.typeid == USER_CONTROL && |b| < 2 {
        return false;
      }
      gotmsg := true;
    }

    /** The stream with this id, created when it is first seen. */
    method FindStream(csid: nat) returns (cs: StreamState)
      requires Valid()
      modifies `readcsmap, `streams
      ensures Valid() && csid in readcsmap && readcsmap[csid] == cs
      ensures streams == old(streams)[csid := old(State()).Stream(csid)]
      ensures cs in old(readcsmap.Values) || fresh(cs)
      ensures forall s :: s in readcsmap.Values ==> s in old(readcsmap.Values) || s == cs
    {
      if csid in readcsmap {
        cs := readcsmap[csid];
        assert streams == streams[csid := streams[csid]];
      } else {
        cs := new StreamState(csid);
        readcsmap := readcsmap[csid := cs];
        streams := streams[csid := Fresh];
      }
    }

    /** Reads the payload of a chunk into the message buffer. */
    method ReadPayload(cs: StreamState) returns (ok: bool, payload: seq<byte>)
      requires cs.Valid()
      modifies `input, cs`msgdata, cs`msgdataleft
      ensures var size := if old(cs.msgdataleft) > readMaxChunkSize then readMaxChunkSize else old(cs.msgdataleft);
        && (ok <==> size <= |old(input)|)
        && (ok ==> payload == old(input)[..size] && input == old(input)[size..])
        && (ok ==> cs.Valid() && cs.Value() == Fill(old(cs.Value()), payload))
    {
      var size := cs.msgdataleft;
      if size > readMaxChunkSize {
        size := readMaxChunkSize;
      }
      var off := cs.msgdatalen - cs.msgdataleft;
      ok, payload := ReadFull(size);
      if ok {
        cs.msgdata := cs.msgdata[..off] + payload + cs.msgdata[off + size..];
        cs.msgdataleft := cs.msgdataleft - size;
      }
    }

    /** Reads both headers and applies them to the chunk's stream. */
    method ReadHeaders() returns (ok: bool, csid: nat, cs: StreamState?)
      requires Valid()
      modifies `input, `readcsmap, `streams, readcsmap.Values
      ensures var p := ParseHeaders(old(State()), old(input));
        && (ok <==> p.Parsed?)
        && (ok ==> csid == p.value.0 && input == old(input)[p.n..])
        && (ok ==> Valid() && State() == Headed(old(State()), csid, p.value.1))
      ensures ok ==> csid in readcsmap && readcsmap[csid] == cs
      ensures ok ==> forall s :: s in readcsmap.Values ==> s in old(readcsmap.Values) || fresh(s)
    {
      hide ParseBasic, ParseHead, Apply, StreamState.Valid, StreamState.Value;
      ghost var r, b := State(), input;
      cs := null;
      var kind;
      ok, kind, csid := ReadBasicHeader();
      if !ok {
        return;
      }
      ghost var n := ParseBasic(b).n;
      cs := FindStream(csid);
      ok := TakeHeader(csid, cs, kind);
      if ok {
        ghost var k := ParseHead(r.Stream(csid), kind, b[n..]).n;
        Overwrite(r.streams, csid, r.Stream(csid), streams[csid]);
        assert b[n..][k..] == b[n + k..];
      }
    }

    /** Reads a message header into the stream it belongs to. */
    method TakeHeader(csid: nat, cs: StreamState, kind: byte) returns (ok: bool)
      requires Valid() && csid in readcsmap && readcsmap[csid] == cs && kind < 4
      modifies `input, `streams, cs
      ensures var p := ParseHead(old(State()).Stream(csid), kind, old(input));
        && (ok <==> p.Parsed?)
        && (ok ==> Valid() && State() == Headed(old(State()), csid, p.value) && input == old(input)[p.n..])
    {
      hide ParseHead, Apply, StreamState.Valid, StreamState.Value;
      assert cs.Value() == streams[csid];
      ok := ReadMessageHeader(cs, kind);
      if ok {
        streams := streams[csid := cs.Value()];
      }
    }

    /** Reads one chunk: the connection moves exactly as the chunk stream rules say, or fails when they refuse. */
    method ReadChunk() returns (ok: bool)
      requires Valid()
      modifies this, readcsmap.Values
      ensures var p := RtmpChunks.ReadChunk(old(State()), old(input));
        && (ok <==> p.Parsed?)
        && (ok ==> Valid() && State() == p.value && input == old(input)[p.n..])
    {
      hide ParseHeaders, FinishChunk, Headed, RtmpChunks.ReadChunk, StreamState.Valid, StreamState.Value;
      ChunkAfterHeaders(State(), input);
      var csid, cs;
      ok, csid, cs := ReadHeaders();
      if ok {
        ok := Finish(csid, cs);
      }
    }

    /** Reads the chunk's payload and hands a complete message to the handler. */
    method Finish(csid: nat, cs: StreamState) returns (ok: bool)
      requires Valid() && csid in readcsmap && readcsmap[csid] == cs
      modifies this, cs
      ensures var p := FinishChunk(old(State()), csid, old(input));
        && (ok <==> p.Parsed?)
        && (ok ==> Valid() && State() == p.value && input == old(input)[p.n..])
    {
      hide Fill, Acceptable, MaxAfter, StreamState.Valid, StreamState.Value;
      ok := TakePayload(csid, cs);
      if !ok {
        return;
      }
      assert cs.Value() == streams[csid];
      Finishes(csid, cs);
      if cs.msgdataleft == 0 {
        ok := HandleMsg(Message(csid, cs.timenow, cs.msgsid, cs.msgtypeid, cs.msgdata));
      }
    }

    static lemma Finishes(csid: nat, cs: StreamState)
      ensures cs.Value().left == cs.msgdataleft
      ensures Finished(csid, cs.Value()) == Message(csid, cs.timenow, cs.msgsid, cs.msgtypeid, cs.msgdata)
    {
    }

    static lemma Sized(cs: StreamState)
      requires cs.Valid()
      ensures var c := cs.Value(); c.left == cs.msgdataleft && c.left <= |c.buffer|
    {
    }

    /** Reads the chunk's payload into its stream. */
    method TakePayload(csid: nat, cs: StreamState) returns (ok: bool)
      requires Valid() && csid in readcsmap && readcsmap[csid] == cs
      modifies `input, `streams, cs
      ensures var r, b := old(State()), old(input); var c := r.Stream(csid);
        var size := if c.left > r.max then r.max else c.left;
        && c.left <= |c.buffer|
        && (ok <==> size <= |b|)
        && (ok ==> Valid() && input == b[size..] && State() == r.(streams := r.streams[csid := Fill(c, b[..size])]))
    {
      hide Fill, StreamState.Valid, StreamState.Value;
      Sized(cs);
      assert cs.Value() == streams[csid];
      var payload;
      ok, payload := ReadPayload(cs);
      if ok {
        streams := streams[csid := cs.Value()];
      }
    }

    /** Writes a message in pieces of at most the chunk size, the first behind a full header, the rest behind
        continuation headers. */
    method WriteInChunks(csid: nat, timestamp: u32, typeid: byte, data: seq<byte>)
      requires writeMaxChunkSize >= 1 && data != []
      modifies `out
      ensures out == old(out) + Encode(csid, timestamp, typeid, avmsgsid, data, writeMaxChunkSize)
    {
      hide Encode, Continue, Header0, Header3;
      var pos, last, msgdatalen := 0, writeMaxChunkSize, |data|;
      ghost var whole := old(out) + Left(csid, timestamp, typeid, avmsgsid, data, 0, writeMaxChunkSize);
      while msgdatalen > 0
        invariant 0 <= pos && pos + msgdatalen == |data| && last == pos + writeMaxChunkSize && msgdatalen > 0
        invariant whole == out + Left(csid, timestamp, typeid, avmsgsid, data, pos, writeMaxChunkSize)
      {
        ghost var before := out;
        LeftSplits(csid, timestamp, typeid, avmsgsid, data, pos, writeMaxChunkSize);
        if pos == 0 {
          out := out + Header0(csid, timestamp, typeid, avmsgsid, msgdatalen);
        } else {
          out := out + Header3(csid, timestamp);
        }
        ghost var header := out[|before|..];
        if msgdatalen > writeMaxChunkSize {
          out := out + data[pos..last];
          Regroup(before, header, data[pos..last],
                  Left(csid, timestamp, typeid, avmsgsid, data, last, writeMaxChunkSize));
          pos, last, msgdatalen := last, last + writeMaxChunkSize, msgdatalen - writeMaxChunkSize;
        } else {
          out := out + data[pos..|data|];
          Regroup(before, header, data[pos..|data|], []);
          return;
        }
      }
    }

    /** Writes a tag: its header and data are one message on the chunk stream of its kind. */
    method WriteAVTag(tag: Tag, ts: int)
      requires writeMaxChunkSize >= 1
      modifies `out
      ensures out == old(out) + EncodeOp(Media(tag, ts), avmsgsid, writeMaxChunkSize)
    {
      hide Encode, FillHeader;
      TagNotEmpty(tag);
      WriteInChunks(if tag.Audio? then 6 else 7, ToU32(ts), Kind(tag), FillHeader(tag) + tag.data);
    }

    /** Announces a chunk size and uses it from then on. */
    method WriteSetChunkSize(size: nat)
      requires writeMaxChunkSize >= 1
      modifies `out, `writeMaxChunkSize
      ensures out == old(out) + EncodeOp(Announce(size), avmsgsid, old(writeMaxChunkSize))
      ensures writeMaxChunkSize == MaxAfterOp(Announce(size), old(writeMaxChunkSize))
    {
      writeMaxChunkSize := size;
      out := out + (Header0(2, 0, SET_CHUNK_SIZE, 0, 4) + BE32(ToU32(size)));
    }
  }

  /** What is still to be written of a message of which pos bytes have gone out. */
  function Left(csid: nat, timestamp: u32, typeid: byte, msgsid: u32, data: seq<byte>, pos: nat, max: nat): seq<byte>
    requires max >= 1 && pos <= |data|
  {
    if pos == 0 then Encode(csid, timestamp, typeid, msgsid, data, max) else Continue(csid, timestamp, data[pos..], max)
  }

  lemma LeftSplits(csid: nat, timestamp: u32, typeid: byte, msgsid: u32, data: seq<byte>, pos: nat, max: nat)
    requires max >= 1 && pos < |data|
    ensures var header := if pos == 0 then Header0(csid, timestamp, typeid, msgsid, |data|)
        else Header3(csid, timestamp);
      Left(csid, timestamp, typeid, msgsid, data, pos, max) ==
      (if |data| - pos > max then header + (data[pos..pos + max]
          + Left(csid, timestamp, typeid, msgsid, data, pos + max, max))
       else header + (data[pos..|data|] + []))
  {
    hide Header0, Header3, Encode, Continue;
    if pos == 0 {
      EncodeSplits(csid, timestamp, typeid, msgsid, data, max);
      assert data[0..] == data && data[0..|data|] == data && data + [] == data;
      Piece(data, 0, max);
    } else {
      ContinueSplits(csid, timestamp, data[pos..], max);
      Piece(data, pos, max);
    }
  }

  lemma EncodeSplits(csid: nat, timestamp: u32, typeid: byte, msgsid: u32, data: seq<byte>, max: nat)
    requires max >= 1
    ensures Encode(csid, timestamp, typeid, msgsid, data, max) == Header0(csid, timestamp, typeid, msgsid, |data|)
      + (if |data| <= max then data else data[..max] + Continue(csid, timestamp, data[max..], max))
  {
    hide Header0, Continue;
  }

  lemma ContinueSplits(csid: nat, timestamp: u32, data: seq<byte>, max: nat)
    requires max >= 1
    ensures Continue(csid, timestamp, data, max) == Header3(csid, timestamp)
      + (if |data| <= max then data else data[..max] + Continue(csid, timestamp, data[max..], max))
  {
    hide Header3;
    if |data| > max {
      var h, d, c := Header3(csid, timestamp), data[..max], Continue(csid, timestamp, data[max..], max);
      assert h + d + c == h + (d + c);
    }
  }

  lemma Piece(data: seq<byte>, pos: nat, max: nat)
    requires pos <= |data|
    ensures data[pos..|data|] + [] == data[pos..]
    ensures pos + max <= |data| ==> data[pos..][..max] == data[pos..pos + max] && data[pos..][max..] == data[pos + max..]
  {
  }

  lemma Regroup(before: seq<byte>, header: seq<byte>, piece: seq<byte>, rest: seq<byte>)
    ensures before + (header + (piece + rest)) == (before + header + piece) + rest
  {
  }

  lemma TagNotEmpty(tag: Tag)
    ensures FillHeader(tag) != []
  {
  }

  lemma Overwrite(m: map<nat, ChunkStream>, k: nat, a: ChunkStream, b: ChunkStream)
    ensures m[k := a][k := b] == m[k := b]
  {
  }

  /** Both headers at the front of the input: the chunk stream and what its header says. */
  function ParseHeaders(r: Reader, b: seq<byte>): (p: Parsed<(nat, Head)>)
    ensures p.Parsed? ==> p.n <= |b|
  {
    match ParseBasic(b)
    case Short => Short
    case Refused => Refused
    case Parsed(basic, n) =>
      match ParseHead(r.Stream(basic.1), basic.0, b[n..])
      case Short => Short
      case Refused => Refused
      case Parsed(head, k) => Parsed((basic.1, head), n + k)
  }

  function Headed(r: Reader, csid: nat, head: Head): Reader {
    r.(streams := r.streams[csid := Apply(r.Stream(csid), head)])
  }

  /** The reader once the payload of a chunk has been stored in its stream. */
  function Stored(r: Reader, csid: nat, next: ChunkStream): Option<Reader> {
    var streams := r.streams[csid := next];
    if next.left != 0 then Some(r.(streams := streams))
    else
      var m := Finished(csid, next);
      if Acceptable(m) then Some(Reader(streams, MaxAfter(r.max, m), r.got + [m])) else None
  }

  /** Stores the payload of a chunk whose headers have been applied. */
  function FinishChunk(r: Reader, csid: nat, b: seq<byte>): (p: Parsed<Reader>)
    requires r.Valid()
    ensures p.Parsed? ==> p.n <= |b|
  {
    var cs := r.Stream(csid);
    var size := if cs.left > r.max then r.max else cs.left;
    if size > |b| then Short
    else
      assert cs.Valid();
      match Stored(r, csid, Fill(cs, b[..size]))
      case None => Refused
      case Some(r') => Parsed(r', size)
  }

  /** A chunk is read header first, payload second. */
  lemma ChunkAfterHeaders(r: Reader, b: seq<byte>)
    requires r.Valid()
    ensures var h := ParseHeaders(r, b); var p := RtmpChunks.ReadChunk(r, b);
      && (!h.Parsed? ==> !p.Parsed?)
      && (h.Parsed? ==>
            var mid := Headed(r, h.value.0, h.value.1);
            && mid.Valid()
            && var q := FinishChunk(mid, h.value.0, b[h.n..]);
               && (p.Parsed? <==> q.Parsed?)
               && (q.Parsed? ==> p == Parsed(q.value, h.n + q.n) && b[h.n..][q.n..] == b[h.n + q.n..]))
  {
    hide ParseBasic, ParseHead, Apply, Fill, Acceptable, MaxAfter;
    if ParseHeaders(r, b).Parsed? {
      var basic := ParseBasic(b);
      HeadFits(r.Stream(basic.value.1), basic.value.0, b[basic.n..]);
      var (csid, head) := ParseHeaders(r, b).value;
      var n := ParseHeaders(r, b).n;
      var started := Apply(r.Stream(csid), head);
      var size := if started.left > r.max then r.max else started.left;
      if size <= |b[n..]| {
        assert b[n..][..size] == b[n..n + size];
        assert ParseChunk(r, b) == Parsed(Chunk(csid, head, b[n..n + size]), n + size);
        Overwrite(r.streams, csid, started, Fill(started, b[n..n + size]));
      }
    }
  }
}
