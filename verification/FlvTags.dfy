/** FLV audio and video tag headers (format/flv/flvio), as carried in front of RTMP media messages. */
module FlvTags {
  import opened Bits
  import opened Bytes

  const TAG_AUDIO: byte := 8
  const TAG_VIDEO: byte := 9
  const SOUND_AAC: byte := 10
  const FRAME_KEY: byte := 1
  const FRAME_INTER: byte := 2

  datatype Tag =
    | Audio(soundFormat: byte, soundRate: byte, soundSize: byte, soundType: byte, aacPacketType: byte, data: seq<byte>)
    | Video(frameType: byte, codecID: byte, avcPacketType: byte, compositionTime: int, data: seq<byte>)

  /** The header bytes; the fields are shifted into place and or-ed together without masking. */
  function FillHeader(t: Tag): (h: seq<byte>)
    ensures |h| <= 5
  {
    match t
    case Audio(format, rate, size, typ, aac, _) =>
      var flags := Or(Or(Or(ToU8(format * 16), ToU8(rate * 4)), ToU8(size * 2)), typ);
      [ToU8(flags)] + (if format == SOUND_AAC then [aac] else [])
    case Video(frame, codec, avc, composition, _) =>
      [ToU8(Or(ToU8(frame * 16), codec)), avc] + BE24(composition % 0x100_0000)
  }

  function I24BE(b: seq<byte>): int
    requires |b| >= 3
  {
    var v := U24BE(b);
    if v >= 0x80_0000 then v - 0x100_0000 else v
  }

  /** Reads an audio header, and an AAC packet type when the format asks for one. */
  function ParseAudio(b: seq<byte>): Option<Tag> {
    if |b| < 1 then None
    else
      var format := b[0] / 16;
      if format == SOUND_AAC && |b| < 2 then None
      else
        var n := if format == SOUND_AAC then 2 else 1;
        Some(Audio(format, b[0] / 4 % 4, b[0] / 2 % 2, b[0] % 2, if n == 2 then b[1] else 0, b[n..]))
  }

  /** Reads a video header; only key and inter frames carry a packet type and a composition time. */
  function ParseVideo(b: seq<byte>): Option<Tag> {
    if |b| < 1 then None
    else
      var frame, codec := b[0] / 16, b[0] % 16;
      if frame == FRAME_INTER || frame == FRAME_KEY then
        if |b| < 5 then None else Some(Video(frame, codec, b[1], I24BE(b[2..]), b[5..]))
      else Some(Video(frame, codec, 0, 0, b[1..]))
  }

  function ParseTag(kind: byte, b: seq<byte>): Option<Tag>
    requires kind == TAG_AUDIO || kind == TAG_VIDEO
  {
    if kind == TAG_AUDIO then ParseAudio(b) else ParseVideo(b)
  }

  function Kind(t: Tag): byte { if t.Audio? then TAG_AUDIO else TAG_VIDEO }

  /** Every field fits the bits the header gives it, and a field the header drops is zero. */
  predicate Representable(t: Tag) {
    match t
    case Audio(format, rate, size, typ, aac, _) =>
      format < 16 && rate < 4 && size < 2 && typ < 2 && (format == SOUND_AAC || aac == 0)
    case Video(frame, codec, _, composition, _) =>
      (frame == FRAME_KEY || frame == FRAME_INTER) && codec < 16 && -0x80_0000 <= composition < 0x80_0000
  }

  lemma AudioFlags(format: byte, rate: byte, size: byte, typ: byte)
    requires format < 16 && rate < 4 && size < 2 && typ < 2
    ensures Or(Or(Or(ToU8(format * 16), ToU8(rate * 4)), ToU8(size * 2)), typ)
        == format * 16 + rate * 4 + size * 2 + typ
  {
    hide Or;
    SmallPowers();
    OrDisjoint(format, rate * 4, 4);
    assert (format * 4 + rate) * 4 == format * 16 + rate * 4;
    OrDisjoint(format * 4 + rate, size * 2, 2);
    assert (format * 8 + rate * 2 + size) * 2 == format * 16 + rate * 4 + size * 2;
    OrDisjoint(format * 8 + rate * 2 + size, typ, 1);
  }

  lemma VideoFlags(frame: byte, codec: byte)
    requires frame < 16 && codec < 16
    ensures Or(ToU8(frame * 16), codec) == frame * 16 + codec
  {
    hide Or;
    SmallPowers();
    OrDisjoint(frame, codec, 4);
  }

  lemma I24ReadsBack(v: int, rest: seq<byte>)
    ensures I24BE(BE24(v % 0x100_0000) + rest) == v <==> -0x80_0000 <= v < 0x80_0000
  {
    ReadBack24(v % 0x100_0000, rest);
  }

  lemma Front(h: seq<byte>, data: seq<byte>)
    requires h != []
    ensures var b := h + data; |b| > 0 && b[0] == h[0] && b[|h|..] == data && (|h| > 1 ==> b[1] == h[1])
  {
  }

  lemma AudioBits(b: byte, format: byte, rate: byte, size: byte, typ: byte)
    requires format < 16 && rate < 4 && size < 2 && typ < 2 && b == format * 16 + rate * 4 + size * 2 + typ
    ensures b / 16 == format && b / 4 % 4 == rate && b / 2 % 2 == size && b % 2 == typ
  {
    Halved(format * 8 + rate * 2 + size, typ);
    Halved(format * 4 + rate, size);
    HalvedTwice(b);
    Quartered(format, rate);
    QuarteredTwice(b);
  }

  lemma Halved(a: nat, x: nat)
    requires x < 2
    ensures (a * 2 + x) / 2 == a && (a * 2 + x) % 2 == x
  {
  }

  lemma HalvedTwice(b: nat)
    ensures b / 4 == b / 2 / 2
  {
  }

  lemma Quartered(a: nat, x: nat)
    requires x < 4
    ensures (a * 4 + x) / 4 == a && (a * 4 + x) % 4 == x
  {
  }

  lemma QuarteredTwice(b: nat)
    ensures b / 16 == b / 4 / 4
  {
  }

  lemma AudioReadsBack(t: Tag)
    requires t.Audio? && Representable(t)
    ensures ParseAudio(FillHeader(t) + t.data) == Some(t)
  {
    hide Or;
    AudioFlags(t.soundFormat, t.soundRate, t.soundSize, t.soundType);
    var h := FillHeader(t);
    Front(h, t.data);
    AudioBits(h[0], t.soundFormat, t.soundRate, t.soundSize, t.soundType);
  }

  lemma VideoReadsBack(t: Tag)
    requires t.Video? && Representable(t)
    ensures ParseVideo(FillHeader(t) + t.data) == Some(t)
  {
    hide Or;
    VideoFlags(t.frameType, t.codecID);
    var b := FillHeader(t) + t.data;
    assert b[0] == t.frameType * 16 + t.codecID;
    I24ReadsBack(t.compositionTime, t.data);
    assert b[2..] == BE24(t.compositionTime % 0x100_0000) + t.data;
    assert b[5..] == t.data;
  }

  /** A tag survives the header exactly when its fields are representable. */
  lemma ReadsBackIffRepresentable(t: Tag)
    ensures ParseTag(Kind(t), FillHeader(t) + t.data) == Some(t) <==> Representable(t)
  {
    hide FillHeader, ParseAudio, ParseVideo, Representable;
    if Representable(t) {
      if t.Audio? {
        AudioReadsBack(t);
      } else {
        VideoReadsBack(t);
      }
    } else if ParseTag(Kind(t), FillHeader(t) + t.data) == Some(t) {
      ReadBackIsRepresentable(t);
    }
  }

  lemma ReadBackIsRepresentable(t: Tag)
    requires ParseTag(Kind(t), FillHeader(t) + t.data) == Some(t)
    ensures Representable(t)
  {
    hide Or;
    var b := FillHeader(t) + t.data;
    if t.Video? {
      assert b[2..] == BE24(t.compositionTime % 0x100_0000) + t.data;
      I24ReadsBack(t.compositionTime, t.data);
      assert |b[1..]| == |t.data| + 4;
    }
  }
}
