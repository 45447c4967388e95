/** Elementary stream descriptors with nested lengths (format/fmp4/esio, section 7.2.6 of ISO/IEC 14496-1). */
module Esio {
  import opened Bytes

  const TAG_ES: byte := 3
  const TAG_DECODER_CONFIG: byte := 4
  const TAG_DECODER_SPECIFIC: byte := 5
  const TAG_SL_CONFIG: byte := 6
  const OBJECT_AUDIO: byte := 0x40
  const MAX_LENGTH := 0x1000_0000

  datatype DecoderConfig = DecoderConfig(objectType: byte, streamType: byte, bufferSize: u32, maxBitrate: u32,
      avgBitrate: u32,
                                         audioSpecific: Option<seq<byte>>)

  datatype SLConfig = SLConfig(predefined: byte, custom: seq<byte>)

  datatype StreamDescriptor = StreamDescriptor(esid: u16, dependsOn: Option<u16>, url: Option<seq<byte>>,
      ocr: Option<u16>,
                                               decoderConfig: Option<DecoderConfig>, slConfig: Option<SLConfig>)

  /** A length in four groups of seven bits; all but the last say that another follows. */
  function Length4(n: nat): (b: seq<byte>)
    ensures |b| == 4
  {
    [n / 0x20_0000 % 0x80 + 0x80, n / 0x4000 % 0x80 + 0x80, n / 0x80 % 0x80 + 0x80, n % 0x80]
  }

  function Descriptor(tag: byte, body: seq<byte>): (b: seq<byte>)
    ensures |b| == 5 + |body|
  {
    [tag] + Length4(|body|) + body
  }

  function ConfigBody(c: DecoderConfig): seq<byte> {
    [c.objectType, c.streamType % 0x40 * 4 + 1] + BE24(ToU24(c.bufferSize)) + BE32(c.maxBitrate) + BE32(c.avgBitrate)
    + (if c.audioSpecific.Some? then Descriptor(TAG_DECODER_SPECIFIC, c.audioSpecific.value) else [])
  }

  function SLBody(c: SLConfig): seq<byte> {
    [c.predefined] + (if c.predefined == 0 then c.custom else [])
  }

  function Flags(s: StreamDescriptor): byte {
    (if s.dependsOn.Some? then 0x80 else 0) + (if s.url.Some? then 0x40 else 0) + (if s.ocr.Some? then 0x20 else 0)
  }

  function StreamHead(s: StreamDescriptor): seq<byte> {
    BE16(s.esid) + [Flags(s)]
    + (if s.dependsOn.Some? then BE16(s.dependsOn.value) else [])
    + (if s.url.Some? then [ToU8(|s.url.value|)] + s.url.value else [])
    + (if s.ocr.Some? then BE16(s.ocr.value) else [])
  }

  function ConfigBytes(s: StreamDescriptor): seq<byte> {
    if s.decoderConfig.Some? then Descriptor(TAG_DECODER_CONFIG, ConfigBody(s.decoderConfig.value)) else []
  }

  function SLBytes(s: StreamDescriptor): seq<byte> {
    if s.slConfig.Some? then Descriptor(TAG_SL_CONFIG, SLBody(s.slConfig.value)) else []
  }

  function StreamBody(s: StreamDescriptor): seq<byte> {
    StreamHead(s) + ConfigBytes(s) + SLBytes(s)
  }

  function StreamBytes(s: StreamDescriptor): seq<byte> {
    Descriptor(TAG_ES, StreamBody(s))
  }

  /** A buffer that only grows, and in which reserved places are filled in later. */
  class Builder {
    var buf: seq<byte>

    constructor ()
      ensures buf == []
    {
      buf := [];
    }

    method Write(d: seq<byte>)
      modifies this
      ensures buf == old(buf) + d
    {
      buf := buf + d;
    }

    /** Reserves n bytes and tells where they are. */
    method Cursor(n: nat) returns (i: nat, j: nat)
      modifies this
      ensures i == |old(buf)| && j == i + n && buf == old(buf) + seq(n, _ => 0)
    {
      i := |buf|;
      buf := buf + seq(n, _ => 0);
      j := |buf|;
    }

    /** Writes a tag and reserves the place of its length. */
    method Begin(tag: byte) returns (i: nat, j: nat)
      modifies this
      ensures i == |old(buf)| + 1 && j == i + 4 && buf == old(buf) + [tag] + seq(4, _ => 0)
    {
      Write([tag]);
      i, j := Cursor(4);
    }

    /** Fills in the length of everything written since its place was reserved. */
    method Done(i: nat, j: nat, ghost before: seq<byte>, ghost tag: byte, ghost body: seq<byte>)
      requires i == |before| + 1 && j == i + 4 && buf == before + [tag] + seq(4, _ => 0) + body
      modifies this
      ensures buf == before + Descriptor(tag, body)
    {
      hide Length4;
      var length := |buf| - j;
      ghost var was := buf;
      Halves(before + [tag], body);
      var k := 3;
      while k >= 0
        invariant -1 <= k <= 3
        invariant buf == before + [tag] + (Length4(length)[..3 - k] + seq(k + 1, _ => 0)) + body
        decreases k
      {
        var v := Group(length, k);
        GroupWritten(before + [tag], length, k, body);
        buf := buf[i + 3 - k := v];
        k := k - 1;
      }
      Filled(before, tag, body);
    }

    static function Group(length: nat, k: nat): byte
      requires k <= 3
    {
      if k == 3 then length / 0x20_0000 % 0x80 + 0x80
      else if k == 2 then length / 0x4000 % 0x80 + 0x80
      else if k == 1 then length / 0x80 % 0x80 + 0x80
      else length % 0x80
    }

    static lemma Halves(front: seq<byte>, body: seq<byte>)
      ensures front + seq(4, _ => 0) + body == front + (Length4(|body|)[..0] + seq(4, _ => 0)) + body
    {
      hide Length4;
    }

    static lemma GroupWritten(front: seq<byte>, length: nat, k: nat, body: seq<byte>)
      requires k <= 3
      ensures var was := front + (Length4(length)[..3 - k] + seq(k + 1, _ => 0)) + body;
        |front| + 3 - k < |was| &&
        was[|front| + 3 - k := Group(length, k)] == front + (Length4(length)[..4 - k] + seq(k, _ => 0)) + body
    {
      LengthAt(length, k);
      hide Length4, Group;
      var l := Length4(length);
      assert l[..4 - k] == l[..3 - k] + [l[3 - k]];
    }

    static lemma LengthAt(length: nat, k: nat)
      requires k <= 3
      ensures Length4(length)[3 - k] == Group(length, k)
    {
    }

    static lemma Filled(before: seq<byte>, tag: byte, body: seq<byte>)
      ensures before + [tag] + (Length4(|body|)[..4] + seq(0, _ => 0)) + body == before + Descriptor(tag, body)
    {
      hide Length4;
      assert Length4(|body|)[..4] + seq(0, _ => 0) == Length4(|body|);
    }
  }

  method AppendConfig(c: DecoderConfig, b: Builder)
    modifies b
    ensures b.buf == old(b.buf) + Descriptor(TAG_DECODER_CONFIG, ConfigBody(c))
  {
    hide Descriptor, BE24, BE32;
    ghost var before := b.buf;
    var i, j := b.Begin(TAG_DECODER_CONFIG);
    ghost var start := b.buf;
    b.Write([c.objectType]);
    b.Write([c.streamType % 0x40 * 4 + 1]);
    b.Write(BE24(ToU24(c.bufferSize)));
    b.Write(BE32(c.maxBitrate));
    b.Write(BE32(c.avgBitrate));
    ghost var fields := b.buf;
    if c.audioSpecific.Some? {
      var k, l := b.Begin(TAG_DECODER_SPECIFIC);
      b.Write(c.audioSpecific.value);
      b.Done(k, l, fields, TAG_DECODER_SPECIFIC, c.audioSpecific.value);
    }
    ConfigParts(start, c);
    b.Done(i, j, before, TAG_DECODER_CONFIG, ConfigBody(c));
  }

  lemma ConfigParts(start: seq<byte>, c: DecoderConfig)
    ensures var fields := start + [c.objectType] + [c.streamType % 0x40 * 4 + 1] + BE24(ToU24(c.bufferSize))
        + BE32(c.maxBitrate) + BE32(c.avgBitrate);
      && (c.audioSpecific.None? ==> start + ConfigBody(c) == fields)
      && (c.audioSpecific.Some? ==> start + ConfigBody(c) == fields + Descriptor(TAG_DECODER_SPECIFIC, c.audioSpecific.value))
  {
    hide Descriptor, BE24, BE32;
  }

  method AppendSL(c: SLConfig, b: Builder)
    modifies b
    ensures b.buf == old(b.buf) + Descriptor(TAG_SL_CONFIG, SLBody(c))
  {
    hide Descriptor;
    ghost var before := b.buf;
    var i, j := b.Begin(TAG_SL_CONFIG);
    ghost var start := b.buf;
    b.Write([c.predefined]);
    if c.predefined == 0 {
      b.Write(c.custom);
    }
    assert start + SLBody(c) == b.buf;
    b.Done(i, j, before, TAG_SL_CONFIG, SLBody(c));
  }

  method AppendHead(s: StreamDescriptor, b: Builder)
    modifies b
    ensures b.buf == old(b.buf) + StreamHead(s)
  {
    hide BE16;
    ghost var start := b.buf;
    b.Write(BE16(s.esid));
    var flags: byte := 0;
    if s.dependsOn.Some? {
      flags := flags + 0x80;
    }
    if s.url.Some? {
      flags := flags + 0x40;
    }
    if s.ocr.Some? {
      flags := flags + 0x20;
    }
    b.Write([flags]);
    ghost var so := start + BE16(s.esid) + [flags];
    assert so + [] == so;
    if s.dependsOn.Some? {
      b.Write(BE16(s.dependsOn.value));
    }
    so := so + (if s.dependsOn.Some? then BE16(s.dependsOn.value) else []);
    assert so + [] == so;
    if s.url.Some? {
      b.Write([ToU8(|s.url.value|)]);
      b.Write(s.url.value);
      assert so + [ToU8(|s.url.value|)] + s.url.value == so + ([ToU8(|s.url.value|)] + s.url.value);
    }
    so := so + (if s.url.Some? then [ToU8(|s.url.value|)] + s.url.value else []);
    assert so + [] == so;
    if s.ocr.Some? {
      b.Write(BE16(s.ocr.value));
    }
    HeadParts(start, s);
  }

  lemma HeadParts(start: seq<byte>, s: StreamDescriptor)
    ensures start + BE16(s.esid) + [Flags(s)]
      + (if s.dependsOn.Some? then BE16(s.dependsOn.value) else [])
      + (if s.url.Some? then [ToU8(|s.url.value|)] + s.url.value else [])
      + (if s.ocr.Some? then BE16(s.ocr.value) else []) == start + StreamHead(s)
  {
    hide BE16, Flags;
  }

  method Marshal(s: StreamDescriptor) returns (bytes: seq<byte>)
    ensures bytes == StreamBytes(s)
  {
    hide Descriptor, StreamHead, ConfigBody, SLBody;
    var b := new Builder();
    var i, j := b.Begin(TAG_ES);
    ghost var start := b.buf;
    AppendHead(s, b);
    ghost var so := start + StreamHead(s);
    NothingAdded(so);
    if s.decoderConfig.Some? {
      AppendConfig(s.decoderConfig.value, b);
    }
    so := so + ConfigBytes(s);
    NothingAdded(so);
    if s.slConfig.Some? {
      AppendSL(s.slConfig.value, b);
    }
    BodyParts(start, s);
    assert [] + [TAG_ES] == [TAG_ES];
    b.Done(i, j, [], TAG_ES, StreamBody(s));
    assert [] + StreamBytes(s) == StreamBytes(s);
    bytes := b.buf;
  }

  lemma BodyParts(start: seq<byte>, s: StreamDescriptor)
    ensures start + StreamHead(s) + ConfigBytes(s) + SLBytes(s) == start + StreamBody(s)
  {
    hide StreamHead, ConfigBytes, SLBytes;
  }

  // Parsing.

  /** A length in up to four groups, and the number of bytes it took. A fourth group ends it in any case. */
  function ReadLength(b: seq<byte>, length: nat, groups: nat): Option<(nat, nat)>
    requires groups <= 4
    decreases 4 - groups
  {
    if groups == 4 then Some((length, 0))
    else if b == [] then None
    else
      var now := length * 0x80 + b[0] % 0x80;
      if b[0] < 0x80 then Some((now, 1))
      else
        match ReadLength(b[1..], now, groups + 1)
        case None => None
        case Some((n, k)) => Some((n, 1 + k))
  }

  datatype Header = Header(tag: byte, contents: seq<byte>, rest: seq<byte>)

  lemma {:induction false} LengthTaken(b: seq<byte>, length: nat, groups: nat)
    requires groups <= 4
    ensures var r := ReadLength(b, length, groups); r.Some? ==> r.value.1 <= |b|
    decreases 4 - groups
  {
    if groups < 4 && b != [] && b[0] >= 0x80 {
      LengthTaken(b[1..], length * 0x80 + b[0] % 0x80, groups + 1);
    }
  }

  /** A descriptor at the front of the bytes. */
  function ReadHeader(b: seq<byte>): (r: Option<Header>)
    ensures r.Some? ==> |r.value.rest| < |b|
  {
    if |b| < 2 then None
    else
      match ReadLength(b[1..], 0, 0)
      case None => None
      case Some((length, k)) =>
        LengthTaken(b[1..], 0, 0);
        if length > |b| - 1 - k then None
        else Some(Header(b[0], b[1 + k..1 + k + length], b[1 + k + length..]))
  }

  method ParseLength(start: seq<byte>) returns (length: nat, d: seq<byte>, ok: bool)
    ensures ok <==> ReadLength(start, 0, 0).Some?
    ensures ok ==> var (n, k) := ReadLength(start, 0, 0).value; k <= |start| && length == n && d == start[k..]
  {
    hide ReadLength;
    length, d := 0, start;
    ghost var taken := 0;
    LengthTaken(start, 0, 0);
    for i := 0 to 4
      invariant taken <= |start| && d == start[taken..]
      invariant ReadLength(start, 0, 0) == After(taken, ReadLength(d, length, i))
    {
      NextGroup(d, length, i);
      if |d| == 0 {
        return length, d, false;
      }
      var v := d[0];
      d := d[1..];
      taken := taken + 1;
      length := length * 0x80 + v % 0x80;
      if v < 0x80 {
        return length, d, true;
      }
    }
    AllGroups(d, length);
    ok := true;
  }

  lemma NextGroup(d: seq<byte>, length: nat, i: nat)
    requires i < 4
    ensures d == [] ==> ReadLength(d, length, i) == None
    ensures d != [] ==> (var now := length * 0x80 + d[0] % 0x80;
      ReadLength(d, length, i) == if d[0] < 0x80 then Some((now, 1)) else After(1, ReadLength(d[1..], now, i + 1)))
  {
  }

  lemma AllGroups(d: seq<byte>, length: nat)
    ensures ReadLength(d, length, 4) == Some((length, 0))
  {
  }

  function After(taken: nat, r: Option<(nat, nat)>): Option<(nat, nat)> {
    if r.None? then None else Some((r.value.0, taken + r.value.1))
  }

  method ParseHeader(start: seq<byte>) returns (h: Option<Header>)
    ensures h == ReadHeader(start)
  {
    hide ReadLength;
    if |start| < 2 {
      return None;
    }
    var length, d, ok := ParseLength(start[1..]);
    if !ok || length > |d| {
      return None;
    }
    ghost var k := ReadLength(start[1..], 0, 0).value.1;
    assert d[..length] == start[1 + k..1 + k + length] && d[length..] == start[1 + k + length..];
    h := Some(Header(start[0], d[..length], d[length..]));
  }

  /** Descriptors inside a decoder configuration; of audio, the last specific part counts. */
  function ReadSpecific(d: seq<byte>, c: DecoderConfig): Option<DecoderConfig>
    decreases |d|
  {
    if d == [] then Some(c)
    else
      match ReadHeader(d)
      case None => None
      case Some(h) =>
        ReadSpecific(h.rest, if h.tag == TAG_DECODER_SPECIFIC && c.objectType
            == OBJECT_AUDIO then c.(audioSpecific := Some(h.contents)) else c)
  }

  function ReadConfig(d: seq<byte>): Option<DecoderConfig> {
    if |d| < 13 then None
    else ReadSpecific(d[13..], DecoderConfig(d[0], d[1] / 4, U24BE(d[2..]), U32BE(d[5..]), U32BE(d[9..]), None))
  }

  function ReadSL(d: seq<byte>): Option<SLConfig> {
    if d == [] then None else Some(SLConfig(d[0], if d[0] == 0 then d[1..] else []))
  }

  function ReadChildren(d: seq<byte>, s: StreamDescriptor): Option<StreamDescriptor>
    decreases |d|
  {
    if d == [] then Some(s)
    else
      match ReadHeader(d)
      case None => None
      case Some(h) =>
        if h.tag == TAG_DECODER_CONFIG then
          var c := ReadConfig(h.contents);
          if c.None? then None else ReadChildren(h.rest, s.(decoderConfig := c))
        else if h.tag == TAG_SL_CONFIG then
          var c := ReadSL(h.contents);
          if c.None? then None else ReadChildren(h.rest, s.(slConfig := c))
        else ReadChildren(h.rest, s)
  }

  /** The optional fields in front, one by one. A field that is cut short cannot be read; neither can a URL of 255
      bytes, for which the end is computed in eight bits. */
  function ReadDepends(d: seq<byte>, flags: byte, s: StreamDescriptor): Option<StreamDescriptor> {
    if flags < 0x80 then ReadUrl(d, flags, s)
    else if |d| < 2 then None
    else ReadUrl(d[2..], flags, s.(dependsOn := Some(U16BE(d))))
  }

  function ReadUrl(d: seq<byte>, flags: byte, s: StreamDescriptor): Option<StreamDescriptor> {
    if flags / 0x40 % 2 == 0 then ReadOcr(d, flags, s)
    else if d == [] then None
    else
      var end := ToU8(1 + d[0] as int) as nat;
      if end < 1 || end > |d| then None
      else ReadOcr(d[end..], flags, s.(url := Some(d[1..end])))
  }

  function ReadOcr(d: seq<byte>, flags: byte, s: StreamDescriptor): Option<StreamDescriptor> {
    if flags / 0x20 % 2 == 0 then ReadChildren(d, s)
    else if |d| < 2 then None
    else ReadChildren(d[2..], s.(ocr := Some(U16BE(d))))
  }

  /** The descriptor at the front of the bytes; what follows it is not handed on. */
  function ReadStream(b: seq<byte>): Option<StreamDescriptor> {
    match ReadHeader(b)
    case None => None
    case Some(h) =>
      if h.tag != TAG_ES || |h.contents| < 3 then None
      else ReadDepends(h.contents[3..], h.contents[2],
          StreamDescriptor(U16BE(h.contents), None, None, None, None, None))
  }

  method ParseDecoderConfig(start: seq<byte>) returns (r: Option<DecoderConfig>)
    ensures r == ReadConfig(start)
  {
    hide ReadHeader, U24BE, U32BE;
    if |start| < 13 {
      return None;
    }
    var conf := DecoderConfig(start[0], start[1] / 4, U24BE(start[2..]), U32BE(start[5..]), U32BE(start[9..]), None);
    var d := start[13..];
    while |d| > 0
      invariant ReadConfig(start) == ReadSpecific(d, conf)
      decreases |d|
    {
      var h := ParseHeader(d);
      if h.None? {
        return None;
      }
      d := h.value.rest;
      if h.value.tag == TAG_DECODER_SPECIFIC && conf.objectType == OBJECT_AUDIO {
        conf := conf.(audioSpecific := Some(h.value.contents));
      }
    }
    r := Some(conf);
  }

  method ParseStreamDescriptor(start: seq<byte>) returns (r: Option<StreamDescriptor>)
    ensures r == ReadStream(start)
  {
    hide ReadHeader, U16BE, ReadConfig, ReadSL, ReadChildren;
    var h := ParseHeader(start);
    if h.None? || h.value.tag != TAG_ES || |h.value.contents| < 3 {
      return None;
    }
    var d := h.value.contents;
    var desc := StreamDescriptor(U16BE(d), None, None, None, None, None);
    var flags := d[2];
    d := d[3..];
    if flags >= 0x80 {
      if |d| < 2 {
        return None;
      }
      desc := desc.(dependsOn := Some(U16BE(d)));
      d := d[2..];
    }
    if flags / 0x40 % 2 == 1 {
      if |d| < 1 {
        return None;
      }
      var end := ToU8(1 + d[0] as int) as nat;
      if end < 1 || end > |d| {
        return None;
      }
      desc := desc.(url := Some(d[1..end]));
      d := d[end..];
    }
    if flags / 0x20 % 2 == 1 {
      if |d| < 2 {
        return None;
      }
      desc := desc.(ocr := Some(U16BE(d)));
      d := d[2..];
    }
    r := ParseChildren(d, desc);
  }

  method ParseChildren(start: seq<byte>, s: StreamDescriptor) returns (r: Option<StreamDescriptor>)
    ensures r == ReadChildren(start, s)
  {
    hide ReadHeader, ReadConfig, ReadSL;
    var d, desc := start, s;
    while |d| > 0
      invariant ReadChildren(start, s) == ReadChildren(d, desc)
      decreases |d|
    {
      var h := ParseHeader(d);
      if h.None? {
        return None;
      }
      d := h.value.rest;
      if h.value.tag == TAG_DECODER_CONFIG {
        var c := ParseDecoderConfig(h.value.contents);
        if c.None? {
          return None;
        }
        desc := desc.(decoderConfig := c);
      } else if h.value.tag == TAG_SL_CONFIG {
        var c := ReadSL(h.value.contents);
        if c.None? {
          return None;
        }
        desc := desc.(slConfig := c);
      }
    }
    r := Some(desc);
  }

  // Round trip.

  /** A back-patched length is read as exactly the length of the contents. */
  lemma LengthReadsBack(n: nat, rest: seq<byte>)
    requires n < MAX_LENGTH
    ensures ReadLength(Length4(n) + rest, 0, 0) == Some((n, 4))
  {
    hide ReadLength;
    var a, b, c, d := n / 0x20_0000 % 0x80, n / 0x4000 % 0x80, n / 0x80 % 0x80, n % 0x80;
    Digits(n);
    var s3 := [d as byte] + rest;
    var s2 := [(0x80 + c) as byte] + s3;
    var s1 := [(0x80 + b) as byte] + s2;
    var s := [(0x80 + a) as byte] + s1;
    assert s == Length4(n) + rest;
    LastGroup(d, rest, (a * 0x80 + b) * 0x80 + c, 3);
    GroupRead(c, s3, a * 0x80 + b, 2);
    GroupRead(b, s2, a, 1);
    GroupRead(a, s1, 0, 0);
  }

  /** A group of seven bits that another one follows. */
  lemma GroupRead(x: nat, rest: seq<byte>, acc: nat, i: nat)
    requires x < 0x80 && i < 3
    ensures var r := ReadLength(rest, acc * 0x80 + x, i + 1);
      ReadLength([(0x80 + x) as byte] + rest, acc, i) == if r.None? then None else Some((r.value.0, r.value.1 + 1))
  {
    assert ([(0x80 + x) as byte] + rest)[1..] == rest;
  }

  lemma LastGroup(x: nat, rest: seq<byte>, acc: nat, i: nat)
    requires x < 0x80 && i < 4
    ensures ReadLength([x as byte] + rest, acc, i) == Some((acc * 0x80 + x, 1))
  {
    assert ([x as byte] + rest)[1..] == rest;
  }

  lemma Digits(n: nat)
    requires n < MAX_LENGTH
    ensures ((n / 0x20_0000 % 0x80 * 0x80 + n / 0x4000 % 0x80) * 0x80 + n / 0x80 % 0x80) * 0x80 + n % 0x80 == n
  {
    assert n / 0x80 / 0x80 == n / 0x4000 && n / 0x4000 / 0x80 == n / 0x20_0000;
  }

  lemma DescriptorReadsBack(tag: byte, body: seq<byte>, rest: seq<byte>)
    requires |body| < MAX_LENGTH
    ensures ReadHeader(Descriptor(tag, body) + rest) == Some(Header(tag, body, rest))
  {
    hide Length4, ReadLength;
    var b := Descriptor(tag, body) + rest;
    assert b[1..] == Length4(|body|) + (body + rest);
    LengthReadsBack(|body|, body + rest);
    assert b[5..5 + |body|] == body && b[5 + |body|..] == rest;
  }

  /** What reading gives for a configuration: a stream type of six bits, a buffer size of 24, and a specific part only
      for audio. */
  function SeenConfig(c: DecoderConfig): DecoderConfig {
    c.(streamType := c.streamType % 0x40, bufferSize := ToU24(c.bufferSize), audioSpecific := if c.objectType == OBJECT_AUDIO then c.audioSpecific
        else None)
  }

  function SeenSL(c: SLConfig): SLConfig {
    if c.predefined == 0 then c else c.(custom := [])
  }

  lemma SpecificReadsBack(c: DecoderConfig, bare: DecoderConfig)
    requires bare == c.(streamType := c.streamType % 0x40, bufferSize := ToU24(c.bufferSize), audioSpecific := None)
    requires c.audioSpecific.Some? ==> |c.audioSpecific.value| < MAX_LENGTH
    ensures ReadSpecific(if c.audioSpecific.Some? then Descriptor(TAG_DECODER_SPECIFIC, c.audioSpecific.value)
        else [], bare) == Some(SeenConfig(c))
  {
    hide ReadHeader, Descriptor;
    if c.audioSpecific.Some? {
      var d := Descriptor(TAG_DECODER_SPECIFIC, c.audioSpecific.value);
      DescriptorReadsBack(TAG_DECODER_SPECIFIC, c.audioSpecific.value, []);
      assert d + [] == d;
    }
  }

  lemma ConfigReadsBack(c: DecoderConfig)
    requires |ConfigBody(c)| < MAX_LENGTH
    ensures ReadConfig(ConfigBody(c)) == Some(SeenConfig(c))
  {
    hide Descriptor, BE24, BE32, U24BE, U32BE, ReadSpecific;
    var s := if c.audioSpecific.Some? then Descriptor(TAG_DECODER_SPECIFIC, c.audioSpecific.value) else [];
    var d := ConfigBody(c);
    assert d[2..] == BE24(ToU24(c.bufferSize)) + (BE32(c.maxBitrate) + (BE32(c.avgBitrate) + s));
    ReadBack24(ToU24(c.bufferSize), BE32(c.maxBitrate) + (BE32(c.avgBitrate) + s));
    assert d[5..] == BE32(c.maxBitrate) + (BE32(c.avgBitrate) + s);
    ReadBack32(c.maxBitrate, BE32(c.avgBitrate) + s);
    assert d[9..] == BE32(c.avgBitrate) + s;
    ReadBack32(c.avgBitrate, s);
    assert d[13..] == s;
    assert (c.streamType % 0x40 * 4 + 1) / 4 == c.streamType % 0x40;
    SpecificReadsBack(c, c.(streamType := c.streamType % 0x40, bufferSize := ToU24(c.bufferSize), audioSpecific := None));
  }

  lemma SLReadsBack(c: SLConfig)
    ensures ReadSL(SLBody(c)) == Some(SeenSL(c))
  {
    if c.predefined == 0 {
      assert SLBody(c)[1..] == c.custom;
    }
  }

  function WithChildren(s: StreamDescriptor, t: StreamDescriptor): StreamDescriptor {
    s.(decoderConfig := if t.decoderConfig.Some? then Some(SeenConfig(t.decoderConfig.value)) else None,
       slConfig := if t.slConfig.Some? then Some(SeenSL(t.slConfig.value)) else None)
  }

  lemma ChildrenReadBack(s: StreamDescriptor, t: StreamDescriptor)
    requires s.decoderConfig == None && s.slConfig == None && |StreamBody(t)| < MAX_LENGTH
    ensures ReadChildren(ConfigBytes(t) + SLBytes(t), s) == Some(WithChildren(s, t))
  {
    hide ReadHeader, Descriptor, ReadConfig, ReadSL, ConfigBody, SLBody, StreamHead, SeenConfig, SeenSL;
    var s1 := s.(decoderConfig := if t.decoderConfig.Some? then Some(SeenConfig(t.decoderConfig.value)) else None);
    SLChild(s1, t);
    if t.decoderConfig.Some? {
      ConfigReadsBack(t.decoderConfig.value);
      DescriptorReadsBack(TAG_DECODER_CONFIG, ConfigBody(t.decoderConfig.value), SLBytes(t));
    } else {
      assert [] + SLBytes(t) == SLBytes(t);
    }
  }

  lemma SLChild(s: StreamDescriptor, t: StreamDescriptor)
    requires s.slConfig == None && |SLBytes(t)| < MAX_LENGTH
    ensures ReadChildren(SLBytes(t), s) == Some(s.(slConfig := if t.slConfig.Some?
        then Some(SeenSL(t.slConfig.value)) else None))
  {
    hide ReadHeader, Descriptor, ReadSL, SLBody, SeenSL, ReadConfig;
    if t.slConfig.Some? {
      var body := SLBody(t.slConfig.value);
      SLReadsBack(t.slConfig.value);
      DescriptorReadsBack(TAG_SL_CONFIG, body, []);
      assert Descriptor(TAG_SL_CONFIG, body) + [] == Descriptor(TAG_SL_CONFIG, body);
    }
  }

  lemma FlagBits(a: bool, b: bool, c: bool)
    ensures var f := (if a then 0x80 else 0) + (if b then 0x40 else 0) + (if c then 0x20 else 0);
      (f >= 0x80 <==> a) && (f / 0x40 % 2 == 1 <==> b) && (f / 0x20 % 2 == 1 <==> c)
  {
  }

  function Bare(s: StreamDescriptor): StreamDescriptor { s.(decoderConfig := None, slConfig := None) }

  lemma OcrReadsBack(s: StreamDescriptor, t: StreamDescriptor, rest: seq<byte>)
    requires s.ocr == None
    ensures ReadOcr((if t.ocr.Some? then BE16(t.ocr.value) else []) + rest, Flags(t), s)
        == ReadChildren(rest, s.(ocr := t.ocr))
  {
    hide BE16, U16BE, ReadChildren;
    FlagBits(t.dependsOn.Some?, t.url.Some?, t.ocr.Some?);
    if t.ocr.Some? {
      ReadBack16(t.ocr.value, rest);
      assert (BE16(t.ocr.value) + rest)[2..] == rest;
    } else {
      assert [] + rest == rest;
    }
  }

  /** A URL is read back exactly if it is shorter than 255 bytes. */
  lemma UrlReadsBack(s: StreamDescriptor, t: StreamDescriptor, rest: seq<byte>)
    requires s.url == None
    ensures t.url.None? || |t.url.value| < 255 ==>
      ReadUrl((if t.url.Some? then [ToU8(|t.url.value|)] + t.url.value else []) + rest, Flags(t), s)
          == ReadOcr(rest, Flags(t), s.(url := t.url))
    ensures t.url.Some? && |t.url.value| >= 255 ==>
      var r := ReadUrl([ToU8(|t.url.value|)] + t.url.value + rest, Flags(t), s); r.Some? ==> r.value.url != t.url
  {
    hide ReadOcr;
    FlagBits(t.dependsOn.Some?, t.url.Some?, t.ocr.Some?);
    if t.url.Some? {
      var u := t.url.value;
      var d := [ToU8(|u|)] + u + rest;
      if |u| < 255 {
        assert d[1..1 + |u|] == u && d[1 + |u|..] == rest;
      } else {
        var end := ToU8(1 + d[0] as int) as nat;
        if 1 <= end <= |d| {
          UrlKept(d[end..], Flags(t), s.(url := Some(d[1..end])));
        }
      }
    } else {
      assert [] + rest == rest;
    }
  }

  lemma UrlKept(d: seq<byte>, flags: byte, s: StreamDescriptor)
    ensures var r := ReadOcr(d, flags, s); r.Some? ==> r.value.url == s.url
  {
    hide ReadChildren;
    if flags / 0x20 % 2 == 0 {
      ChildrenKeep(d, s);
    } else if |d| >= 2 {
      ChildrenKeep(d[2..], s.(ocr := Some(U16BE(d))));
    }
  }

  lemma {:induction false} ChildrenKeep(d: seq<byte>, s: StreamDescriptor)
    ensures var r := ReadChildren(d, s); r.Some? ==> Bare(r.value) == Bare(s)
    decreases |d|
  {
    hide ReadHeader, ReadConfig, ReadSL;
    if d != [] && ReadHeader(d).Some? {
      var h := ReadHeader(d).value;
      if h.tag == TAG_DECODER_CONFIG {
        if ReadConfig(h.contents).Some? {
          ChildrenKeep(h.rest, s.(decoderConfig := ReadConfig(h.contents)));
        }
      } else if h.tag == TAG_SL_CONFIG {
        if ReadSL(h.contents).Some? {
          ChildrenKeep(h.rest, s.(slConfig := ReadSL(h.contents)));
        }
      } else {
        ChildrenKeep(h.rest, s);
      }
    }
  }

  lemma DependsReadsBack(s: StreamDescriptor, t: StreamDescriptor, rest: seq<byte>)
    requires s.dependsOn == None
    ensures ReadDepends((if t.dependsOn.Some? then BE16(t.dependsOn.value) else []) + rest, Flags(t), s)
        == ReadUrl(rest, Flags(t), s.(dependsOn := t.dependsOn))
  {
    hide BE16, U16BE, ReadUrl;
    FlagBits(t.dependsOn.Some?, t.url.Some?, t.ocr.Some?);
    if t.dependsOn.Some? {
      ReadBack16(t.dependsOn.value, rest);
      assert (BE16(t.dependsOn.value) + rest)[2..] == rest;
    } else {
      assert [] + rest == rest;
    }
  }

  /** Descriptors that say nothing their form cannot hold. */
  predicate Plain(s: StreamDescriptor) {
    && (s.url.Some? ==> |s.url.value| < 255)
    && (s.decoderConfig.Some? ==> var c := s.decoderConfig.value;
          c.streamType < 0x40 && c.bufferSize < 0x100_0000 && (c.audioSpecific.Some? ==> c.objectType == OBJECT_AUDIO))
    && (s.slConfig.Some? ==> s.slConfig.value.predefined == 0 || s.slConfig.value.custom == [])
  }

  /** A descriptor with contents below 2^28 bytes is parsed as it was, whatever follows it, exactly if its URL is
      shorter than 255 bytes, its stream type fits six bits and its buffer size 24, a specific part belongs to audio and
      custom settings to the custom kind. */
  lemma StreamReadsBackIff(s: StreamDescriptor, rest: seq<byte>)
    requires |StreamBody(s)| < MAX_LENGTH
    ensures ReadStream(StreamBytes(s) + rest) == Some(s) <==> Plain(s)
  {
    hide ReadHeader, Descriptor, BE16, U16BE, ReadDepends, ReadUrl, ReadOcr, ReadChildren, ConfigBytes, SLBytes, SeenConfig, SeenSL, Flags;
    var body := StreamBody(s);
    DescriptorReadsBack(TAG_ES, body, rest);
    var p := if s.dependsOn.Some? then BE16(s.dependsOn.value) else [];
    var u := if s.url.Some? then [ToU8(|s.url.value|)] + s.url.value else [];
    var o := if s.ocr.Some? then BE16(s.ocr.value) else [];
    var tail := ConfigBytes(s) + SLBytes(s);
    FrontReads(s, p, u, o);
    var s0 := StreamDescriptor(s.esid, None, None, None, None, None);
    DependsReadsBack(s0, s, u + (o + tail));
    var s1 := s0.(dependsOn := s.dependsOn);
    UrlReadsBack(s1, s, o + tail);
    var s2 := s1.(url := s.url);
    OcrReadsBack(s2, s, tail);
    ChildrenReadBack(s2.(ocr := s.ocr), s);
    PlainIff(s);
  }

  lemma Pieces(e: seq<byte>, f: byte, p: seq<byte>, u: seq<byte>, o: seq<byte>, c: seq<byte>, l: seq<byte>)
    requires |e| == 2
    ensures var b := e + [f] + p + u + o + c + l;
      |b| >= 3 && b == e + ([f] + (p + (u + (o + (c + l))))) && b[2] == f && b[3..] == p + (u + (o + (c + l)))
  {
  }

  lemma FrontReads(s: StreamDescriptor, p: seq<byte>, u: seq<byte>, o: seq<byte>)
    requires p == if s.dependsOn.Some? then BE16(s.dependsOn.value) else []
    requires u == if s.url.Some? then [ToU8(|s.url.value|)] + s.url.value else []
    requires o == if s.ocr.Some? then BE16(s.ocr.value) else []
    ensures var body := StreamBody(s);
      |body| >= 3 && U16BE(body) == s.esid && body[2] == Flags(s) && body[3..]
          == p + (u + (o + (ConfigBytes(s) + SLBytes(s))))
  {
    hide BE16, U16BE, ConfigBytes, SLBytes, Flags;
    var t := ConfigBytes(s) + SLBytes(s);
    Pieces(BE16(s.esid), Flags(s), p, u, o, ConfigBytes(s), SLBytes(s));
    ReadBack16(s.esid, [Flags(s)] + (p + (u + (o + t))));
  }

  lemma PlainIff(s: StreamDescriptor)
    ensures WithChildren(Bare(s), s) == s && (s.url.Some? ==> |s.url.value| < 255) <==> Plain(s)
  {
  }
}
