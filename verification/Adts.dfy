/** AAC frame headers of audio data transport streams (codec/aacparser). */
module Adts {
  import opened Bytes
  import opened Buffers

  datatype Config = Config(objectType: nat, rateIndex: nat, channels: nat)

  datatype Frame = Frame(config: Config, hdrlen: nat, framelen: nat, samples: nat)

  /** Sampling rates by their index in the header. */
  const RATES: seq<nat> := [96000, 88200, 64000, 48000, 44100, 32000, 24000, 22050, 16000, 12000, 11025, 8000, 7350]

  /** The last byte keeps its template's bits and gets those of the number of raw blocks less one. */
  function Blocks(samples: nat): byte {
    var v := ToU8(samples / 1024 - 1);
    0xcc + v / 0x10 % 4 * 0x10 + v % 4
  }

  function Layout(config: Config, samples: nat, payloadLength: nat): (b: seq<byte>)
    ensures |b| == 7
  {
    var p := payloadLength + 7;
    [0xff, 0xf1,
     (config.objectType + 3) % 4 * 0x40 + config.rateIndex % 16 * 4 + config.channels / 4 % 2,
     config.channels % 4 * 0x40 + p / 0x800 % 4,
     p / 8 % 0x100,
     p % 8 * 0x20 + 0x1f,
     Blocks(samples)]
  }

  /** Writes the header of one frame, from a template whose bits are then replaced field by field. */
  method FillADTSHeader(header: array<byte>, config: Config, samples: nat, payloadLength: nat)
    requires header.Length == 7
    modifies header
    ensures header[..] == Layout(config, samples, payloadLength)
  {
    var p := payloadLength + 7;
    hide Layout;
    header[0] := 0xff;
    header[1] := 0xf1;
    header[2] := 0x50;
    header[3] := 0x80;
    header[4] := 0x43;
    header[5] := 0xff;
    header[6] := 0xcd;
    header[2] := (config.objectType + 3) % 4 * 0x40 + config.rateIndex % 16 * 4 + config.channels / 4 % 2;
    header[3] := header[3] % 0x40 + config.channels % 4 * 0x40;
    header[3] := header[3] / 4 * 4 + p / 0x800 % 4;
    header[4] := p / 8 % 0x100;
    header[5] := header[5] % 0x20 + p % 8 * 0x20;
    var v := ToU8(samples / 1024 - 1);
    header[6] := header[6] / 4 * 4 + v / 0x10 % 4 * 0x10 + v % 4;
    KeptBits(config.channels % 4, p);
    LayoutIs(config, samples, payloadLength);
    assert header[..] == [header[0], header[1], header[2], header[3], header[4], header[5], header[6]];
  }

  /** Of the third byte's template nothing is kept but what the fields put there. */
  lemma KeptBits(channels: nat, p: nat)
    requires channels < 4
    ensures (0x80 % 0x40 + channels * 0x40) / 4 * 4 == channels * 0x40 && 0xff % 0x20 == 0x1f && 0xcd / 4 * 4 == 0xcc
  {
  }

  lemma LayoutIs(config: Config, samples: nat, payloadLength: nat)
    ensures var p, v := payloadLength + 7, ToU8(samples / 1024 - 1);
      Layout(config, samples, payloadLength) ==
      [0xff, 0xf1, (config.objectType + 3) % 4 * 0x40 + config.rateIndex % 16 * 4 + config.channels / 4 % 2,
       config.channels % 4 * 0x40 + p / 0x800 % 4, p / 8 % 0x100, 0x1f + p % 8 * 0x20,
       0xcc + v / 0x10 % 4 * 0x10 + v % 4]
  {
  }

  /** The frame at the front of the data; too little data counts as no frame. */
  function Parse(frame: seq<byte>): Option<Frame> {
    if |frame| < 7 || frame[0] != 0xff || frame[1] / 0x10 != 0xf || frame[1] / 2 % 4 != 0 then None
    else
      var config := Config(frame[2] / 0x40 + 1, frame[2] / 4 % 16, frame[2] % 2 * 4 + frame[3] / 0x40);
      var hdrlen := if frame[1] % 2 == 0 then 9 else 7;
      var framelen := frame[3] as int % 4 * 0x800 + frame[4] as int * 8 + frame[5] as int / 0x20;
      if config.channels == 0 || framelen < hdrlen then None
      else Some(Frame(config, hdrlen, framelen, (frame[6] as int % 4 + 1) * 1024))
  }

  /** The samples a header tells of: one to four raw blocks. */
  function SamplesTold(samples: nat): nat { (samples / 1024 + 3) % 4 * 1024 + 1024 }

  lemma BlocksTold(samples: nat)
    ensures (Blocks(samples) as int % 4 + 1) * 1024 == SamplesTold(samples)
    ensures SamplesTold(samples) == samples <==> samples % 1024 == 0 && 1 <= samples / 1024 <= 4
  {
    var n := samples / 1024;
    BlocksCut(n);
    LowBlocks(ToU8(n - 1));
    assert samples == n * 1024 + samples % 1024;
  }

  lemma BlocksCut(n: nat)
    ensures ToU8(n - 1) % 4 == (n + 3) % 4
    ensures (n + 3) % 4 + 1 == n <==> 1 <= n <= 4
  {
    LowTwo(n - 1);
  }

  lemma LowTwo(x: int)
    ensures x % 0x100 % 4 == x % 4 == (x + 4) % 4
  {
    var q, r := x / 0x100, x % 0x100;
    assert x == (q * 0x40 + r / 4) * 4 + r % 4;
  }

  lemma LowBlocks(v: byte)
    ensures (0xcc + v / 0x10 % 4 * 0x10 + v % 4) % 4 == v % 4
  {
  }

  /** The length field has 13 bits: a frame reads back with its own length exactly when header and payload are
      shorter than 8192 bytes and the channel count is not lost. */
  lemma FrameReadsBackIff(config: Config, samples: nat, payload: seq<byte>, rest: seq<byte>)
    ensures var f := Parse(Layout(config, samples, |payload|) + payload + rest);
      (f.Some? && f.value.framelen == 7 + |payload|) <==> |payload| + 7 < 0x2000 && config.channels % 8 != 0
    ensures var f := Parse(Layout(config, samples, |payload|) + payload + rest);
      f.Some? ==> f.value == Frame(Config((config.objectType + 3) % 4 + 1, config.rateIndex % 16, config.channels % 8),
                                   7, (|payload| + 7) % 0x2000, SamplesTold(samples))
  {
    hide Parse, Layout, SamplesTold;
    var h := Layout(config, samples, |payload|);
    assert h + payload + rest == h + (payload + rest);
    ParsePrefix(h, payload + rest);
    HeaderReadsBack(config, samples, |payload|);
    if |payload| + 7 >= 0x2000 {
      assert (|payload| + 7) % 0x2000 < 0x2000;
    }
  }

  lemma ParsePrefix(h: seq<byte>, rest: seq<byte>)
    requires |h| == 7
    ensures Parse(h + rest) == Parse(h)
  {
  }

  lemma HeaderReadsBack(config: Config, samples: nat, n: nat)
    ensures Parse(Layout(config, samples, n)) ==
      if config.channels % 8 == 0 || (n + 7) % 0x2000 < 7 then None
      else Some(Frame(Config((config.objectType + 3) % 4 + 1, config.rateIndex % 16, config.channels % 8),
                      7, (n + 7) % 0x2000, SamplesTold(samples)))
  {
    hide Parse, Blocks, SamplesTold;
    var p := n + 7;
    BlocksTold(samples);
    LengthBits(p);
    ChannelBits(config.channels);
    FieldBits((config.objectType + 3) % 4, config.rateIndex % 16, config.channels / 4 % 2);
    TwoFields(config.channels % 4, p / 0x800 % 4);
    Fields(Layout(config, samples, n), samples, config.objectType, config.rateIndex, config.channels, p);
  }

  lemma TwoFields(a: nat, b: nat)
    requires a < 4 && b < 4
    ensures var x := a * 0x40 + b; x / 0x40 == a && x % 4 == b
  {
  }

  lemma Fields(h: seq<byte>, samples: nat, t: nat, r: nat, c: nat, p: nat)
    requires |h| == 7 && h[0] == 0xff && h[1] == 0xf1 && (h[6] as int % 4 + 1) * 1024 == SamplesTold(samples)
    requires h[2] / 0x40 == (t + 3) % 4 && h[2] / 4 % 16 == r % 16 && h[2] % 2 == c / 4 % 2
    requires h[3] / 0x40 == c % 4 && h[3] % 4 == p / 0x800 % 4 && h[4] == p / 8 % 0x100 && h[5] / 0x20 == p % 8
    requires c / 4 % 2 * 4 + c % 4 == c % 8
    requires p / 0x800 % 4 * 0x800 + p / 8 % 0x100 * 8 + p % 8 == p % 0x2000
    ensures Parse(h) ==
      if c % 8 == 0 || p % 0x2000 < 7 then None
      else Some(Frame(Config((t + 3) % 4 + 1, r % 16, c % 8), 7, p % 0x2000, SamplesTold(samples)))
  {
    hide SamplesTold;
  }

  lemma LengthBits(p: nat)
    ensures p / 0x800 % 4 * 0x800 + p / 8 % 0x100 * 8 + p % 8 == p % 0x2000
  {
    assert p / 8 / 0x100 == p / 0x800;
    assert p / 0x800 / 4 == p / 0x2000;
    assert p == p / 8 * 8 + p % 8 && p / 8 == p / 0x800 * 0x100 + p / 8 % 0x100;
    assert p / 0x800 == p / 0x2000 * 4 + p / 0x800 % 4;
  }

  lemma ChannelBits(c: nat)
    ensures c / 4 % 2 * 4 + c % 4 == c % 8
  {
    assert c / 4 / 2 == c / 8;
    assert c == c / 4 * 4 + c % 4 && c / 4 == c / 8 * 2 + c / 4 % 2;
  }

  lemma FieldBits(a: nat, b: nat, c: nat)
    requires a < 4 && b < 16 && c < 2
    ensures var x := a * 0x40 + b * 4 + c;
      x / 0x40 == a && x / 4 % 16 == b && x % 2 == c
  {
    assert (a * 0x40 + b * 4 + c) / 4 == a * 16 + b;
  }
}
