/** The boxes of a movie fragment (format/fmp4/fmp4io/fragment.go, sections 8.8.4 to 8.8.12 of ISO/IEC 14496-12):
    their bytes, writing them into a buffer, and what reading them gives back. */
module Fmp4Boxes {
  import opened Bytes
  import opened Buffers

  type i32 = x: int | -0x8000_0000 <= x < 0x8000_0000

  const MDAT: u32 := 0x6d646174
  const MOOF: u32 := 0x6d6f6f66
  const MFHD: u32 := 0x6d666864
  const TRAF: u32 := 0x74726166
  const TFHD: u32 := 0x74666864
  const TFDT: u32 := 0x74666474
  const TRUN: u32 := 0x7472756e

  /** Flags of samples on which others depend, and of those that depend on others. */
  const NO_DEPENDENCIES: u32 := 0x0200_0000
  const NON_KEYFRAME: u32 := 0x0101_0000

  const DATA_OFFSET := 0x01
  const FIRST_SAMPLE_FLAGS := 0x04
  const SAMPLE_DURATION := 0x100
  const SAMPLE_SIZE := 0x200
  const SAMPLE_FLAGS := 0x400
  const SAMPLE_CTS := 0x800

  const BASE_DATA_OFFSET := 0x01
  const STSD_ID := 0x02
  const DEFAULT_DURATION := 0x08
  const DEFAULT_SIZE := 0x10
  const DEFAULT_FLAGS := 0x20
  const DEFAULT_BASE_IS_MOOF := 0x020000

  datatype Mfhd = Mfhd(version: byte, flags: u24, seqnum: u32)

  datatype Tfhd = Tfhd(version: byte, flags: u24, trackId: u32, baseDataOffset: u64, stsdId: u32,
                       defaultDuration: u32, defaultSize: u32, defaultFlags: u32)

  datatype Tfdt = Tfdt(version: byte, flags: u24, time: u64)

  datatype Entry = Entry(duration: u32, size: u32, flags: u32, cts: i32)

  datatype Trun = Trun(version: byte, flags: u24, dataOffset: u32, firstSampleFlags: u32, entries: seq<Entry>)

  datatype Traf = Traf(header: Option<Tfhd>, decodeTime: Option<Tfdt>, run: Option<Trun>)

  datatype Moof = Moof(header: Option<Mfhd>, tracks: seq<Traf>)

  /** A flag, given as a power of two. */
  predicate Has(flags: u24, bit: nat)
    requires bit > 0
  {
    flags / bit % 2 == 1
  }

  /** A box: its size, its tag and its body. */
  function Box(tag: u32, body: seq<byte>): (b: seq<byte>)
    ensures |b| == 8 + |body|
  {
    BE32(ToU32(8 + |body|)) + BE32(tag) + body
  }

  function Opt4(present: bool, v: u32): (b: seq<byte>)
    ensures |b| == if present then 4 else 0
  {
    if present then BE32(v) else []
  }

  function Opt8(present: bool, v: u64): (b: seq<byte>)
    ensures |b| == if present then 8 else 0
  {
    if present then BE64(v) else []
  }

  /** Version and flags. */
  function Full(version: byte, flags: u24): (b: seq<byte>)
    ensures |b| == 4
  {
    [version] + BE24(flags)
  }

  function MfhdBytes(a: Mfhd): seq<byte> { Box(MFHD, Full(a.version, a.flags) + BE32(a.seqnum)) }

  function TfhdBody(a: Tfhd): seq<byte> {
    Full(a.version, a.flags) + BE32(a.trackId)
    + Opt8(Has(a.flags, BASE_DATA_OFFSET), a.baseDataOffset)
    + Opt4(Has(a.flags, STSD_ID), a.stsdId)
    + Opt4(Has(a.flags, DEFAULT_DURATION), a.defaultDuration)
    + Opt4(Has(a.flags, DEFAULT_SIZE), a.defaultSize)
    + Opt4(Has(a.flags, DEFAULT_FLAGS), a.defaultFlags)
  }

  function TfhdBytes(a: Tfhd): seq<byte> { Box(TFHD, TfhdBody(a)) }

  function TfdtBody(a: Tfdt): seq<byte> {
    Full(a.version, a.flags) + (if a.version != 0 then BE64(a.time) else BE32(ToU32(a.time)))
  }

  function TfdtBytes(a: Tfdt): seq<byte> { Box(TFDT, TfdtBody(a)) }

  /** Composition times of other versions than 0 do not reach their place, which stays zero. */
  function CtsSlot(a: Trun, e: Entry): (b: seq<byte>)
    ensures |b| == if Has(a.flags, SAMPLE_CTS) then 4 else 0
  {
    if !Has(a.flags, SAMPLE_CTS) then [] else if a.version > 0 then [0, 0, 0, 0] else BE32(ToU32(e.cts))
  }

  function EntryBytes(a: Trun, e: Entry): seq<byte> {
    Opt4(Has(a.flags, SAMPLE_DURATION), e.duration)
    + Opt4(Has(a.flags, SAMPLE_SIZE), e.size)
    + Opt4(Has(a.flags, SAMPLE_FLAGS), e.flags)
    + CtsSlot(a, e)
  }

  function EntriesBytes(a: Trun, es: seq<Entry>): seq<byte> {
    if es == [] then [] else EntryBytes(a, es[0]) + EntriesBytes(a, es[1..])
  }

  function RunHead(a: Trun): seq<byte> {
    BE32(ToU32(|a.entries|))
    + Opt4(Has(a.flags, DATA_OFFSET), a.dataOffset)
    + Opt4(Has(a.flags, FIRST_SAMPLE_FLAGS), a.firstSampleFlags)
  }

  /** They are written over version and flags instead, so the last one is found there. */
  function RunStart(a: Trun, es: seq<Entry>): (b: seq<byte>)
    ensures |b| == 4
  {
    if a.version > 0 && Has(a.flags, SAMPLE_CTS) && es != [] then BE32(ToU32(es[|es| - 1].cts))
    else Full(a.version, a.flags)
  }

  function TrunBody(a: Trun): seq<byte> {
    RunStart(a, a.entries) + RunHead(a) + EntriesBytes(a, a.entries)
  }

  function TrunBytes(a: Trun): seq<byte> { Box(TRUN, TrunBody(a)) }

  function TrafBody(a: Traf): seq<byte> {
    (if a.header.Some? then TfhdBytes(a.header.value) else [])
    + (if a.decodeTime.Some? then TfdtBytes(a.decodeTime.value) else [])
    + (if a.run.Some? then TrunBytes(a.run.value) else [])
  }

  function TrafBytes(a: Traf): seq<byte> { Box(TRAF, TrafBody(a)) }

  function TrafsBytes(ts: seq<Traf>): seq<byte> {
    if ts == [] then [] else TrafBytes(ts[0]) + TrafsBytes(ts[1..])
  }

  function MoofBody(a: Moof): seq<byte> {
    (if a.header.Some? then MfhdBytes(a.header.value) else []) + TrafsBytes(a.tracks)
  }

  function MoofBytes(a: Moof): seq<byte> { Box(MOOF, MoofBody(a)) }

  // Lengths, counted field by field before anything is written.

  method TfhdLen(a: Tfhd) returns (n: nat)
    ensures n == |TfhdBytes(a)|
  {
    hide Has;
    n := 8;
    n := n + 1;
    n := n + 3;
    n := n + 4;
    if Has(a.flags, BASE_DATA_OFFSET) {
      n := n + 8;
    }
    if Has(a.flags, STSD_ID) {
      n := n + 4;
    }
    if Has(a.flags, DEFAULT_DURATION) {
      n := n + 4;
    }
    if Has(a.flags, DEFAULT_SIZE) {
      n := n + 4;
    }
    if Has(a.flags, DEFAULT_FLAGS) {
      n := n + 4;
    }
  }

  method TfdtLen(a: Tfdt) returns (n: nat)
    ensures n == |TfdtBytes(a)|
  {
    n := 8 + 1 + 3 + (if a.version != 0 then 8 else 4);
  }

  lemma EntriesNext(a: Trun, es: seq<Entry>, i: nat)
    requires i <= |es|
    ensures i == 0 ==> EntriesBytes(a, es[..0]) == []
    ensures i < |es| ==> EntriesBytes(a, es[..i + 1]) == EntriesBytes(a, es[..i]) + EntryBytes(a, es[i])
    ensures |EntriesBytes(a, es[..i])| <= |EntriesBytes(a, es)|
  {
    hide EntryBytes;
    if i < |es| {
      assert es[..i + 1] == es[..i] + [es[i]];
      EntriesAppend(a, es[..i], [es[i]]);
      assert EntriesBytes(a, [es[i]]) == EntryBytes(a, es[i]) + EntriesBytes(a, []);
    }
    assert es == es[..i] + es[i..];
    EntriesAppend(a, es[..i], es[i..]);
  }

  lemma {:induction false} EntriesAppend(a: Trun, x: seq<Entry>, y: seq<Entry>)
    ensures EntriesBytes(a, x + y) == EntriesBytes(a, x) + EntriesBytes(a, y)
  {
    hide EntryBytes;
    if x == [] {
      assert x + y == y;
    } else {
      assert (x + y)[1..] == x[1..] + y;
      EntriesAppend(a, x[1..], y);
    }
  }

  method TrunLen(a: Trun) returns (n: nat)
    ensures n == |TrunBytes(a)|
  {
    hide Has, EntriesBytes;
    n := 8;
    n := n + 1;
    n := n + 3;
    n := n + 4;
    if Has(a.flags, DATA_OFFSET) {
      n := n + 4;
    }
    if Has(a.flags, FIRST_SAMPLE_FLAGS) {
      n := n + 4;
    }
    var base := n;
    EntriesNext(a, a.entries, 0);
    for i := 0 to |a.entries|
      invariant n == base + |EntriesBytes(a, a.entries[..i])|
    {
      EntriesNext(a, a.entries, i);
      if Has(a.flags, SAMPLE_DURATION) {
        n := n + 4;
      }
      if Has(a.flags, SAMPLE_SIZE) {
        n := n + 4;
      }
      if Has(a.flags, SAMPLE_FLAGS) {
        n := n + 4;
      }
      if Has(a.flags, SAMPLE_CTS) {
        n := n + 4;
      }
    }
    assert a.entries[..|a.entries|] == a.entries;
  }

  method TrafLen(a: Traf) returns (n: nat)
    ensures n == |TrafBytes(a)|
  {
    hide TfhdBytes, TfdtBytes, TrunBytes;
    n := 8;
    if a.header.Some? {
      var m := TfhdLen(a.header.value);
      n := n + m;
    }
    if a.decodeTime.Some? {
      var m := TfdtLen(a.decodeTime.value);
      n := n + m;
    }
    if a.run.Some? {
      var m := TrunLen(a.run.value);
      n := n + m;
    }
  }

  lemma TrafsNext(ts: seq<Traf>, i: nat)
    requires i <= |ts|
    ensures i == 0 ==> TrafsBytes(ts[..0]) == []
    ensures i < |ts| ==> TrafsBytes(ts[..i + 1]) == TrafsBytes(ts[..i]) + TrafBytes(ts[i])
    ensures |TrafsBytes(ts[..i])| <= |TrafsBytes(ts)|
  {
    hide TrafBytes;
    if i < |ts| {
      assert ts[..i + 1] == ts[..i] + [ts[i]];
      TrafsAppend(ts[..i], [ts[i]]);
      assert TrafsBytes([ts[i]]) == TrafBytes(ts[i]) + TrafsBytes([]);
    }
    assert ts == ts[..i] + ts[i..];
    TrafsAppend(ts[..i], ts[i..]);
  }

  lemma {:induction false} TrafsAppend(x: seq<Traf>, y: seq<Traf>)
    ensures TrafsBytes(x + y) == TrafsBytes(x) + TrafsBytes(y)
  {
    hide TrafBytes;
    if x == [] {
      assert x + y == y;
    } else {
      assert (x + y)[1..] == x[1..] + y;
      TrafsAppend(x[1..], y);
    }
  }

  method MoofLen(a: Moof) returns (n: nat)
    ensures n == |MoofBytes(a)|
  {
    hide TrafBytes, TrafsBytes;
    n := 8;
    if a.header.Some? {
      n := n + 16;
    }
    var base := n;
    TrafsNext(a.tracks, 0);
    for i := 0 to |a.tracks|
      invariant n == base + |TrafsBytes(a.tracks[..i])|
    {
      TrafsNext(a.tracks, i);
      var m := TrafLen(a.tracks[i]);
      n := n + m;
    }
    assert a.tracks[..|a.tracks|] == a.tracks;
  }
}
