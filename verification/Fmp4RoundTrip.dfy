/** Which movie fragments are read back as they were written. */
module Fmp4RoundTrip {
  import opened Bytes
  import opened Fmp4Boxes
  import opened Fmp4Reading

  /** What a box says of a value: fields without their flag are absent and read as zero. */
  function SeenTfhd(a: Tfhd): Tfhd {
    Tfhd(a.version, a.flags, a.trackId,
         if Has(a.flags, BASE_DATA_OFFSET) then a.baseDataOffset else 0,
         if Has(a.flags, STSD_ID) then a.stsdId else 0,
         if Has(a.flags, DEFAULT_DURATION) then a.defaultDuration else 0,
         if Has(a.flags, DEFAULT_SIZE) then a.defaultSize else 0,
         if Has(a.flags, DEFAULT_FLAGS) then a.defaultFlags else 0)
  }

  function SeenTfdt(a: Tfdt): Tfdt {
    if a.version == 0 then a.(time := ToU32(a.time)) else a
  }

  function SeenEntry(flags: u24, e: Entry): Entry {
    Entry(if Has(flags, SAMPLE_DURATION) then e.duration else 0,
          if Has(flags, SAMPLE_SIZE) then e.size else 0,
          if Has(flags, SAMPLE_FLAGS) then e.flags else 0,
          if Has(flags, SAMPLE_CTS) then e.cts else 0)
  }

  function SeenEntries(flags: u24, es: seq<Entry>): (r: seq<Entry>)
    ensures |r| == |es|
  {
    if es == [] then [] else [SeenEntry(flags, es[0])] + SeenEntries(flags, es[1..])
  }

  function SeenTrun(a: Trun): Trun {
    Trun(a.version, a.flags,
         if Has(a.flags, DATA_OFFSET) then a.dataOffset else 0,
         if Has(a.flags, FIRST_SAMPLE_FLAGS) then a.firstSampleFlags else 0,
         SeenEntries(a.flags, a.entries))
  }

  function SeenTraf(a: Traf): Traf {
    Traf(if a.header.Some? then Some(SeenTfhd(a.header.value)) else None,
         if a.decodeTime.Some? then Some(SeenTfdt(a.decodeTime.value)) else None,
         if a.run.Some? then Some(SeenTrun(a.run.value)) else None)
  }

  function SeenTrafs(ts: seq<Traf>): (r: seq<Traf>)
    ensures |r| == |ts|
  {
    if ts == [] then [] else [SeenTraf(ts[0])] + SeenTrafs(ts[1..])
  }

  function SeenMoof(a: Moof): Moof { Moof(a.header, SeenTrafs(a.tracks)) }

  /** The runs whose composition times go astray. */
  predicate Astray(a: Trun) {
    a.version > 0 && Has(a.flags, SAMPLE_CTS) && a.entries != []
  }

  lemma Field4(b: seq<byte>, n: nat, present: bool, v: u32, rest: seq<byte>)
    requires n <= |b| && b[n..] == Opt4(present, v) + rest
    ensures n + Len4(present) <= |b| && Get4(b, n, present) == (if present then v else 0)
    ensures b[n + Len4(present)..] == rest
  {
    hide BE32, U32BE;
    if present {
      ReadBack32(v, rest);
    }
    assert b[n + Len4(present)..] == b[n..][Len4(present)..];
  }

  lemma Field8(b: seq<byte>, n: nat, present: bool, v: u64, rest: seq<byte>)
    requires n <= |b| && b[n..] == Opt8(present, v) + rest
    ensures n + Len8(present) <= |b| && Get8(b, n, present) == (if present then v else 0)
    ensures b[n + Len8(present)..] == rest
  {
    hide BE64, U64BE;
    if present {
      ReadBack64(v, rest);
    }
    assert b[n + Len8(present)..] == b[n..][Len8(present)..];
  }

  lemma ThreeFields(b: seq<byte>, n: nat, p: bool, u: u32, q: bool, v: u32, r: bool, w: u32, rest: seq<byte>)
    requires n <= |b| && b[n..] == Opt4(p, u) + (Opt4(q, v) + (Opt4(r, w) + rest))
    ensures n + Len4(p) + Len4(q) + Len4(r) <= |b| && b[n + Len4(p) + Len4(q) + Len4(r)..] == rest
    ensures Get4(b, n, p) == (if p then u else 0) && Get4(b, n + Len4(p), q) == (if q then v else 0)
    ensures Get4(b, n + Len4(p) + Len4(q), r) == (if r then w else 0)
  {
    hide Opt4, Get4, Len4;
    Field4(b, n, p, u, Opt4(q, v) + (Opt4(r, w) + rest));
    Field4(b, n + Len4(p), q, v, Opt4(r, w) + rest);
    Field4(b, n + Len4(p) + Len4(q), r, w, rest);
  }

  /** The front of a box: version and flags, and a word after them. */
  lemma Front(b: seq<byte>, tag: u32, version: byte, flags: u24, word: u32, rest: seq<byte>)
    requires b == Box(tag, Full(version, flags) + BE32(word) + rest)
    ensures |b| >= 16 && b[8] == version && U24BE(b[9..]) == flags && U32BE(b[12..]) == word && b[16..] == rest
  {
    hide BE32, U32BE, BE24, U24BE;
    assert b[9..] == BE24(flags) + (BE32(word) + rest);
    ReadBack24(flags, BE32(word) + rest);
    assert b[12..] == BE32(word) + rest;
    ReadBack32(word, rest);
    assert b[16..] == rest;
  }

  lemma MfhdReadsBack(a: Mfhd)
    ensures ReadMfhd(MfhdBytes(a)) == Some(a)
  {
    hide U24BE, U32BE, Full, Box, BE32;
    assert Full(a.version, a.flags) + BE32(a.seqnum) == Full(a.version, a.flags) + BE32(a.seqnum) + [];
    Front(MfhdBytes(a), MFHD, a.version, a.flags, a.seqnum, []);
  }

  lemma TfhdReadsBack(a: Tfhd)
    ensures ReadTfhd(TfhdBytes(a)) == Some(SeenTfhd(a))
  {
    hide Box, Full, BE32, U24BE, U32BE, Opt4, Opt8, Has, Get4, Get8, Len4, Len8, ReadTfhd, SeenTfhd, TfhdBytes;
    var o, s := Opt8(Has(a.flags, BASE_DATA_OFFSET), a.baseDataOffset), Opt4(Has(a.flags, STSD_ID), a.stsdId);
    var d, z := Opt4(Has(a.flags, DEFAULT_DURATION), a.defaultDuration), Opt4(Has(a.flags, DEFAULT_SIZE),
        a.defaultSize);
    var f := Opt4(Has(a.flags, DEFAULT_FLAGS), a.defaultFlags);
    var b := TfhdBytes(a);
    TfhdNested(a);
    Front(b, TFHD, a.version, a.flags, a.trackId, o + (s + (d + (z + (f + [])))));
    Field8(b, 16, Has(a.flags, BASE_DATA_OFFSET), a.baseDataOffset, s + (d + (z + (f + []))));
    TfhdFields(b, a, 16 + Len8(Has(a.flags, BASE_DATA_OFFSET)));
  }

  /** The four fields of a track header that come after its base data offset. */
  lemma TfhdFields(b: seq<byte>, a: Tfhd, n1: nat)
    requires |b| >= 16 && b[8] == a.version && U24BE(b[9..]) == a.flags && U32BE(b[12..]) == a.trackId
    requires n1 == 16 + Len8(Has(a.flags, BASE_DATA_OFFSET)) <= |b|
    requires Get8(b, 16, Has(a.flags, BASE_DATA_OFFSET)) == if Has(a.flags, BASE_DATA_OFFSET) then a.baseDataOffset
        else 0
    requires b[n1..] == Opt4(Has(a.flags, STSD_ID), a.stsdId) + (Opt4(Has(a.flags, DEFAULT_DURATION), a.defaultDuration)
        + (Opt4(Has(a.flags, DEFAULT_SIZE), a.defaultSize) + (Opt4(Has(a.flags, DEFAULT_FLAGS), a.defaultFlags) + [])))
    ensures ReadTfhd(b) == Some(SeenTfhd(a))
  {
    hide Box, Full, BE32, U24BE, U32BE, Opt4, Opt8, Has, Get4, Get8, Len4, Len8, ReadTfhd, SeenTfhd, TfhdBytes;
    var n2 := n1 + Len4(Has(a.flags, STSD_ID));
    var n3 := n2 + Len4(Has(a.flags, DEFAULT_DURATION));
    Field4(b, n1, Has(a.flags, STSD_ID), a.stsdId, Opt4(Has(a.flags, DEFAULT_DURATION), a.defaultDuration)
        + (Opt4(Has(a.flags, DEFAULT_SIZE), a.defaultSize) + (Opt4(Has(a.flags, DEFAULT_FLAGS), a.defaultFlags) + [])));
    ThreeFields(b, n2, Has(a.flags, DEFAULT_DURATION), a.defaultDuration, Has(a.flags, DEFAULT_SIZE), a.defaultSize,
                Has(a.flags, DEFAULT_FLAGS), a.defaultFlags, []);
    TfhdAssembled(b, a, n1, n2, n3, n3 + Len4(Has(a.flags, DEFAULT_SIZE)));
  }

  lemma TfhdAssembled(b: seq<byte>, a: Tfhd, n1: nat, n2: nat, n3: nat, n4: nat)
    requires |b| >= 16 && b[8] == a.version && U24BE(b[9..]) == a.flags && U32BE(b[12..]) == a.trackId
    requires n1 == 16 + Len8(Has(a.flags, BASE_DATA_OFFSET)) <= |b|
    requires n2 == n1 + Len4(Has(a.flags, STSD_ID)) <= |b|
    requires n3 == n2 + Len4(Has(a.flags, DEFAULT_DURATION)) <= |b|
    requires n4 == n3 + Len4(Has(a.flags, DEFAULT_SIZE)) <= |b|
    requires n4 + Len4(Has(a.flags, DEFAULT_FLAGS)) <= |b|
    requires Get8(b, 16, Has(a.flags, BASE_DATA_OFFSET)) == if Has(a.flags, BASE_DATA_OFFSET) then a.baseDataOffset
        else 0
    requires Get4(b, n1, Has(a.flags, STSD_ID)) == if Has(a.flags, STSD_ID) then a.stsdId else 0
    requires Get4(b, n2, Has(a.flags, DEFAULT_DURATION)) == if Has(a.flags, DEFAULT_DURATION) then a.defaultDuration
        else 0
    requires Get4(b, n3, Has(a.flags, DEFAULT_SIZE)) == if Has(a.flags, DEFAULT_SIZE) then a.defaultSize else 0
    requires Get4(b, n4, Has(a.flags, DEFAULT_FLAGS)) == if Has(a.flags, DEFAULT_FLAGS) then a.defaultFlags else 0
    ensures ReadTfhd(b) == Some(SeenTfhd(a))
  {
    hide Has, Get4, Get8, Len4, Len8, U24BE, U32BE;
  }

  lemma TfhdNested(a: Tfhd)
    ensures var o, s := Opt8(Has(a.flags, BASE_DATA_OFFSET), a.baseDataOffset), Opt4(Has(a.flags, STSD_ID), a.stsdId);
      var d, z := Opt4(Has(a.flags, DEFAULT_DURATION), a.defaultDuration), Opt4(Has(a.flags, DEFAULT_SIZE),
          a.defaultSize);
      var f := Opt4(Has(a.flags, DEFAULT_FLAGS), a.defaultFlags);
      TfhdBytes(a) == Box(TFHD, Full(a.version, a.flags) + BE32(a.trackId) + (o + (s + (d + (z + (f + []))))))
  {
    hide Has, Opt4, Opt8, Box, Full, BE32;
    Nested(Full(a.version, a.flags) + BE32(a.trackId),
           Opt8(Has(a.flags, BASE_DATA_OFFSET), a.baseDataOffset), Opt4(Has(a.flags, STSD_ID), a.stsdId),
           Opt4(Has(a.flags, DEFAULT_DURATION), a.defaultDuration), Opt4(Has(a.flags, DEFAULT_SIZE), a.defaultSize),
           Opt4(Has(a.flags, DEFAULT_FLAGS), a.defaultFlags));
  }

  lemma Nested(x: seq<byte>, o: seq<byte>, s: seq<byte>, d: seq<byte>, z: seq<byte>, f: seq<byte>)
    ensures x + o + s + d + z + f == x + (o + (s + (d + (z + (f + [])))))
  {
  }

  lemma TfdtReadsBack(a: Tfdt)
    ensures ReadTfdt(TfdtBytes(a)) == Some(SeenTfdt(a))
  {
    hide U24BE, U32BE, U64BE, BE24, BE32, BE64;
    var b := TfdtBytes(a);
    var t := if a.version != 0 then BE64(a.time) else BE32(ToU32(a.time));
    assert b[9..] == BE24(a.flags) + t;
    ReadBack24(a.flags, t);
    assert b[12..] == t == t + [];
    if a.version != 0 {
      ReadBack64(a.time, []);
    } else {
      ReadBack32(ToU32(a.time), []);
    }
  }

  /** An entry as it lies in the box: of another version than 0, without its composition time. */
  function Stored(a: Trun, e: Entry): Entry {
    if a.version > 0 then SeenEntry(a.flags, e).(cts := 0) else SeenEntry(a.flags, e)
  }

  function StoredEntries(a: Trun, es: seq<Entry>): (r: seq<Entry>)
    ensures |r| == |es|
  {
    if es == [] then [] else [Stored(a, es[0])] + StoredEntries(a, es[1..])
  }

  lemma Signed(x: i32)
    ensures ToI32(ToU32(x)) == x && ToI32(0) == 0
  {
  }

  lemma SlotReadsBack(b: seq<byte>, n: nat, a: Trun, e: Entry, rest: seq<byte>)
    requires n <= |b| && b[n..] == CtsSlot(a, e) + rest
    ensures var present := Has(a.flags, SAMPLE_CTS);
      && n + Len4(present) <= |b| && b[n + Len4(present)..] == rest
      && ToI32(Get4(b, n, present)) == if a.version > 0 || !present then 0 else e.cts
  {
    hide Has, BE32;
    Signed(e.cts);
    ZeroWord();
    Field4(b, n, Has(a.flags, SAMPLE_CTS), if a.version > 0 then 0 else ToU32(e.cts), rest);
  }

  lemma ZeroWord()
    ensures BE32(0) == [0, 0, 0, 0]
  {
  }

  lemma EntryReadsBack(b: seq<byte>, n: nat, a: Trun, e: Entry, rest: seq<byte>)
    requires n <= |b| && b[n..] == EntryBytes(a, e) + rest
    ensures n + EntryLen(a.flags) <= |b| && ReadEntry(b, n, a.flags) == Stored(a, e)
    ensures b[n + EntryLen(a.flags)..] == rest
  {
    hide Opt4, Has, Get4, Len4, ReadEntry, EntryLen, Stored, CtsSlot, EntryBytes, ToI32;
    EntryFields(b, n, a, e, rest);
    var n1 := n + Len4(Has(a.flags, SAMPLE_DURATION));
    var n2 := n1 + Len4(Has(a.flags, SAMPLE_SIZE));
    EntryEnds(b, n, a, e, n1, n2, n2 + Len4(Has(a.flags, SAMPLE_FLAGS)), rest);
  }

  lemma EntryEnds(b: seq<byte>, n: nat, a: Trun, e: Entry, n1: nat, n2: nat, n3: nat, rest: seq<byte>)
    requires n1 == n + Len4(Has(a.flags, SAMPLE_DURATION)) && n2 == n1 + Len4(Has(a.flags, SAMPLE_SIZE))
    requires n3 == n2 + Len4(Has(a.flags, SAMPLE_FLAGS)) <= |b| && b[n3..] == CtsSlot(a, e) + rest
    requires Get4(b, n, Has(a.flags, SAMPLE_DURATION)) == if Has(a.flags, SAMPLE_DURATION) then e.duration else 0
    requires Get4(b, n1, Has(a.flags, SAMPLE_SIZE)) == if Has(a.flags, SAMPLE_SIZE) then e.size else 0
    requires Get4(b, n2, Has(a.flags, SAMPLE_FLAGS)) == if Has(a.flags, SAMPLE_FLAGS) then e.flags else 0
    ensures n + EntryLen(a.flags) <= |b| && ReadEntry(b, n, a.flags) == Stored(a, e)
    ensures b[n + EntryLen(a.flags)..] == rest
  {
    hide Opt4, Has, Get4, Len4, ReadEntry, EntryLen, Stored, CtsSlot, EntryBytes, ToI32;
    SlotReadsBack(b, n3, a, e, rest);
    EntryAssembled(b, n, a, e, n1, n2, n3);
  }

  lemma EntryFields(b: seq<byte>, n: nat, a: Trun, e: Entry, rest: seq<byte>)
    requires n <= |b| && b[n..] == EntryBytes(a, e) + rest
    ensures var n1 := n + Len4(Has(a.flags, SAMPLE_DURATION));
      var n2 := n1 + Len4(Has(a.flags, SAMPLE_SIZE));
      var n3 := n2 + Len4(Has(a.flags, SAMPLE_FLAGS));
      && n3 <= |b| && b[n3..] == CtsSlot(a, e) + rest
      && Get4(b, n, Has(a.flags, SAMPLE_DURATION)) == (if Has(a.flags, SAMPLE_DURATION) then e.duration else 0)
      && Get4(b, n1, Has(a.flags, SAMPLE_SIZE)) == (if Has(a.flags, SAMPLE_SIZE) then e.size else 0)
      && Get4(b, n2, Has(a.flags, SAMPLE_FLAGS)) == (if Has(a.flags, SAMPLE_FLAGS) then e.flags else 0)
  {
    hide Opt4, Has, Get4, Len4, ReadEntry, EntryLen, Stored, CtsSlot, EntryBytes, ToI32;
    EntryNested(a, e, rest);
    ThreeFields(b, n, Has(a.flags, SAMPLE_DURATION), e.duration, Has(a.flags, SAMPLE_SIZE), e.size,
                Has(a.flags, SAMPLE_FLAGS), e.flags, CtsSlot(a, e) + rest);
  }

  lemma EntryNested(a: Trun, e: Entry, rest: seq<byte>)
    ensures EntryBytes(a, e) + rest == Opt4(Has(a.flags, SAMPLE_DURATION), e.duration)
      + (Opt4(Has(a.flags, SAMPLE_SIZE), e.size) + (Opt4(Has(a.flags, SAMPLE_FLAGS), e.flags) + (CtsSlot(a, e) + rest)))
  {
    hide Opt4, Has, CtsSlot, EntryBytes;
    EntryIs(a, e);
    NestedEntry(Opt4(Has(a.flags, SAMPLE_DURATION), e.duration), Opt4(Has(a.flags, SAMPLE_SIZE), e.size),
                Opt4(Has(a.flags, SAMPLE_FLAGS), e.flags), CtsSlot(a, e), rest);
  }

  lemma EntryIs(a: Trun, e: Entry)
    ensures EntryBytes(a, e) == Opt4(Has(a.flags, SAMPLE_DURATION), e.duration)
        + Opt4(Has(a.flags, SAMPLE_SIZE), e.size)
      + Opt4(Has(a.flags, SAMPLE_FLAGS), e.flags) + CtsSlot(a, e)
  {
  }

  lemma EntryAssembled(b: seq<byte>, n: nat, a: Trun, e: Entry, n1: nat, n2: nat, n3: nat)
    requires n1 == n + Len4(Has(a.flags, SAMPLE_DURATION)) <= |b|
    requires n2 == n1 + Len4(Has(a.flags, SAMPLE_SIZE)) <= |b|
    requires n3 == n2 + Len4(Has(a.flags, SAMPLE_FLAGS)) <= |b|
    requires n3 + Len4(Has(a.flags, SAMPLE_CTS)) <= |b|
    requires Get4(b, n, Has(a.flags, SAMPLE_DURATION)) == if Has(a.flags, SAMPLE_DURATION) then e.duration else 0
    requires Get4(b, n1, Has(a.flags, SAMPLE_SIZE)) == if Has(a.flags, SAMPLE_SIZE) then e.size else 0
    requires Get4(b, n2, Has(a.flags, SAMPLE_FLAGS)) == if Has(a.flags, SAMPLE_FLAGS) then e.flags else 0
    requires ToI32(Get4(b, n3, Has(a.flags, SAMPLE_CTS))) == if a.version > 0 || !Has(a.flags, SAMPLE_CTS) then 0
        else e.cts
    ensures EntryLen(a.flags) == n3 + Len4(Has(a.flags, SAMPLE_CTS)) - n
    ensures ReadEntry(b, n, a.flags) == Stored(a, e)
  {
    hide Has, Get4, Len4, ToI32;
  }

  lemma NestedEntry(d: seq<byte>, s: seq<byte>, f: seq<byte>, c: seq<byte>, rest: seq<byte>)
    ensures d + s + f + c + rest == d + (s + (f + (c + rest)))
  {
  }

  lemma {:induction false} EntriesReadBack(b: seq<byte>, n: nat, a: Trun, es: seq<Entry>)
    requires n <= |b| && b[n..] == EntriesBytes(a, es)
    ensures ReadEntries(b, n, |es|, a.flags) == Some(StoredEntries(a, es))
    decreases |es|
  {
    hide EntryBytes, ReadEntry, Stored, EntryLen;
    if es != [] {
      EntryReadsBack(b, n, a, es[0], EntriesBytes(a, es[1..]));
      EntriesReadBack(b, n + EntryLen(a.flags), a, es[1..]);
    }
  }

  /** What reading a run gives: for a run gone astray, nothing that has its version, flags and composition times. */
  lemma TrunReads(a: Trun)
    requires |a.entries| < TWO32
    ensures var start := RunStart(a, a.entries); var r := ReadTrun(TrunBytes(a));
      && (start == Full(a.version, a.flags) ==> r == Some(SeenTrun(a).(entries := StoredEntries(a, a.entries))))
      && (r.Some? ==> Full(r.value.version, r.value.flags) == start)
  {
    hide U24BE, U32BE, Full, Box, BE32, Opt4, Has, Get4, Len4, EntriesBytes, RunStart, ReadEntries;
    var b, start := TrunBytes(a), RunStart(a, a.entries);
    var o, f := Opt4(Has(a.flags, DATA_OFFSET), a.dataOffset), Opt4(Has(a.flags, FIRST_SAMPLE_FLAGS),
        a.firstSampleFlags);
    var es := EntriesBytes(a, a.entries);
    assert |a.entries| as u32 == ToU32(|a.entries|);
    NestedRun(start, BE32(|a.entries|), o, f, es);
    StartOf(start);
    Front(b, TRUN, start[0], U24BE(start[1..]), |a.entries|, o + (f + es));
    FullIs(start[0], U24BE(start[1..]), a.version, a.flags);
    if start == Full(a.version, a.flags) {
      Field4(b, 16, Has(a.flags, DATA_OFFSET), a.dataOffset, f + es);
      var n1 := 16 + Len4(Has(a.flags, DATA_OFFSET));
      Field4(b, n1, Has(a.flags, FIRST_SAMPLE_FLAGS), a.firstSampleFlags, es);
      EntriesReadBack(b, n1 + Len4(Has(a.flags, FIRST_SAMPLE_FLAGS)), a, a.entries);
    }
  }

  lemma NestedRun(start: seq<byte>, n: seq<byte>, o: seq<byte>, f: seq<byte>, es: seq<byte>)
    ensures start + (n + o + f) + es == start + n + (o + (f + es))
  {
  }

  /** Any four bytes are a version and flags. */
  lemma StartOf(start: seq<byte>)
    requires |start| == 4
    ensures start == Full(start[0], U24BE(start[1..]))
  {
    var v := U24BE(start[1..]);
    assert v / 0x1_0000 == start[1] && v % 0x1_0000 == start[2] as int * 0x100 + start[3] as int;
  }

  lemma FullIs(v: byte, f: u24, w: byte, g: u24)
    ensures Full(v, f) == Full(w, g) <==> v == w && f == g
  {
    hide BE24, U24BE;
    ReadBack24(f, []);
    ReadBack24(g, []);
    assert Full(v, f)[1..] == BE24(f) + [] && Full(w, g)[1..] == BE24(g) + [];
  }

  lemma {:induction false} StoredIsSeen(a: Trun, es: seq<Entry>)
    requires a.version == 0 || !Has(a.flags, SAMPLE_CTS) || es == []
    ensures StoredEntries(a, es) == SeenEntries(a.flags, es)
  {
    hide Has;
    if es != [] {
      StoredIsSeen(a, es[1..]);
    }
  }

  lemma {:induction false} LastStored(a: Trun, es: seq<Entry>)
    requires es != []
    ensures StoredEntries(a, es)[|es| - 1] == Stored(a, es[|es| - 1])
    ensures SeenEntries(a.flags, es)[|es| - 1] == SeenEntry(a.flags, es[|es| - 1])
  {
    hide Stored, SeenEntry;
    if |es| > 1 {
      LastStored(a, es[1..]);
    }
  }

  /** A word whose first byte is not zero is not zero. */
  lemma TopByte(v: u32, w: byte, f: u24)
    requires BE32(v) == Full(w, f) && w > 0
    ensures v != 0
  {
    assert BE32(v)[0] == v / 0x1_0000 / 0x100;
  }

  /** A run reads back as its box says exactly if it does not go astray. */
  lemma TrunReadsBackIff(a: Trun)
    requires |a.entries| < TWO32
    ensures ReadTrun(TrunBytes(a)) == Some(SeenTrun(a)) <==> !Astray(a)
  {
    hide ReadTrun, TrunBytes, Has, Full, BE32, StoredEntries, SeenEntries;
    TrunReads(a);
    if !Astray(a) {
      StoredIsSeen(a, a.entries);
    } else {
      var e := a.entries[|a.entries| - 1];
      if RunStart(a, a.entries) == Full(a.version, a.flags) {
        TopByte(ToU32(e.cts), a.version, a.flags);
        LastStored(a, a.entries);
      }
    }
  }

  lemma BoxFront(b: seq<byte>, n: nat, tag: u32, body: seq<byte>, rest: seq<byte>)
    requires n <= |b| && b[n..] == Box(tag, body) + rest && 8 + |body| < TWO32
    ensures n + 8 + |body| <= |b| && U32BE(b[n..]) == 8 + |body| && U32BE(b[n + 4..]) == tag
    ensures b[n..n + 8 + |body|] == Box(tag, body) && b[n + 8 + |body|..] == rest
  {
    hide BE32, U32BE;
    var size: u32 := 8 + |body|;
    assert ToU32(8 + |body|) == size;
    assert b[n..] == BE32(size) + (BE32(tag) + body + rest);
    ReadBack32(size, BE32(tag) + body + rest);
    assert b[n + 4..] == b[n..][4..] == BE32(tag) + (body + rest);
    ReadBack32(tag, body + rest);
    assert b[n..n + 8 + |body|] == b[n..][..8 + |body|];
    assert b[n + 8 + |body|..] == b[n..][8 + |body|..];
  }

  lemma TfhdChild(b: seq<byte>, n: nat, a: Option<Tfhd>, acc: Traf, rest: seq<byte>)
    requires n <= |b| && b[n..] == (if a.Some? then TfhdBytes(a.value) else []) + rest
    requires acc.header == None && |b| < TWO32
    ensures var m := n + if a.Some? then |TfhdBytes(a.value)| else 0;
      && m <= |b| && b[m..] == rest
      && ReadTrafFrom(b, n, acc) == ReadTrafFrom(b, m,
          acc.(header := if a.Some? then Some(SeenTfhd(a.value)) else None))
  {
    hide U32BE, Box, ReadTfhd, SeenTfhd, TfhdBody;
    if a.Some? {
      var body := TfhdBody(a.value);
      assert |Box(TFHD, body)| == 8 + |body|;
      BoxFront(b, n, TFHD, body, rest);
      TfhdReadsBack(a.value);
    } else {
      assert [] + rest == rest;
      assert acc.(header := None) == acc;
    }
  }

  lemma TfdtChild(b: seq<byte>, n: nat, a: Option<Tfdt>, acc: Traf, rest: seq<byte>)
    requires n <= |b| && b[n..] == (if a.Some? then TfdtBytes(a.value) else []) + rest
    requires acc.decodeTime == None && |b| < TWO32
    ensures var m := n + if a.Some? then |TfdtBytes(a.value)| else 0;
      && m <= |b| && b[m..] == rest
      && ReadTrafFrom(b, n, acc) == ReadTrafFrom(b, m,
          acc.(decodeTime := if a.Some? then Some(SeenTfdt(a.value)) else None))
  {
    hide U32BE, Box, ReadTfdt, SeenTfdt, TfdtBody;
    if a.Some? {
      var body := TfdtBody(a.value);
      assert |Box(TFDT, body)| == 8 + |body|;
      BoxFront(b, n, TFDT, body, rest);
      TfdtReadsBack(a.value);
    } else {
      assert [] + rest == rest;
      assert acc.(decodeTime := None) == acc;
    }
  }

  /** A run is the last box: reading ends with it. */
  lemma TrunChild(b: seq<byte>, n: nat, a: Option<Trun>, acc: Traf)
    requires n <= |b| && b[n..] == if a.Some? then TrunBytes(a.value) else []
    requires acc.run == None && |b| < TWO32
    ensures ReadTrafFrom(b, n, acc) ==
      if a.None? then Some(acc)
      else if ReadTrun(TrunBytes(a.value)).None? then None
      else Some(acc.(run := ReadTrun(TrunBytes(a.value))))
  {
    hide U32BE, Box, ReadTrun, TrunBody;
    if a.Some? {
      var body := TrunBody(a.value);
      assert |Box(TRUN, body)| == 8 + |body|;
      assert Box(TRUN, body) + [] == Box(TRUN, body);
      BoxFront(b, n, TRUN, body, []);
      LongBody(a.value);
    }
  }

  lemma LongBody(a: Trun)
    ensures |TrunBody(a)| >= 8
  {
    hide EntriesBytes, Has;
  }

  lemma TrafReads(a: Traf)
    requires |TrafBytes(a)| < TWO32
    ensures var s := SeenTraf(a);
      ReadTraf(TrafBytes(a)) ==
        if a.run.None? then Some(s)
        else if ReadTrun(TrunBytes(a.run.value)).None? then None
        else Some(s.(run := ReadTrun(TrunBytes(a.run.value))))
  {
    hide TfhdBytes, TfdtBytes, TrunBytes, TrafBytes, ReadTrun, SeenTfhd, SeenTfdt, SeenTrun, ReadTrafFrom;
    var b := TrafBytes(a);
    var h := if a.header.Some? then TfhdBytes(a.header.value) else [];
    var d := if a.decodeTime.Some? then TfdtBytes(a.decodeTime.value) else [];
    var r := if a.run.Some? then TrunBytes(a.run.value) else [];
    TrafNested(a);
    var header := if a.header.Some? then Some(SeenTfhd(a.header.value)) else None;
    var time := if a.decodeTime.Some? then Some(SeenTfdt(a.decodeTime.value)) else None;
    TfhdChild(b, 8, a.header, NO_TRAF, d + r);
    TfdtChild(b, 8 + |h|, a.decodeTime, Traf(header, None, None), r);
    TrunChild(b, 8 + |h| + |d|, a.run, Traf(header, time, None));
  }

  lemma TrafNested(a: Traf)
    ensures var h := if a.header.Some? then TfhdBytes(a.header.value) else [];
      var d := if a.decodeTime.Some? then TfdtBytes(a.decodeTime.value) else [];
      var r := if a.run.Some? then TrunBytes(a.run.value) else [];
      |TrafBytes(a)| >= 8 && TrafBytes(a)[8..] == h + (d + r)
  {
    hide TfhdBytes, TfdtBytes, TrunBytes, BE32;
  }

  predicate Straight(a: Traf) { a.run.None? || !Astray(a.run.value) }

  lemma TrafReadsBackIff(a: Traf)
    requires |TrafBytes(a)| < TWO32 && (a.run.Some? ==> |a.run.value.entries| < TWO32)
    ensures ReadTraf(TrafBytes(a)) == Some(SeenTraf(a)) <==> Straight(a)
  {
    hide TrafBytes, ReadTraf, TrunBytes, ReadTrun, SeenTfhd, SeenTfdt, SeenTrun, Astray;
    TrafReads(a);
    if a.run.Some? {
      TrunReadsBackIff(a.run.value);
    }
  }

  ghost predicate Small(ts: seq<Traf>) {
    forall t <- ts :: t.run.Some? ==> |t.run.value.entries| < TWO32
  }

  /** Every track is read back, unless the last one is empty and, as the very end of the box, not looked at. */
  predicate AllStraight(ts: seq<Traf>) {
    ts == [] || (Straight(ts[0]) && (|ts| == 1 ==> ts[0] != NO_TRAF) && AllStraight(ts[1..]))
  }

  lemma {:induction false} TrafsReadBackIff(b: seq<byte>, n: nat, header: Option<Mfhd>, before: seq<Traf>,
      ts: seq<Traf>)
    requires n <= |b| < TWO32 && b[n..] == TrafsBytes(ts) && Small(ts)
    ensures ReadMoofFrom(b, n, Moof(header, before)) == Some(Moof(header, before + SeenTrafs(ts))) <==> AllStraight(ts)
    ensures var r := ReadMoofFrom(b, n, Moof(header, before));
      r.Some? ==> before <= r.value.tracks
    decreases |ts|
  {
    hide U32BE, Box, ReadTraf, SeenTraf, TrafBody, Straight, ReadMoofFrom, Small;
    if ts == [] {
      NoTrafs(b, n, header, before);
    } else {
      var t, more := ts[0], ts[1..];
      var body := TrafBody(t);
      BoxFront(b, n, TRAF, body, TrafsBytes(more));
      SmallParts(ts);
      TrafReadsBackIff(t);
      TrafNext(b, n, Moof(header, before), body);
      EmptyTraf(t, more);
      var r := ReadTraf(TrafBytes(t));
      if n + 8 < |b| && r.Some? {
        TrafsReadBackIff(b, n + 8 + |body|, header, before + [r.value], more);
        Listed(before, r.value, SeenTraf(t), SeenTrafs(more), ReadMoofFrom(b, n, Moof(header, before)));
      }
    }
  }

  lemma EmptyTraf(t: Traf, more: seq<Traf>)
    ensures |TrafBody(t)| + |TrafsBytes(more)| == 0 <==> t == NO_TRAF && more == []
  {
    hide BE32, TfhdBody, TfdtBody, TrunBody;
  }

  lemma NoTrafs(b: seq<byte>, n: nat, header: Option<Mfhd>, before: seq<Traf>)
    requires n == |b|
    ensures ReadMoofFrom(b, n, Moof(header, before)) == Some(Moof(header, before + SeenTrafs([])))
  {
    assert before + [] == before;
  }

  lemma TrafNext(b: seq<byte>, n: nat, acc: Moof, body: seq<byte>)
    requires n + 8 + |body| <= |b| && U32BE(b[n..]) == 8 + |body| && U32BE(b[n + 4..]) == TRAF
    requires b[n..n + 8 + |body|] == Box(TRAF, body)
    ensures n + 8 == |b| ==> ReadMoofFrom(b, n, acc) == Some(acc)
    ensures n + 8 < |b| ==> var r := ReadTraf(Box(TRAF, body));
      ReadMoofFrom(b, n, acc) ==
        if r.None? then None else ReadMoofFrom(b, n + 8 + |body|, acc.(tracks := acc.tracks + [r.value]))
  {
    hide U32BE, Box, ReadTraf, ReadMfhd;
  }

  lemma SmallParts(ts: seq<Traf>)
    requires ts != [] && Small(ts)
    ensures Small([ts[0]]) && Small(ts[1..]) && (ts[0].run.Some? ==> |ts[0].run.value.entries| < TWO32)
  {
  }

  /** The first track found decides whether the lists can be equal. */
  lemma Listed(before: seq<Traf>, x: Traf, y: Traf, more: seq<Traf>, r: Option<Moof>)
    requires r.Some? ==> before + [x] <= r.value.tracks
    ensures r.Some? ==> before <= r.value.tracks
    ensures r.Some? && r.value.tracks == before + ([y] + more) ==> x == y
    ensures x == y ==> before + [x] + more == before + ([y] + more)
  {
    assert (before + ([y] + more))[|before|] == y;
    if r.Some? {
      assert r.value.tracks[|before|] == (before + [x])[|before|];
      assert before == (before + [x])[..|before|];
    }
    assert before + [x] + more == before + ([x] + more);
  }

  /** A fragment of less than 4 GiB is read back as its boxes say exactly if no run goes astray and the last track is
      not empty. */
  lemma MoofReadsBackIff(a: Moof)
    requires |MoofBytes(a)| < TWO32 && Small(a.tracks)
    ensures ReadMoof(MoofBytes(a)) == Some(SeenMoof(a)) <==> AllStraight(a.tracks)
  {
    hide U32BE, Box, BE32, TrafsBytes, MfhdBytes, SeenTrafs, AllStraight, ReadMoofFrom, Small;
    var b := MoofBytes(a);
    MoofNested(a);
    if a.header.Some? {
      MfhdFirst(b, a.header.value, TrafsBytes(a.tracks));
      TrafsReadBackIff(b, 24, a.header, [], a.tracks);
    } else {
      TrafsReadBackIff(b, 8, None, [], a.tracks);
    }
    assert [] + SeenTrafs(a.tracks) == SeenTrafs(a.tracks);
  }

  lemma MoofNested(a: Moof)
    ensures var h := if a.header.Some? then MfhdBytes(a.header.value) else [];
      |MoofBytes(a)| >= 8 && MoofBytes(a)[8..] == h + TrafsBytes(a.tracks)
    ensures a.header.None? ==> MoofBytes(a)[8..] == TrafsBytes(a.tracks)
  {
    hide MfhdBytes, TrafsBytes, BE32;
  }

  lemma MfhdFirst(b: seq<byte>, a: Mfhd, rest: seq<byte>)
    requires 8 <= |b| < TWO32 && b[8..] == MfhdBytes(a) + rest
    ensures |b| >= 24 && b[24..] == rest
    ensures ReadMoofFrom(b, 8, Moof(None, [])) == ReadMoofFrom(b, 24, Moof(Some(a), []))
  {
    hide U32BE, Box, BE32, ReadMfhd, Full;
    var body := Full(a.version, a.flags) + BE32(a.seqnum);
    BoxFront(b, 8, MFHD, body, rest);
    MfhdReadsBack(a);
  }
}
