/** Writing the boxes of a movie fragment into a buffer (format/fmp4/fmp4io/fragment.go). */
module Fmp4Writing {
  import opened Bytes
  import opened Buffers
  import opened Fmp4Boxes

  /** The buffer a fragment is written into holds zeros from here on. */
  ghost predicate Zeroed(orig: seq<byte>, at: nat) {
    forall k :: at <= k < |orig| ==> orig[k] == 0
  }

  /** What stands in front of a box's body while its size is still open. */
  ghost function Open(orig: seq<byte>, done: seq<byte>, tag: u32): (b: seq<byte>)
    requires |done| + 8 <= |orig|
    ensures |b| == |done| + 8
  {
    done + orig[|done|..|done| + 4] + BE32(tag)
  }

  method Begin(b: array<byte>, at: nat, tag: u32, ghost orig: seq<byte>, ghost done: seq<byte>)
    requires Wrote(b, orig, done) && at == |done| && at + 8 <= b.Length
    modifies b
    ensures |orig| == b.Length && Wrote(b, orig, Open(orig, done, tag))
  {
    Skipped(b, orig, done, 4);
    Put(b, at + 4, BE32(tag), orig, done + orig[|done|..|done| + 4]);
  }

  method End(b: array<byte>, at: nat, n: nat, tag: u32, ghost orig: seq<byte>, ghost done: seq<byte>,
      ghost body: seq<byte>)
    requires at == |done| && |done| + 8 <= |orig| && Wrote(b, orig, Open(orig, done, tag) + body) && n == 8 + |body|
    modifies b
    ensures Wrote(b, orig, done + Box(tag, body))
  {
    hide Wrote, BE32;
    ghost var gap := orig[|done|..|done| + 4];
    assert Open(orig, done, tag) + body == done + gap + (BE32(tag) + body);
    Patch(b, at, BE32(ToU32(n)), orig, done, gap, BE32(tag) + body);
    assert done + BE32(ToU32(n)) + (BE32(tag) + body) == done + Box(tag, body);
  }

  method PutOpt4(b: array<byte>, at: nat, present: bool, v: u32, ghost orig: seq<byte>, ghost done: seq<byte>)
    returns (n: nat)
    requires Wrote(b, orig, done) && at == |done| && at + |Opt4(present, v)| <= b.Length
    modifies b
    ensures n == |Opt4(present, v)| && Wrote(b, orig, done + Opt4(present, v))
  {
    hide Wrote, BE32;
    n := 0;
    NothingAdded(done);
    if present {
      Put(b, at, BE32(v), orig, done);
      n := n + 4;
    }
  }

  method PutOpt8(b: array<byte>, at: nat, present: bool, v: u64, ghost orig: seq<byte>, ghost done: seq<byte>)
    returns (n: nat)
    requires Wrote(b, orig, done) && at == |done| && at + |Opt8(present, v)| <= b.Length
    modifies b
    ensures n == |Opt8(present, v)| && Wrote(b, orig, done + Opt8(present, v))
  {
    hide Wrote, BE64;
    n := 0;
    NothingAdded(done);
    if present {
      Put(b, at, BE64(v), orig, done);
      n := n + 8;
    }
  }

  method PutFull(b: array<byte>, at: nat, version: byte, flags: u24, ghost orig: seq<byte>, ghost done: seq<byte>)
    requires Wrote(b, orig, done) && at == |done| && at + 4 <= b.Length
    modifies b
    ensures Wrote(b, orig, done + Full(version, flags))
  {
    hide Wrote, BE24;
    Put(b, at, [version], orig, done);
    Put(b, at + 1, BE24(flags), orig, done + [version]);
    Joins(done, [version], BE24(flags));
  }

  method MarshalMfhd(a: Mfhd, b: array<byte>, at: nat, ghost orig: seq<byte>, ghost done: seq<byte>) returns (n: nat)
    requires Wrote(b, orig, done) && at == |done| && at + |MfhdBytes(a)| <= b.Length
    modifies b
    ensures n == |MfhdBytes(a)| && Wrote(b, orig, done + MfhdBytes(a))
  {
    hide Wrote, BE32, Full, Open, Box;
    Begin(b, at, MFHD, orig, done);
    ghost var start := Open(orig, done, MFHD);
    n := 8;
    PutFull(b, at + n, a.version, a.flags, orig, start);
    n := n + 4;
    Put(b, at + n, BE32(a.seqnum), orig, start + Full(a.version, a.flags));
    n := n + 4;
    Joins(start, Full(a.version, a.flags), BE32(a.seqnum));
    End(b, at, n, MFHD, orig, done, Full(a.version, a.flags) + BE32(a.seqnum));
  }

  method MarshalTfhd(a: Tfhd, b: array<byte>, at: nat, ghost orig: seq<byte>, ghost done: seq<byte>) returns (n: nat)
    requires Wrote(b, orig, done) && at == |done| && at + |TfhdBytes(a)| <= b.Length
    modifies b
    ensures n == |TfhdBytes(a)| && Wrote(b, orig, done + TfhdBytes(a))
  {
    hide Wrote, BE32, Full, Open, Box, Opt4, Opt8, Has;
    Begin(b, at, TFHD, orig, done);
    ghost var start := Open(orig, done, TFHD);
    ghost var so := start;
    n := 8;
    PutFull(b, at + n, a.version, a.flags, orig, so);
    so := so + Full(a.version, a.flags);
    n := n + 4;
    Put(b, at + n, BE32(a.trackId), orig, so);
    so := so + BE32(a.trackId);
    n := n + 4;
    var m := PutOpt8(b, at + n, Has(a.flags, BASE_DATA_OFFSET), a.baseDataOffset, orig, so);
    so := so + Opt8(Has(a.flags, BASE_DATA_OFFSET), a.baseDataOffset);
    n := n + m;
    m := PutOpt4(b, at + n, Has(a.flags, STSD_ID), a.stsdId, orig, so);
    so := so + Opt4(Has(a.flags, STSD_ID), a.stsdId);
    n := n + m;
    m := PutOpt4(b, at + n, Has(a.flags, DEFAULT_DURATION), a.defaultDuration, orig, so);
    so := so + Opt4(Has(a.flags, DEFAULT_DURATION), a.defaultDuration);
    n := n + m;
    m := PutOpt4(b, at + n, Has(a.flags, DEFAULT_SIZE), a.defaultSize, orig, so);
    so := so + Opt4(Has(a.flags, DEFAULT_SIZE), a.defaultSize);
    n := n + m;
    m := PutOpt4(b, at + n, Has(a.flags, DEFAULT_FLAGS), a.defaultFlags, orig, so);
    so := so + Opt4(Has(a.flags, DEFAULT_FLAGS), a.defaultFlags);
    n := n + m;
    TfhdParts(start, a);
    End(b, at, n, TFHD, orig, done, TfhdBody(a));
  }

  lemma TfhdParts(start: seq<byte>, a: Tfhd)
    ensures start + TfhdBody(a) == start + Full(a.version, a.flags) + BE32(a.trackId)
      + Opt8(Has(a.flags, BASE_DATA_OFFSET), a.baseDataOffset)
      + Opt4(Has(a.flags, STSD_ID), a.stsdId)
      + Opt4(Has(a.flags, DEFAULT_DURATION), a.defaultDuration)
      + Opt4(Has(a.flags, DEFAULT_SIZE), a.defaultSize)
      + Opt4(Has(a.flags, DEFAULT_FLAGS), a.defaultFlags)
  {
    hide Full, BE32, Opt8, Opt4, Has;
  }

  method MarshalTfdt(a: Tfdt, b: array<byte>, at: nat, ghost orig: seq<byte>, ghost done: seq<byte>) returns (n: nat)
    requires Wrote(b, orig, done) && at == |done| && at + |TfdtBytes(a)| <= b.Length
    modifies b
    ensures n == |TfdtBytes(a)| && Wrote(b, orig, done + TfdtBytes(a))
  {
    hide Wrote, BE32, BE64, Full, Open, Box;
    Begin(b, at, TFDT, orig, done);
    ghost var start := Open(orig, done, TFDT);
    n := 8;
    PutFull(b, at + n, a.version, a.flags, orig, start);
    n := n + 4;
    if a.version != 0 {
      Put(b, at + n, BE64(a.time), orig, start + Full(a.version, a.flags));
      n := n + 8;
    } else {
      Put(b, at + n, BE32(ToU32(a.time)), orig, start + Full(a.version, a.flags));
      n := n + 4;
    }
    Joins(start, Full(a.version, a.flags), if a.version != 0 then BE64(a.time) else BE32(ToU32(a.time)));
    End(b, at, n, TFDT, orig, done, TfdtBody(a));
  }

  /** One entry of a run. A composition time of another version than 0 goes over the start of the body; its own place
      is only passed by. */
  method MarshalEntry(a: Trun, e: Entry, b: array<byte>, body: nat, at: nat, ghost orig: seq<byte>,
                      ghost pre: seq<byte>, ghost start: seq<byte>, ghost mid: seq<byte>)
    returns (n: nat, ghost now: seq<byte>)
    requires Wrote(b, orig, pre + start + mid) && body == |pre| && |start| == 4 && at == |pre + start + mid|
    requires at + |EntryBytes(a, e)| <= b.Length && Zeroed(orig, |pre|)
    modifies b
    ensures n == |EntryBytes(a, e)| && Wrote(b, orig, pre + now + (mid + EntryBytes(a, e)))
    ensures now == if a.version > 0 && Has(a.flags, SAMPLE_CTS) then BE32(ToU32(e.cts)) else start
  {
    hide Wrote, BE32, Opt4, Has, Zeroed;
    now := start;
    n := 0;
    ghost var so := pre + start + mid;
    var m := PutOpt4(b, at + n, Has(a.flags, SAMPLE_DURATION), e.duration, orig, so);
    so := so + Opt4(Has(a.flags, SAMPLE_DURATION), e.duration);
    n := n + m;
    m := PutOpt4(b, at + n, Has(a.flags, SAMPLE_SIZE), e.size, orig, so);
    so := so + Opt4(Has(a.flags, SAMPLE_SIZE), e.size);
    n := n + m;
    m := PutOpt4(b, at + n, Has(a.flags, SAMPLE_FLAGS), e.flags, orig, so);
    so := so + Opt4(Has(a.flags, SAMPLE_FLAGS), e.flags);
    n := n + m;
    EntryParts(pre, start, mid, a, e);
    ghost var rest := mid + Opt4(Has(a.flags, SAMPLE_DURATION), e.duration) + Opt4(Has(a.flags, SAMPLE_SIZE), e.size)
      + Opt4(Has(a.flags, SAMPLE_FLAGS), e.flags);
    assert so == pre + start + rest;
    if Has(a.flags, SAMPLE_CTS) {
      if a.version > 0 {
        Patch(b, body, BE32(ToU32(e.cts)), orig, pre, start, rest);
        now := BE32(ToU32(e.cts));
        Skipped(b, orig, pre + now + rest, 4);
        ZeroSlot(orig, |pre|, |pre + now + rest|);
        Joins(pre + now, rest, [0, 0, 0, 0]);
      } else {
        Put(b, at + n, BE32(ToU32(e.cts)), orig, so);
        Joins(pre + now, rest, BE32(ToU32(e.cts)));
      }
      n := n + 4;
    } else {
      assert rest + [] == rest;
    }
  }

  lemma EntryParts(pre: seq<byte>, start: seq<byte>, mid: seq<byte>, a: Trun, e: Entry)
    ensures var d, s, f := Opt4(Has(a.flags, SAMPLE_DURATION), e.duration), Opt4(Has(a.flags, SAMPLE_SIZE),
        e.size), Opt4(Has(a.flags, SAMPLE_FLAGS), e.flags);
      && pre + start + mid + d + s + f == pre + start + (mid + d + s + f)
      && mid + d + s + f + CtsSlot(a, e) == mid + EntryBytes(a, e)
  {
    hide Opt4, Has, CtsSlot;
  }

  lemma ZeroSlot(orig: seq<byte>, from: nat, at: nat)
    requires Zeroed(orig, from) && from <= at && at + 4 <= |orig|
    ensures orig[at..at + 4] == [0, 0, 0, 0]
  {
  }

  method MarshalTrun(a: Trun, b: array<byte>, at: nat, ghost orig: seq<byte>, ghost done: seq<byte>) returns (n: nat)
    requires Wrote(b, orig, done) && at == |done| && at + |TrunBytes(a)| <= b.Length && Zeroed(orig, |done|)
    modifies b
    ensures n == |TrunBytes(a)| && Wrote(b, orig, done + TrunBytes(a))
  {
    hide Wrote, BE32, Full, Open, Box, Opt4, Has, Zeroed, EntriesBytes, EntryBytes, CtsSlot;
    Begin(b, at, TRUN, orig, done);
    ghost var pre := Open(orig, done, TRUN);
    n := 8;
    PutFull(b, at + n, a.version, a.flags, orig, pre);
    ghost var start := Full(a.version, a.flags);
    n := n + 4;
    Put(b, at + n, BE32(ToU32(|a.entries|)), orig, pre + start);
    n := n + 4;
    ghost var so := pre + start + BE32(ToU32(|a.entries|));
    var m := PutOpt4(b, at + n, Has(a.flags, DATA_OFFSET), a.dataOffset, orig, so);
    n := n + m;
    so := so + Opt4(Has(a.flags, DATA_OFFSET), a.dataOffset);
    m := PutOpt4(b, at + n, Has(a.flags, FIRST_SAMPLE_FLAGS), a.firstSampleFlags, orig, so);
    n := n + m;
    RunParts(pre, start, a);
    EntriesNext(a, a.entries, 0);
    NothingAdded(RunHead(a));
    ZeroLater(orig, |done|, |pre|);
    for i := 0 to |a.entries|
      invariant n == 8 + 4 + |RunHead(a)| + |EntriesBytes(a, a.entries[..i])|
      invariant start == RunStart(a, a.entries[..i])
      invariant Wrote(b, orig, pre + start + (RunHead(a) + EntriesBytes(a, a.entries[..i])))
    {
      EntriesNext(a, a.entries, i);
      EntriesNext(a, a.entries, i + 1);
      ghost var mid := RunHead(a) + EntriesBytes(a, a.entries[..i]);
      StartNext(a, i);
      m, start := MarshalEntry(a, a.entries[i], b, at + 8, at + n, orig, pre, start, mid);
      n := n + m;
      Joins(RunHead(a), EntriesBytes(a, a.entries[..i]), EntryBytes(a, a.entries[i]));
    }
    WholeRun(pre, a);
    End(b, at, n, TRUN, orig, done, TrunBody(a));
  }

  lemma ZeroLater(orig: seq<byte>, from: nat, to: nat)
    requires Zeroed(orig, from) && from <= to
    ensures Zeroed(orig, to)
  {
  }

  lemma StartNext(a: Trun, i: nat)
    requires i < |a.entries|
    ensures RunStart(a, a.entries[..i + 1]) ==
      if a.version > 0 && Has(a.flags, SAMPLE_CTS) then BE32(ToU32(a.entries[i].cts)) else RunStart(a, a.entries[..i])
  {
    hide BE32, Full, Has;
  }

  lemma RunParts(pre: seq<byte>, start: seq<byte>, a: Trun)
    ensures pre + start + BE32(ToU32(|a.entries|)) + Opt4(Has(a.flags, DATA_OFFSET), a.dataOffset)
        + Opt4(Has(a.flags, FIRST_SAMPLE_FLAGS), a.firstSampleFlags) == pre + start + RunHead(a)
    ensures |RunHead(a)| == 4 + |Opt4(Has(a.flags, DATA_OFFSET), a.dataOffset)|
        + |Opt4(Has(a.flags, FIRST_SAMPLE_FLAGS), a.firstSampleFlags)|
  {
    hide BE32, Opt4, Has;
  }

  lemma WholeRun(pre: seq<byte>, a: Trun)
    ensures a.entries[..|a.entries|] == a.entries
    ensures var start, es := RunStart(a, a.entries), EntriesBytes(a, a.entries);
      pre + start + (RunHead(a) + es) == pre + TrunBody(a)
  {
    hide RunStart, RunHead, EntriesBytes;
  }

  method MarshalTraf(a: Traf, b: array<byte>, at: nat, ghost orig: seq<byte>, ghost done: seq<byte>) returns (n: nat)
    requires Wrote(b, orig, done) && at == |done| && at + |TrafBytes(a)| <= b.Length && Zeroed(orig, |done|)
    modifies b
    ensures n == |TrafBytes(a)| && Wrote(b, orig, done + TrafBytes(a))
  {
    hide Wrote, BE32, Open, Box, Zeroed, TfhdBytes, TfdtBytes, TrunBytes;
    Begin(b, at, TRAF, orig, done);
    ghost var start := Open(orig, done, TRAF);
    ghost var so := start;
    NothingAdded(so);
    n := 8;
    if a.header.Some? {
      var m := MarshalTfhd(a.header.value, b, at + n, orig, so);
      n := n + m;
    }
    so := so + (if a.header.Some? then TfhdBytes(a.header.value) else []);
    NothingAdded(so);
    if a.decodeTime.Some? {
      var m := MarshalTfdt(a.decodeTime.value, b, at + n, orig, so);
      n := n + m;
    }
    so := so + (if a.decodeTime.Some? then TfdtBytes(a.decodeTime.value) else []);
    NothingAdded(so);
    ZeroLater(orig, |done|, |so|);
    if a.run.Some? {
      var m := MarshalTrun(a.run.value, b, at + n, orig, so);
      n := n + m;
    }
    TrafParts(start, a);
    End(b, at, n, TRAF, orig, done, TrafBody(a));
  }

  lemma TrafParts(start: seq<byte>, a: Traf)
    ensures start + (if a.header.Some? then TfhdBytes(a.header.value) else [])
      + (if a.decodeTime.Some? then TfdtBytes(a.decodeTime.value) else [])
      + (if a.run.Some? then TrunBytes(a.run.value) else []) == start + TrafBody(a)
  {
    hide TfhdBytes, TfdtBytes, TrunBytes;
  }

  method MarshalMoof(a: Moof, b: array<byte>, at: nat, ghost orig: seq<byte>, ghost done: seq<byte>) returns (n: nat)
    requires Wrote(b, orig, done) && at == |done| && at + |MoofBytes(a)| <= b.Length && Zeroed(orig, |done|)
    modifies b
    ensures n == |MoofBytes(a)| && Wrote(b, orig, done + MoofBytes(a))
  {
    hide Wrote, BE32, Open, Box, Zeroed, MfhdBytes, TrafBytes, TrafsBytes;
    Begin(b, at, MOOF, orig, done);
    ghost var start := Open(orig, done, MOOF);
    ghost var so := start;
    NothingAdded(so);
    n := 8;
    if a.header.Some? {
      var m := MarshalMfhd(a.header.value, b, at + n, orig, so);
      n := n + m;
    }
    so := so + (if a.header.Some? then MfhdBytes(a.header.value) else []);
    NothingAdded(so);
    var base := n;
    TrafsNext(a.tracks, 0);
    ZeroLater(orig, |done|, |so|);
    for i := 0 to |a.tracks|
      invariant n == base + |TrafsBytes(a.tracks[..i])|
      invariant Wrote(b, orig, so + TrafsBytes(a.tracks[..i]))
    {
      TrafsNext(a.tracks, i);
      TrafsNext(a.tracks, i + 1);
      ghost var upto := so + TrafsBytes(a.tracks[..i]);
      ZeroLater(orig, |so|, |upto|);
      var m := MarshalTraf(a.tracks[i], b, at + n, orig, upto);
      n := n + m;
      Joins(so, TrafsBytes(a.tracks[..i]), TrafBytes(a.tracks[i]));
    }
    assert a.tracks[..|a.tracks|] == a.tracks;
    Joins(start, if a.header.Some? then MfhdBytes(a.header.value) else [], TrafsBytes(a.tracks));
    End(b, at, n, MOOF, orig, done, MoofBody(a));
  }
}
