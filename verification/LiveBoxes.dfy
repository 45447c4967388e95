/** The movie fragment box of the live path (format/mp4f/mp4fio/atoms.go), whose runs carry duration, size and
    composition time of every sample whatever their flags say. */
module LiveBoxes {
  import opened Bytes
  import opened Buffers
  import opened Fmp4Boxes
  import opened Fmp4Writing

  datatype LiveEntry = LiveEntry(duration: u32, size: u32, flags: u32, cts: u32)

  datatype LiveRun = LiveRun(version: byte, flags: u24, dataOffset: u32, firstSampleFlags: u32, entries: seq<LiveEntry>)

  /** A fragment of one track; the track header is kept as bytes. */
  datatype Frag = Frag(seqnum: u32, header: seq<byte>, time: u64, run: LiveRun)

  /** The first sample's flags are tested in place of the run's. */
  predicate TellsFlags(r: LiveRun, i: nat) {
    if i > 0 then Has(r.flags, SAMPLE_FLAGS) else r.firstSampleFlags / SAMPLE_FLAGS % 2 == 1
  }

  function LiveEntryBytes(r: LiveRun, i: nat, e: LiveEntry): seq<byte> {
    BE32(e.duration) + BE32(e.size) + Opt4(TellsFlags(r, i), e.flags) + BE32(e.cts)
  }

  function EntriesUpto(r: LiveRun, k: nat): seq<byte>
    requires k <= |r.entries|
  {
    if k == 0 then [] else EntriesUpto(r, k - 1) + LiveEntryBytes(r, k - 1, r.entries[k - 1])
  }

  function LiveRunHead(r: LiveRun): seq<byte> {
    Full(r.version, r.flags) + BE32(ToU32(|r.entries|))
    + Opt4(Has(r.flags, DATA_OFFSET), r.dataOffset)
    + Opt4(Has(r.flags, FIRST_SAMPLE_FLAGS), r.firstSampleFlags)
  }

  function LiveRunBody(r: LiveRun): seq<byte> {
    LiveRunHead(r) + EntriesUpto(r, |r.entries|)
  }

  function TimeOf(f: Frag): Tfdt { Tfdt(1, 0, f.time) }

  function HeadOf(f: Frag): Mfhd { Mfhd(0, 0, f.seqnum) }

  function LiveTrafBody(f: Frag): seq<byte> {
    Box(TFHD, f.header) + TfdtBytes(TimeOf(f)) + Box(TRUN, LiveRunBody(f.run))
  }

  function FragBytes(f: Frag): seq<byte> {
    Box(MOOF, MfhdBytes(HeadOf(f)) + Box(TRAF, LiveTrafBody(f)))
  }

  lemma {:induction false} EntriesGrow(r: LiveRun, k: nat)
    requires k <= |r.entries|
    ensures |EntriesUpto(r, k)| <= |EntriesUpto(r, |r.entries|)|
    decreases |r.entries| - k
  {
    hide LiveEntryBytes;
    if k < |r.entries| {
      EntriesGrow(r, k + 1);
    }
  }

  method LiveRunLen(r: LiveRun) returns (n: nat)
    ensures n == |Box(TRUN, LiveRunBody(r))|
  {
    hide Has;
    n := 8;
    n := n + 1;
    n := n + 3;
    n := n + 4;
    if Has(r.flags, DATA_OFFSET) {
      n := n + 4;
    }
    if Has(r.flags, FIRST_SAMPLE_FLAGS) {
      n := n + 4;
    }
    var base := n;
    for i := 0 to |r.entries|
      invariant n == base + |EntriesUpto(r, i)|
    {
      n := n + 4;
      n := n + 4;
      if TellsFlags(r, i) {
        n := n + 4;
      }
      n := n + 4;
    }
  }

  method FragLen(f: Frag) returns (n: nat)
    ensures n == |FragBytes(f)|
  {
    hide LiveRunBody, BE32, BE64;
    var m := LiveRunLen(f.run);
    n := 8 + 16 + (8 + (|f.header| + 8) + 20 + m);
  }

  method MarshalLiveRun(r: LiveRun, b: array<byte>, at: nat, ghost orig: seq<byte>,
      ghost done: seq<byte>) returns (n: nat)
    requires Wrote(b, orig, done) && at == |done| && at + 8 + |LiveRunBody(r)| <= b.Length
    modifies b
    ensures n == 8 + |LiveRunBody(r)| && Wrote(b, orig, done + Box(TRUN, LiveRunBody(r)))
  {
    hide Wrote, BE32, Full, Open, Box, Opt4, Has, EntriesUpto, TellsFlags, LiveEntryBytes;
    Begin(b, at, TRUN, orig, done);
    ghost var pre := Open(orig, done, TRUN);
    n := 8;
    PutFull(b, at + n, r.version, r.flags, orig, pre);
    n := n + 4;
    ghost var so := pre + Full(r.version, r.flags);
    Put(b, at + n, BE32(ToU32(|r.entries|)), orig, so);
    n := n + 4;
    so := so + BE32(ToU32(|r.entries|));
    var m := PutOpt4(b, at + n, Has(r.flags, DATA_OFFSET), r.dataOffset, orig, so);
    n := n + m;
    so := so + Opt4(Has(r.flags, DATA_OFFSET), r.dataOffset);
    m := PutOpt4(b, at + n, Has(r.flags, FIRST_SAMPLE_FLAGS), r.firstSampleFlags, orig, so);
    n := n + m;
    so := so + Opt4(Has(r.flags, FIRST_SAMPLE_FLAGS), r.firstSampleFlags);
    HeadParts(pre, r);
    NoEntries(r, so);
    for i := 0 to |r.entries|
      invariant n == 8 + |LiveRunHead(r)| + |EntriesUpto(r, i)|
      invariant Wrote(b, orig, so + EntriesUpto(r, i))
    {
      NextLiveEntry(r, i, so);
      EntriesGrow(r, i + 1);
      var e := r.entries[i];
      ghost var upto := so + EntriesUpto(r, i);
      Put(b, at + n, BE32(e.duration), orig, upto);
      n := n + 4;
      Put(b, at + n, BE32(e.size), orig, upto + BE32(e.duration));
      n := n + 4;
      m := PutOpt4(b, at + n, TellsFlags(r, i), e.flags, orig, upto + BE32(e.duration) + BE32(e.size));
      n := n + m;
      Put(b, at + n, BE32(e.cts), orig, upto + BE32(e.duration) + BE32(e.size) + Opt4(TellsFlags(r, i), e.flags));
      n := n + 4;
    }
    Joins(pre, LiveRunHead(r), EntriesUpto(r, |r.entries|));
    End(b, at, n, TRUN, orig, done, LiveRunBody(r));
  }

  lemma HeadParts(pre: seq<byte>, r: LiveRun)
    ensures pre + Full(r.version, r.flags) + BE32(ToU32(|r.entries|)) + Opt4(Has(r.flags, DATA_OFFSET), r.dataOffset)
      + Opt4(Has(r.flags, FIRST_SAMPLE_FLAGS), r.firstSampleFlags) == pre + LiveRunHead(r)
    ensures |LiveRunHead(r)| == 8 + |Opt4(Has(r.flags, DATA_OFFSET), r.dataOffset)|
        + |Opt4(Has(r.flags, FIRST_SAMPLE_FLAGS), r.firstSampleFlags)|
  {
    hide Full, BE32, Opt4, Has;
  }

  lemma NoEntries(r: LiveRun, so: seq<byte>)
    ensures EntriesUpto(r, 0) == [] && so + [] == so
  {
  }

  lemma NextLiveEntry(r: LiveRun, i: nat, so: seq<byte>)
    requires i < |r.entries|
    ensures var e := r.entries[i];
      && so + EntriesUpto(r, i + 1) == so + EntriesUpto(r, i) + BE32(e.duration) + BE32(e.size)
          + Opt4(TellsFlags(r, i), e.flags) + BE32(e.cts)
      && |EntriesUpto(r, i + 1)| == |EntriesUpto(r, i)| + 12 + |Opt4(TellsFlags(r, i), e.flags)|
  {
    hide BE32, Opt4, TellsFlags;
  }

  method MarshalFrag(f: Frag, b: array<byte>, ghost orig: seq<byte>) returns (n: nat)
    requires Wrote(b, orig, []) && |FragBytes(f)| <= b.Length
    modifies b
    ensures n == |FragBytes(f)| && Wrote(b, orig, FragBytes(f))
  {
    hide Wrote, BE32, Open, Box, MfhdBytes, TfdtBytes, LiveRunBody;
    FragParts(f);
    Begin(b, 0, MOOF, orig, []);
    ghost var moof := Open(orig, [], MOOF);
    n := MarshalMfhd(HeadOf(f), b, 8, orig, moof);
    n := n + 8;
    ghost var traf := moof + MfhdBytes(HeadOf(f));
    Begin(b, n, TRAF, orig, traf);
    ghost var start := Open(orig, traf, TRAF);
    var k := 8;
    Begin(b, n + k, TFHD, orig, start);
    Put(b, n + k + 8, f.header, orig, Open(orig, start, TFHD));
    End(b, n + k, 8 + |f.header|, TFHD, orig, start, f.header);
    k := k + 8 + |f.header|;
    ghost var so := start + Box(TFHD, f.header);
    var m := MarshalTfdt(TimeOf(f), b, n + k, orig, so);
    k := k + m;
    so := so + TfdtBytes(TimeOf(f));
    m := MarshalLiveRun(f.run, b, n + k, orig, so);
    k := k + m;
    Regroup4(start, Box(TFHD, f.header), TfdtBytes(TimeOf(f)), Box(TRUN, LiveRunBody(f.run)));
    End(b, n, k, TRAF, orig, traf, LiveTrafBody(f));
    n := n + k;
    Joins(moof, MfhdBytes(HeadOf(f)), Box(TRAF, LiveTrafBody(f)));
    End(b, 0, n, MOOF, orig, [], MfhdBytes(HeadOf(f)) + Box(TRAF, LiveTrafBody(f)));
    assert [] + FragBytes(f) == FragBytes(f);
  }

  lemma Regroup4(a: seq<byte>, b: seq<byte>, c: seq<byte>, d: seq<byte>)
    ensures a + b + c + d == a + (b + c + d)
  {
  }

  lemma FragParts(f: Frag)
    ensures |MfhdBytes(HeadOf(f))| == 16 && |TfdtBytes(TimeOf(f))| == 20
    ensures |LiveTrafBody(f)| == 8 + |f.header| + 20 + 8 + |LiveRunBody(f.run)|
    ensures |FragBytes(f)| == 8 + 16 + 8 + |LiveTrafBody(f)|
  {
    hide LiveRunBody, BE32, BE64;
  }
}
