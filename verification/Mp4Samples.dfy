/** The sample tables that the MP4 writer builds up, one sample at a time, and what a reader gets back from them. */
module Mp4Samples {
  import opened Bytes
  import opened Sums
  import opened SampleTables
  import opened Mp4Time
  import opened Mp4Reader

  const TIME_SCALE := 90000

  /** A sample as written: its place in the file, its bytes, and the ticks recorded for it. */
  datatype Sample = Sample(pos: nat, data: seq<byte>, key: bool, duration: u32, composition: u32)

  const OnePerChunk := [ChunkGroup(1, 1)]

  function EmptyTable(video: bool): SampleTable {
    SampleTable([], if video then Some([]) else None, OnePerChunk, 0, [], [], if video then Some([]) else None)
  }

  /** The tables after one more sample, in a chunk of its own. */
  function AddSample(t: SampleTable, s: Sample): SampleTable {
    t.(stts := Extend(t.stts, s.duration),
       ctts := if t.ctts.Some? then Some(Extend(t.ctts.value, s.composition)) else None,
       sizes := t.sizes + [ToU32(|s.data|)],
       stco := t.stco + [ToU32(s.pos)],
       stss := if t.stss.Some? && s.key then Some(t.stss.value + [ToU32(|t.sizes| + 1)]) else t.stss)
  }

  function TableOf(video: bool, ss: seq<Sample>): SampleTable {
    if ss == [] then EmptyTable(video)
    else AddSample(TableOf(video, ss[..|ss| - 1]), ss[|ss| - 1])
  }

  /** The key table lists exactly the numbers of the key samples. */
  ghost predicate ListsKeys(stss: seq<u32>, ss: seq<Sample>) {
    && Ascending(stss)
    && (forall k :: 0 <= k < |stss| ==> 1 <= stss[k] <= |ss| && ss[stss[k] - 1].key)
    && (forall i :: 0 <= i < |ss| && ss[i].key ==> i + 1 in stss)
  }

  /** The tables say of every sample what was written. */
  ghost predicate Describes(t: SampleTable, video: bool, ss: seq<Sample>) {
    && t.stsc == OnePerChunk && t.sampleSize == 0 && t.ctts.Some? == t.stss.Some? == video
    && |Expand(t.stts)| == |t.sizes| == |t.stco| == |ss|
    && Canonical(t.stts)
    && (forall i :: 0 <= i < |ss| ==>
          && Expand(t.stts)[i] == ss[i].duration
          && t.sizes[i] == ToU32(|ss[i].data|) && t.stco[i] == ToU32(ss[i].pos))
    && (video ==>
          && Canonical(t.ctts.value) && |Expand(t.ctts.value)| == |ss|
          && (forall i :: 0 <= i < |ss| ==> Expand(t.ctts.value)[i] == ss[i].composition)
          && ListsKeys(t.stss.value, ss))
  }

  lemma ListsKeysNext(stss: seq<u32>, ss: seq<Sample>, s: Sample)
    requires ListsKeys(stss, ss) && |ss| + 1 < TWO32
    ensures ListsKeys(if s.key then stss + [ToU32(|ss| + 1)] else stss, ss + [s])
  {
    hide ListsKeys;
    if s.key {
      KeyAppended(stss, ss, s, |ss| + 1);
    } else {
      NoKeyAppended(stss, ss, s);
    }
  }

  lemma NoKeyAppended(stss: seq<u32>, ss: seq<Sample>, s: Sample)
    requires ListsKeys(stss, ss) && !s.key
    ensures ListsKeys(stss, ss + [s])
  {
    var all := ss + [s];
    forall i | 0 <= i < |all| && all[i].key ensures i + 1 in stss {
      assert i < |ss| && ss[i].key;
    }
  }

  lemma KeyAppended(stss: seq<u32>, ss: seq<Sample>, s: Sample, n: u32)
    requires ListsKeys(stss, ss) && s.key && n == |ss| + 1
    ensures ListsKeys(stss + [n], ss + [s])
  {
    hide Ascending;
    AscendingSnoc(stss, n);
    KeysKept(stss, ss, s, n);
    KeysFound(stss, ss, s, n);
  }

  lemma AscendingSnoc(stss: seq<u32>, n: u32)
    requires Ascending(stss) && forall k :: 0 <= k < |stss| ==> stss[k] < n
    ensures Ascending(stss + [n])
  {
  }

  lemma KeysKept(stss: seq<u32>, ss: seq<Sample>, s: Sample, n: u32)
    requires s.key && n == |ss| + 1 && forall k :: 0 <= k < |stss| ==> 1 <= stss[k] <= |ss| && ss[stss[k] - 1].key
    ensures forall k :: 0 <= k < |stss + [n]| ==>
      1 <= (stss + [n])[k] <= |ss + [s]| && (ss + [s])[(stss + [n])[k] - 1].key
  {
  }

  lemma KeysFound(stss: seq<u32>, ss: seq<Sample>, s: Sample, n: u32)
    requires n == |ss| + 1 && forall i :: 0 <= i < |ss| && ss[i].key ==> i + 1 in stss
    ensures forall i :: 0 <= i < |ss + [s]| && (ss + [s])[i].key ==> i + 1 in stss + [n]
  {
    var after, all := stss + [n], ss + [s];
    forall i | 0 <= i < |all| && all[i].key ensures i + 1 in after {
      if i < |ss| {
        assert ss[i].key;
      } else {
        assert after[|stss|] == i + 1;
      }
    }
  }

  /** Every sequence of fewer than 2^32 samples is described faithfully, with runs as long as possible. */
  lemma {:induction false} TableOfDescribes(video: bool, ss: seq<Sample>)
    requires |ss| < TWO32
    ensures Describes(TableOf(video, ss), video, ss)
  {
    hide Expand, Extend, Canonical, ListsKeys;
    if ss == [] {
      EmptyDescribes(video);
    } else {
      var front, s := ss[..|ss| - 1], ss[|ss| - 1];
      var t := TableOf(video, front);
      TableOfDescribes(video, front);
      ExtendExpands(t.stts, s.duration);
      if video {
        ExtendExpands(t.ctts.value, s.composition);
        ListsKeysNext(t.stss.value, front, s);
      }
      assert front + [s] == ss;
    }
  }

  lemma EmptyDescribes(video: bool)
    ensures Describes(EmptyTable(video), video, [])
  {
  }

  lemma {:induction false} OneGroup(chunk: nat)
    ensures GroupAt(OnePerChunk, chunk) == 0
  {
    if chunk > 0 {
      OneGroup(chunk - 1);
    }
  }

  lemma {:induction false} OneChunkEach(chunks: nat, k: nat)
    requires k <= chunks
    ensures Prefix(ChunkCounts(OnePerChunk, chunks), k) == k
  {
    hide GroupAt;
    if k > 0 {
      OneChunkEach(chunks, k - 1);
      OneGroup(k - 1);
    }
  }

  lemma CanonicalCovers(runs: seq<Run<u32>>, n: nat)
    requires Canonical(runs) && |Expand(runs)| == n
    ensures Covers(runs, n)
  {
    ExpandLength(runs);
  }

  /** A described track is well formed, and holds one sample per chunk. */
  lemma DescribedIsWellFormed(t: SampleTable, video: bool, ss: seq<Sample>)
    requires Describes(t, video, ss) && |ss| < TWO32
    ensures WellFormed(t) && Total(t) == |ss|
  {
    hide Expand, Prefix, GroupAt;
    OneChunkEach(|t.stco|, |t.stco|);
    CanonicalCovers(t.stts, |ss|);
    if video {
      CanonicalCovers(t.ctts.value, |ss|);
    }
  }

  /** The file holds the sample's bytes where the writer put them, within 32-bit reach. */
  predicate Stored(file: seq<byte>, s: Sample) {
    && s.pos + |s.data| <= |file| && s.pos < TWO32 && |s.data| < TWO32
    && file[s.pos..s.pos + |s.data|] == s.data
  }

  /** The position of sample i is the start of chunk i. */
  lemma PositionOfSample(t: SampleTable, video: bool, ss: seq<Sample>, i: nat, c: Cursor)
    requires Describes(t, video, ss) && |ss| < TWO32 && i < |ss| && Located(t, i, c)
    ensures c.chunk.at == RunPos(i, 0) && c.chunk.offset == 0
  {
    hide Expand, Prefix, GroupAt;
    var counts := ChunkCounts(t.stsc, |t.stco|);
    OneChunkEach(|t.stco|, i);
    AtUnique(counts, i, c.chunk.at, RunPos(i, 0));
  }

  /** Reading back: at the position of sample i a reader obtains the i-th sample as it was written.
      Audio tracks carry no key or composition table. */
  lemma ReadsBack(video: bool, ss: seq<Sample>, file: seq<byte>, i: nat, c: Cursor, p: Packet)
    requires |ss| < TWO32 && i < |ss| && Stored(file, ss[i])
    requires var t := TableOf(video, ss);
      && (t.stco == [] || t.stsc != []) && Located(t, i, c) && IsSample(t, TIME_SCALE, file, c, p)
    ensures p.data == ss[i].data
    ensures p.isKeyFrame <==> video && ss[i].key
    ensures p.composition == if video then TsToTime(ss[i].composition, TIME_SCALE) else 0
  {
    hide Expand, Prefix, GroupAt, TsToTime, ListsKeys, TableOf, Canonical, At, SyncAt;
    var t := TableOf(video, ss);
    TableOfDescribes(video, ss);
    PositionOfSample(t, video, ss, i, c);
    assert FileOffset(t, c.chunk) == ss[i].pos && SizeOf(t, i) == |ss[i].data|;
    if video {
      EmptyExpands(t.ctts.value);
      KeyListed(t.stss.value, ss, i);
    }
  }

  lemma EmptyExpands(runs: seq<Run<u32>>)
    ensures runs == [] ==> Expand(runs) == []
  {
  }

  lemma KeyListed(stss: seq<u32>, ss: seq<Sample>, i: nat)
    requires ListsKeys(stss, ss) && i < |ss|
    ensures i + 1 in stss <==> ss[i].key
  {
    if i + 1 in stss {
      var k :| 0 <= k < |stss| && stss[k] == i + 1;
    }
  }

  /** A reader gets sample i exactly when it was written and, for video, some sample of the track is a key frame:
      a video track without key frames reads as empty. */
  lemma ReadableExactly(video: bool, ss: seq<Sample>, i: nat)
    requires |ss| < TWO32
    ensures var t := TableOf(video, ss);
      && t.stsc != []
      && (Playable(t, i) <==> i < |ss| && (video ==> exists k :: 0 <= k < |ss| && ss[k].key))
  {
    hide Expand, Prefix, GroupAt;
    var t := TableOf(video, ss);
    TableOfDescribes(video, ss);
    DescribedIsWellFormed(t, video, ss);
    if video && t.stss.value != [] {
      assert ss[t.stss.value[0] - 1].key;
    }
  }

  function Durations(ss: seq<Sample>): (d: seq<nat>)
    ensures |d| == |ss| && forall i :: 0 <= i < |d| ==> d[i] == ss[i].duration
  {
    seq(|ss|, i requires 0 <= i < |ss| => ss[i].duration)
  }

  /** The reader's decode time of sample i is the sum of the tick durations written before it. */
  lemma DecodeTimeReadsBack(video: bool, ss: seq<Sample>, i: nat, c: Cursor)
    requires |ss| < TWO32 && i <= |ss|
    requires var t := TableOf(video, ss); (t.stco == [] || t.stsc != []) && Located(t, i, c)
    ensures c.dts == Prefix(Durations(ss), i)
  {
    hide Expand, Prefix, TableOf, Canonical, ListsKeys, At, SyncAt, LocatedChunk;
    TableOfDescribes(video, ss);
    PrefixAgree(Expand(TableOf(video, ss).stts), Durations(ss), i);
  }
}
