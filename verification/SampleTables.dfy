/** The sample tables of an MP4 track and the position they give to each sample.

    Durations and composition offsets are run-length coded (stts, ctts), samples are grouped
    into chunks (stsc, stco), and key samples are listed by number (stss). */
module SampleTables {
  import opened Bytes
  import opened Sums

  datatype ChunkGroup = ChunkGroup(firstChunk: u32, samplesPerChunk: u32)

  datatype SampleTable = SampleTable(
    stts: seq<Run<u32>>,
    ctts: Option<seq<Run<u32>>>,
    stsc: seq<ChunkGroup>,
    sampleSize: u32,
    sizes: seq<u32>,
    stco: seq<u32>,
    stss: Option<seq<u32>>)
  {
    predicate HasCtts() { ctts.Some? && ctts.value != [] }
  }

  /** The group the reader is in at a chunk: it advances when the next group's first chunk is reached. */
  function GroupAt(stsc: seq<ChunkGroup>, chunk: nat): (g: nat)
    requires stsc != []
    ensures g < |stsc|
  {
    var p := if chunk == 0 then 0 else GroupAt(stsc, chunk - 1);
    NextGroup(stsc, chunk, p)
  }

  lemma GroupAtNext(stsc: seq<ChunkGroup>, chunk: nat)
    requires stsc != []
    ensures GroupAt(stsc, chunk) == NextGroup(stsc, chunk, if chunk == 0 then 0 else GroupAt(stsc, chunk - 1))
  {
  }

  function NextGroup(stsc: seq<ChunkGroup>, chunk: int, g: nat): (g': nat)
    requires g < |stsc|
    ensures g' < |stsc|
  {
    if g + 1 < |stsc| && ToU32(chunk + 1) == stsc[g + 1].firstChunk then g + 1 else g
  }

  /** Samples held by each chunk. */
  function ChunkCounts(stsc: seq<ChunkGroup>, chunks: nat): (c: seq<nat>)
    requires chunks == 0 || stsc != []
    ensures |c| == chunks
    ensures forall i :: 0 <= i < |c| ==> c[i] == stsc[GroupAt(stsc, i)].samplesPerChunk
  {
    seq(chunks, i requires 0 <= i < chunks => stsc[GroupAt(stsc, i)].samplesPerChunk)
  }

  ghost predicate Ascending(s: seq<u32>) {
    forall i, j :: 0 <= i < j < |s| ==> s[i] < s[j]
  }

  ghost predicate GroupsAscend(stsc: seq<ChunkGroup>) {
    && stsc != [] && stsc[0].firstChunk == 1
    && (forall g, h :: 0 <= g < h < |stsc| ==> stsc[g].firstChunk < stsc[h].firstChunk)
    && (forall g :: 0 <= g < |stsc| ==> stsc[g].samplesPerChunk >= 1)
  }

  /** A run-length table that describes exactly total items. */
  ghost predicate Covers(runs: seq<Run<u32>>, total: nat) {
    AllPositive(Counts(runs)) && Prefix(Counts(runs), |runs|) == total
  }

  function Total(t: SampleTable): nat
    requires t.stco == [] || t.stsc != []
  {
    Prefix(ChunkCounts(t.stsc, |t.stco|), |t.stco|)
  }

  /** Groups start at chunk 1 and ascend, nothing is empty, all tables describe
      the same number of samples, key samples ascend. */
  ghost predicate WellFormed(t: SampleTable) {
    && GroupsAscend(t.stsc)
    && |t.stco| < TWO32 && Total(t) < TWO32
    && Covers(t.stts, Total(t))
    && (t.HasCtts() ==> Covers(t.ctts.value, Total(t)))
    && (t.sampleSize == 0 ==> |t.sizes| == Total(t))
    && (t.stss.Some? ==> Ascending(t.stss.value) && 0 !in t.stss.value)
  }

  /** The reader's group is the last one that starts at or before the chunk (chunks are numbered from 1). */
  lemma {:induction false} GroupIsLast(stsc: seq<ChunkGroup>, chunk: nat)
    requires GroupsAscend(stsc) && chunk + 1 < TWO32
    ensures var g := GroupAt(stsc, chunk);
            && stsc[g].firstChunk <= chunk + 1
            && (g + 1 < |stsc| ==> chunk + 1 < stsc[g + 1].firstChunk)
  {
    hide GroupsAscend, NextGroup;
    if chunk > 0 {
      GroupIsLast(stsc, chunk - 1);
      NextGroupIsLast(stsc, chunk, GroupAt(stsc, chunk - 1));
    } else {
      FirstGroup(stsc);
      NextGroupIsLast(stsc, 0, 0);
    }
  }

  lemma FirstGroup(stsc: seq<ChunkGroup>)
    requires GroupsAscend(stsc)
    ensures stsc != [] && stsc[0].firstChunk == 1
  {
  }

  lemma NextGroupIsLast(stsc: seq<ChunkGroup>, chunk: nat, p: nat)
    requires GroupsAscend(stsc) && chunk + 1 < TWO32 && p < |stsc| && stsc[p].firstChunk <= chunk + 1
    requires p + 1 < |stsc| ==> chunk < stsc[p + 1].firstChunk || chunk == 0
    ensures var g := NextGroup(stsc, chunk, p);
      && stsc[g].firstChunk <= chunk + 1 && (g + 1 < |stsc| ==> chunk + 1 < stsc[g + 1].firstChunk)
  {
    if p + 1 < |stsc| {
      assert stsc[p].firstChunk < stsc[p + 1].firstChunk;
      if p + 2 < |stsc| {
        assert stsc[p + 1].firstChunk < stsc[p + 2].firstChunk;
      }
    }
  }

  /** Chunk, its group, the sample's rank in the chunk, and the bytes of the chunk before it. */
  datatype ChunkPos = ChunkPos(at: RunPos, group: int, offset: int)

  /** All the coupled indices of the reader. */
  datatype Cursor = Cursor(
    sampleIndex: int, chunk: ChunkPos, stts: RunPos, dts: int, ctts: RunPos, syncSampleIndex: int)

  const Zero := RunPos(0, 0)
  const Start := Cursor(0, ChunkPos(Zero, 0, 0), Zero, 0, Zero, 0)

  /** Bytes of the chunk that precede sample i, which is the k-th sample of its chunk. */
  function OffsetInChunk(t: SampleTable, i: nat, k: nat): int
    requires k <= i && (t.sampleSize == 0 ==> i <= |t.sizes|)
  {
    if t.sampleSize != 0 then k * t.sampleSize else Prefix(t.sizes, i) - Prefix(t.sizes, i - k)
  }

  predicate LocatedChunk(t: SampleTable, i: nat, c: ChunkPos)
    requires t.stco == [] || t.stsc != []
  {
    && At(ChunkCounts(t.stsc, |t.stco|), i, c.at)
    && (t.stsc != [] ==> c.group == GroupAt(t.stsc, c.at.entry))
    && 0 <= c.at.off <= i && (t.sampleSize == 0 ==> i <= |t.sizes|)
    && c.offset == OffsetInChunk(t, i, c.at.off)
  }

  predicate LocatedTime(stts: seq<Run<u32>>, i: nat, p: RunPos, dts: int) {
    At(Counts(stts), i, p) && i <= |Expand(stts)| && dts == Prefix(Expand(stts), i)
  }

  /** The last key sample at or before sample i, or the first one when there is none. */
  predicate SyncAt(stss: seq<u32>, i: int, s: int) {
    && 0 <= s && (s == 0 || (s < |stss| && stss[s] <= i + 1))
    && (s + 1 < |stss| ==> stss[s + 1] > i + 1)
  }

  /** c is the position of sample i: every index is the one the tables define,
      independently of how the reader got there. */
  predicate Located(t: SampleTable, i: nat, c: Cursor)
    requires t.stco == [] || t.stsc != []
  {
    && c.sampleIndex == i
    && LocatedChunk(t, i, c.chunk)
    && LocatedTime(t.stts, i, c.stts, c.dts)
    && (if t.HasCtts() then At(Counts(t.ctts.value), i, c.ctts) else c.ctts == Zero)
    && (if t.stss.Some? then SyncAt(t.stss.value, i, c.syncSampleIndex) else c.syncSampleIndex == 0)
  }

  /** A sample has only one position. */
  lemma LocatedUnique(t: SampleTable, i: nat, c: Cursor, d: Cursor)
    requires WellFormed(t)
    requires Located(t, i, c) && Located(t, i, d)
    ensures c == d
  {
    AtUnique(ChunkCounts(t.stsc, |t.stco|), i, c.chunk.at, d.chunk.at);
    AtUnique(Counts(t.stts), i, c.stts, d.stts);
    if t.HasCtts() {
      AtUnique(Counts(t.ctts.value), i, c.ctts, d.ctts);
    }
    if t.stss.Some? {
      SyncUnique(t.stss.value, i, c.syncSampleIndex, d.syncSampleIndex);
    }
  }

  lemma SyncUnique(stss: seq<u32>, i: int, a: int, b: int)
    requires Ascending(stss) && SyncAt(stss, i, a) && SyncAt(stss, i, b)
    ensures a == b
  {
  }

  lemma StartAt(counts: seq<nat>)
    requires AllPositive(counts)
    ensures At(counts, 0, Zero)
  {
  }

  /** A fresh stream is positioned at the first sample. */
  lemma StartLocated(t: SampleTable)
    requires WellFormed(t)
    ensures Located(t, 0, Start)
  {
    hide Prefix, Expand, GroupAt;
    StartChunk(t);
    StartAt(Counts(t.stts));
    assert LocatedTime(t.stts, 0, Zero, 0) by { StartTime(t.stts); }
    if t.HasCtts() {
      StartAt(Counts(t.ctts.value));
    }
    if t.stss.Some? && t.stss.value != [] {
      assert t.stss.value[0] in t.stss.value;
    }
  }

  lemma StartChunk(t: SampleTable)
    requires GroupsAscend(t.stsc)
    ensures LocatedChunk(t, 0, Start.chunk)
  {
    GroupIsLast(t.stsc, 0);
    StartAt(ChunkCounts(t.stsc, |t.stco|));
  }

  lemma StartTime(stts: seq<Run<u32>>)
    requires At(Counts(stts), 0, Zero)
    ensures LocatedTime(stts, 0, Zero, 0)
  {
  }

  /** Where incSampleIndex moves the chunk indices. */
  function StepChunk(t: SampleTable, i: int, c: ChunkPos): ChunkPos
    requires 0 <= c.group < |t.stsc|
    requires t.sampleSize == 0 ==> 0 <= i < |t.sizes|
  {
    var wrap := ToU32(c.at.off + 1) == t.stsc[c.group].samplesPerChunk;
    var at := if wrap then RunPos(c.at.entry + 1, 0) else RunPos(c.at.entry, c.at.off + 1);
    var offset := if wrap then 0 else c.offset + (if t.sampleSize != 0 then t.sampleSize else t.sizes[i]);
    ChunkPos(at, NextGroup(t.stsc, at.entry, c.group), offset)
  }

  function StepSync(stss: seq<u32>, i: int, s: int): int
    requires 0 <= s
  {
    if s + 1 < |stss| && ToU32(stss[s + 1] as int - 1) == ToU32(i + 1) then s + 1 else s
  }

  /** The reader may advance: no table lookup of incSampleIndex is out of range. */
  predicate Steppable(t: SampleTable, c: Cursor) {
    && 0 <= c.chunk.group < |t.stsc| && 0 <= c.stts.entry < |t.stts|
    && (t.sampleSize == 0 ==> 0 <= c.sampleIndex < |t.sizes|)
    && (t.HasCtts() ==> 0 <= c.ctts.entry < |t.ctts.value|)
    && 0 <= c.syncSampleIndex
  }

  /** One stepwise advance over all indices. */
  function Step(t: SampleTable, c: Cursor): Cursor
    requires Steppable(t, c)
  {
    Cursor(
      c.sampleIndex + 1,
      StepChunk(t, c.sampleIndex, c.chunk),
      Next(Counts(t.stts), c.stts), c.dts + t.stts[c.stts.entry].value,
      if t.HasCtts() then Next(Counts(t.ctts.value), c.ctts) else c.ctts,
      if t.stss.Some? then StepSync(t.stss.value, c.sampleIndex, c.syncSampleIndex) else c.syncSampleIndex)
  }

  /** Stepping from the position of sample i leads to the position of sample i + 1. */
  lemma StepLocates(t: SampleTable, i: nat, c: Cursor)
    requires WellFormed(t) && Located(t, i, c) && i < Total(t)
    ensures Steppable(t, c)
    ensures Located(t, i + 1, Step(t, c))
  {
    hide Prefix, Expand, GroupAt;
    AtBounds(Counts(t.stts), i, c.stts);
    StepTimeLocates(t.stts, i, c.stts, c.dts);
    if t.HasCtts() {
      AtBounds(Counts(t.ctts.value), i, c.ctts);
      AtNext(Counts(t.ctts.value), i, c.ctts);
    }
    if t.stss.Some? {
      StepSyncLocates(t.stss.value, i, c.syncSampleIndex);
    }
    ChunkAdvances(t, i, c.chunk);
  }

  lemma ChunkAdvances(t: SampleTable, i: nat, c: ChunkPos)
    requires GroupsAscend(t.stsc) && |t.stco| < TWO32 && i < Total(t) < TWO32
    requires t.sampleSize == 0 ==> i < |t.sizes|
    requires LocatedChunk(t, i, c)
    ensures LocatedChunk(t, i + 1, StepChunk(t, i, c))
  {
    hide Prefix, Expand, GroupAt;
    var counts := ChunkCounts(t.stsc, |t.stco|);
    AtBounds(counts, i, c.at);
    AtNext(counts, i, c.at);
    StepChunkLocates(t, i, c);
  }

  /** The offset in the chunk grows by the size of the sample left behind. */
  lemma OffsetAdvances(t: SampleTable, i: nat, k: nat)
    requires k <= i && (t.sampleSize == 0 ==> i < |t.sizes|)
    ensures OffsetInChunk(t, i + 1, k + 1)
         == OffsetInChunk(t, i, k) + (if t.sampleSize != 0 then t.sampleSize else t.sizes[i])
    ensures OffsetInChunk(t, i + 1, 0) == 0
  {
    if t.sampleSize != 0 {
      assert (k + 1) * t.sampleSize == k * t.sampleSize + t.sampleSize;
    }
  }

  /** The group test made on every advance leaves the group of the current chunk alone. */
  lemma GroupAdvances(stsc: seq<ChunkGroup>, chunk: nat)
    requires GroupsAscend(stsc) && chunk + 1 < TWO32
    ensures NextGroup(stsc, chunk, GroupAt(stsc, chunk)) == GroupAt(stsc, chunk)
    ensures NextGroup(stsc, chunk + 1, GroupAt(stsc, chunk)) == GroupAt(stsc, chunk + 1)
  {
    GroupIsLast(stsc, chunk);
  }

  lemma StepGroup(t: SampleTable, i: nat, c: ChunkPos)
    requires GroupsAscend(t.stsc) && |t.stco| < TWO32
    requires t.sampleSize == 0 ==> i < |t.sizes|
    requires 0 <= c.at.entry < |t.stco| && c.group == GroupAt(t.stsc, c.at.entry)
    ensures var d := StepChunk(t, i, c); d.group == GroupAt(t.stsc, d.at.entry)
  {
    GroupAdvances(t.stsc, c.at.entry);
  }

  lemma StepOffset(t: SampleTable, i: nat, c: ChunkPos)
    requires 0 <= c.group < |t.stsc|
    requires t.sampleSize == 0 ==> i < |t.sizes|
    requires 0 <= c.at.off <= i && c.offset == OffsetInChunk(t, i, c.at.off)
    ensures var d := StepChunk(t, i, c); 0 <= d.at.off <= i + 1 && d.offset == OffsetInChunk(t, i + 1, d.at.off)
  {
    OffsetAdvances(t, i, c.at.off);
  }

  lemma StepChunkLocates(t: SampleTable, i: nat, c: ChunkPos)
    requires GroupsAscend(t.stsc) && |t.stco| < TWO32
    requires t.sampleSize == 0 ==> i < |t.sizes|
    requires LocatedChunk(t, i, c) && c.at.entry < |t.stco|
    requires var counts := ChunkCounts(t.stsc, |t.stco|); At(counts, i + 1, Next(counts, c.at))
    ensures LocatedChunk(t, i + 1, StepChunk(t, i, c))
  {
    hide Prefix, Expand, GroupAt;
    assert StepChunk(t, i, c).at == Next(ChunkCounts(t.stsc, |t.stco|), c.at);
    StepGroup(t, i, c);
    StepOffset(t, i, c);
  }

  /** The decode time grows by the duration of the sample left behind. */
  lemma TimeAdvances(stts: seq<Run<u32>>, i: nat, p: RunPos, dts: int)
    requires LocatedTime(stts, i, p, dts) && p.entry < |stts|
    ensures i + 1 <= |Expand(stts)|
    ensures dts + stts[p.entry].value == Prefix(Expand(stts), i + 1)
  {
    ExpandAt(stts, p.entry, p.off);
  }

  lemma StepTimeLocates(stts: seq<Run<u32>>, i: nat, p: RunPos, dts: int)
    requires AllPositive(Counts(stts)) && Prefix(Counts(stts), |stts|) < TWO32
    requires LocatedTime(stts, i, p, dts) && p.entry < |stts|
    ensures LocatedTime(stts, i + 1, Next(Counts(stts), p), dts + stts[p.entry].value)
  {
    AtNext(Counts(stts), i, p);
    TimeAdvances(stts, i, p, dts);
  }

  lemma StepSyncLocates(stss: seq<u32>, i: nat, s: int)
    requires Ascending(stss) && 0 !in stss && i + 1 < TWO32
    requires SyncAt(stss, i, s)
    ensures SyncAt(stss, i + 1, StepSync(stss, i, s))
  {
    if s + 1 < |stss| {
      assert stss[s + 1] in stss;
    }
  }

  /** k advances from the start, as far as the tables allow. */
  function Steps(t: SampleTable, k: nat): Option<Cursor> {
    if k == 0 then Some(Start)
    else match Steps(t, k - 1)
      case None => None
      case Some(c) => if Steppable(t, c) then Some(Step(t, c)) else None
  }

  /** Any number of advances up to the sample count succeeds and lands on the position
      the tables define, so the stepwise cursor and a position found from scratch agree in every field. */
  lemma {:induction false} StepsLocate(t: SampleTable, k: nat)
    requires WellFormed(t) && k <= Total(t)
    ensures Steps(t, k).Some? && Located(t, k, Steps(t, k).value)
  {
    hide Prefix, Expand, GroupAt, Located, Steppable, Step, Total, WellFormed;
    if k == 0 {
      StartLocated(t);
    } else {
      StepsLocate(t, k - 1);
      StepLocates(t, k - 1, Steps(t, k - 1).value);
    }
  }

  lemma SteppingAgreesWithSeeking(t: SampleTable, k: nat, sought: Cursor)
    requires WellFormed(t) && k <= Total(t) && Located(t, k, sought)
    ensures Steps(t, k) == Some(sought)
  {
    hide Prefix, Expand, GroupAt;
    StepsLocate(t, k);
    LocatedUnique(t, k, Steps(t, k).value, sought);
  }
}
