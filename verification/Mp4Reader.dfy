/** The reading half of format/mp4: one stream's coupled indices, moved one sample at a time
    or recomputed from scratch, and the packets read through them. */
module Mp4Reader {
  import opened Bytes
  import opened Sums
  import opened SampleTables
  import opened Mp4Time

  datatype SeekError = NoChunk | NoSize | NoTime | NoComposition
  datatype Packet = Packet(data: seq<byte>, isKeyFrame: bool, composition: int)
  datatype ReadResult = Read(packet: Packet) | Eof | Unreadable

  /** The first table that does not describe the sample decides the error. */
  function SeekOutcome(t: SampleTable, index: int): Option<SeekError>
    requires t.stco == [] || t.stsc != []
  {
    if !(0 <= index < Total(t)) then Some(NoChunk)
    else if t.sampleSize == 0 && index >= |t.sizes| then Some(NoSize)
    else if index >= Prefix(Counts(t.stts), |t.stts|) then Some(NoTime)
    else if t.HasCtts() && index >= Prefix(Counts(t.ctts.value), |t.ctts.value|) then Some(NoComposition)
    else None
  }

  lemma SeekSucceedsInRange(t: SampleTable, index: int)
    requires WellFormed(t)
    ensures SeekOutcome(t, index).None? <==> 0 <= index < Total(t)
  {
    hide Prefix, Expand, GroupAt;
  }

  /** What the validity test lets through. With a constant sample size the test compares the sample
      number with the (then usually empty) list of individual sizes. */
  predicate Playable(t: SampleTable, i: nat)
    requires t.stsc != []
  {
    && i < Total(t)
    && (t.stss.Some? ==> t.stss.value != [])
    && (t.sampleSize != 0 ==> i < |t.sizes|)
  }

  /** The reader's key mark holds exactly for the samples listed in the key table. */
  lemma KeyMark(stss: seq<u32>, i: nat, s: int)
    requires Ascending(stss) && 0 !in stss && i + 1 < TWO32
    requires SyncAt(stss, i, s) && s < |stss|
    ensures ToU32(stss[s] as int - 1) == i <==> i + 1 in stss
  {
    assert stss[s] in stss;
    if i + 1 in stss {
      var k :| 0 <= k < |stss| && stss[k] == i + 1;
    }
  }

  lemma OffsetMark(ctts: seq<Run<u32>>, i: nat, p: RunPos)
    requires At(Counts(ctts), i, p) && p.entry < |ctts|
    ensures i < |Expand(ctts)| && ctts[p.entry].value == Expand(ctts)[i]
  {
    ExpandAt(ctts, p.entry, p.off);
  }

  lemma OffsetNotNegative(t: SampleTable, i: nat, k: nat)
    requires k <= i && (t.sampleSize == 0 ==> i <= |t.sizes|)
    ensures OffsetInChunk(t, i, k) >= 0
  {
    if t.sampleSize == 0 {
      PrefixMonotone(t.sizes, i - k, i);
    }
  }

  function SizeOf(t: SampleTable, i: int): nat {
    if t.sampleSize != 0 then t.sampleSize else if 0 <= i < |t.sizes| then t.sizes[i] else 0
  }

  function FileOffset(t: SampleTable, c: ChunkPos): int
    requires 0 <= c.at.entry < |t.stco|
  {
    t.stco[c.at.entry] + c.offset
  }

  predicate Beyond(t: SampleTable, c: Cursor, file: seq<byte>) {
    && 0 <= c.chunk.at.entry < |t.stco|
    && SizeOf(t, c.sampleIndex) > 0
    && FileOffset(t, c.chunk) + SizeOf(t, c.sampleIndex) > |file|
  }

  /** data are the bytes of the file at the position's offset, as many as the size table says. */
  predicate HasBytes(t: SampleTable, file: seq<byte>, c: Cursor, data: seq<byte>) {
    && 0 <= c.chunk.at.entry < |t.stco|
    && |data| == SizeOf(t, c.sampleIndex)
    && (data != [] ==>
          var at := FileOffset(t, c.chunk);
          0 <= at && at + |data| <= |file| && data == file[at..at + |data|])
  }

  /** The packet is the sample the tables describe: its bytes, whether the key table lists it,
      and the composition offset of its run. */
  predicate IsSample(t: SampleTable, scale: int, file: seq<byte>, c: Cursor, p: Packet)
    requires scale > 0
  {
    && HasBytes(t, file, c, p.data)
    && (p.isKeyFrame <==> t.stss.Some? && c.sampleIndex + 1 in t.stss.value)
    && (if t.HasCtts()
        then 0 <= c.sampleIndex < |Expand(t.ctts.value)|
          && p.composition == TsToTime(Expand(t.ctts.value)[c.sampleIndex], scale)
        else p.composition == 0)
  }

  /** That packet, as a function of the position. */
  function PacketAt(t: SampleTable, scale: int, file: seq<byte>, c: Cursor): Packet
    requires scale > 0 && 0 <= c.chunk.at.entry < |t.stco|
  {
    var at, n := FileOffset(t, c.chunk), SizeOf(t, c.sampleIndex);
    Packet(
      if n > 0 && 0 <= at && at + n <= |file| then file[at..at + n] else [],
      t.stss.Some? && c.sampleIndex + 1 in t.stss.value,
      if t.HasCtts() && 0 <= c.sampleIndex < |Expand(t.ctts.value)|
      then TsToTime(Expand(t.ctts.value)[c.sampleIndex], scale) else 0)
  }

  lemma SampleIsPacket(t: SampleTable, scale: int, file: seq<byte>, c: Cursor, p: Packet)
    requires scale > 0 && IsSample(t, scale, file, c, p)
    ensures p == PacketAt(t, scale, file, c)
  {
    hide Expand, TsToTime;
  }

  lemma PacketIsSample(t: SampleTable, scale: int, file: seq<byte>, i: nat, c: Cursor)
    requires WellFormed(t) && scale > 0 && i < Total(t) && Located(t, i, c)
    requires 0 <= c.chunk.at.entry < |t.stco| && !Beyond(t, c, file)
    ensures IsSample(t, scale, file, c, PacketAt(t, scale, file, c))
  {
    hide Prefix, Expand, GroupAt, TsToTime;
    OffsetNotNegative(t, i, c.chunk.at.off);
    if t.HasCtts() {
      AtBounds(Counts(t.ctts.value), i, c.ctts);
      OffsetMark(t.ctts.value, i, c.ctts);
    }
  }

  /** What the next call of a reader at position c gives. */
  function NextRead(t: SampleTable, scale: int, file: seq<byte>, c: Cursor): ReadResult
    requires t.stsc != [] && scale > 0
  {
    if !(0 <= c.sampleIndex && 0 <= c.chunk.at.entry < |t.stco| && Playable(t, c.sampleIndex)) then Eof
    else if Beyond(t, c, file) then Unreadable
    else Read(PacketAt(t, scale, file, c))
  }

  /** Where that call leaves the reader. */
  function AfterRead(t: SampleTable, scale: int, file: seq<byte>, c: Cursor): Cursor
    requires t.stsc != [] && scale > 0
  {
    if NextRead(t, scale, file, c).Read? && Steppable(t, c) then Step(t, c) else c
  }

  /** The position of a fresh reader after n calls. */
  function CursorAfter(t: SampleTable, scale: int, file: seq<byte>, n: nat): Cursor
    requires t.stsc != [] && scale > 0
  {
    if n == 0 then Start else AfterRead(t, scale, file, CursorAfter(t, scale, file, n - 1))
  }

  /** What call number n, counted from 0, gives. */
  function ReadNumber(t: SampleTable, scale: int, file: seq<byte>, n: nat): ReadResult
    requires t.stsc != [] && scale > 0
  {
    NextRead(t, scale, file, CursorAfter(t, scale, file, n))
  }

  /** Every sample can be read from this file. */
  ghost predicate Intact(t: SampleTable, file: seq<byte>)
    requires t.stsc != []
  {
    forall i: nat, c :: Playable(t, i) && Located(t, i, c) ==> !Beyond(t, c, file)
  }

  /** The samples a reader gets to see: all of them, or none. */
  function Seen(t: SampleTable): nat
    requires t.stsc != []
  {
    if t.stss.Some? && t.stss.value == [] then 0 else if t.sampleSize != 0 then Min(Total(t), |t.sizes|) else Total(t)
  }

  function Min(a: nat, b: nat): nat { if a < b then a else b }

  lemma SeenIsPlayable(t: SampleTable, i: nat)
    requires t.stsc != []
    ensures Playable(t, i) <==> i < Seen(t)
  {
    hide Prefix;
  }

  lemma PlayableHasChunk(t: SampleTable, i: nat, c: Cursor)
    requires WellFormed(t) && Playable(t, i) && Located(t, i, c)
    ensures 0 <= c.chunk.at.entry < |t.stco|
  {
    hide Prefix, Expand, GroupAt;
    AtBounds(ChunkCounts(t.stsc, |t.stco|), i, c.chunk.at);
  }

  /** On a file that holds all its samples a fresh reader reaches one sample per call, and then stays at the end. */
  lemma {:induction false} ReadsInOrder(t: SampleTable, scale: int, file: seq<byte>, n: nat)
    requires WellFormed(t) && scale > 0 && Intact(t, file)
    ensures var c := CursorAfter(t, scale, file, n);
      && Located(t, Min(n, Seen(t)), c)
      && (n < Seen(t) ==>
            0 <= c.chunk.at.entry < |t.stco| && ReadNumber(t, scale, file, n) == Read(PacketAt(t, scale, file, c)))
      && (n >= Seen(t) ==> ReadNumber(t, scale, file, n) == Eof)
  {
    hide Prefix, Expand, GroupAt, Located, Playable, PacketAt, Beyond, Step, Steppable, LocatedChunk, WellFormed, Seen;
    HasGroups(t);
    var c := CursorAfter(t, scale, file, n);
    if n == 0 {
      StartLocated(t);
    } else {
      ReadsInOrder(t, scale, file, n - 1);
      if n - 1 < Seen(t) {
        SeenIsPlayable(t, n - 1);
        StepOn(t, n - 1, CursorAfter(t, scale, file, n - 1));
      }
    }
    SampleNumber(t, Min(n, Seen(t)), c);
    SeenIsPlayable(t, Min(n, Seen(t)));
    if n < Seen(t) {
      PlayableHasChunk(t, n, c);
    }
  }

  lemma HasGroups(t: SampleTable)
    requires WellFormed(t)
    ensures t.stsc != []
  {
    hide Prefix, GroupAt;
  }

  lemma SampleNumber(t: SampleTable, i: nat, c: Cursor)
    requires (t.stco == [] || t.stsc != []) && Located(t, i, c)
    ensures c.sampleIndex == i
  {
    hide Prefix, Expand, GroupAt;
  }

  lemma StepOn(t: SampleTable, i: nat, c: Cursor)
    requires WellFormed(t) && Playable(t, i) && Located(t, i, c)
    ensures Steppable(t, c) && Located(t, i + 1, Step(t, c))
  {
    hide Prefix, Expand, GroupAt, Located, Step, Steppable, WellFormed;
    StepLocates(t, i, c);
  }

  /** The last key sample strictly before sample i, or i itself when there is none. */
  ghost predicate KeyBefore(stss: seq<u32>, i: int, r: int) {
    if exists s :: 0 <= s < |stss| && stss[s] - 1 < i
    then r + 1 in stss && r < i && forall s :: 0 <= s < |stss| && stss[s] - 1 < i ==> stss[s] - 1 <= r
    else r == i
  }

  /** The sample the step back goes to: entries are compared from the last one down, as 32-bit numbers. */
  function StepBackFrom(stss: seq<u32>, i: int): int {
    if stss == [] then i
    else
      var last := |stss| - 1;
      if ToU32(stss[last] as int - 1) < ToU32(i) then ToU32(stss[last] as int - 1) else StepBackFrom(stss[..last], i)
  }

  lemma {:induction false} StepsToKeyBefore(stss: seq<u32>, i: int)
    requires 0 !in stss && Ascending(stss) && 0 <= i < TWO32
    ensures KeyBefore(stss, i, StepBackFrom(stss, i))
  {
    hide KeyBefore, Ascending;
    if stss == [] {
      NoKeyBefore(i);
    } else {
      var last := |stss| - 1;
      assert stss[last] in stss;
      if stss[last] - 1 >= i {
        FrontAscends(stss);
        StepsToKeyBefore(stss[..last], i);
        SameKeyBefore(stss, i, StepBackFrom(stss[..last], i));
      } else {
        LastIsKeyBefore(stss, i);
      }
    }
  }

  lemma NoKeyBefore(i: int)
    ensures KeyBefore([], i, i)
  {
  }

  lemma FrontAscends(stss: seq<u32>)
    requires stss != [] && 0 !in stss && Ascending(stss)
    ensures var front := stss[..|stss| - 1]; 0 !in front && Ascending(front)
  {
    var front := stss[..|stss| - 1];
    forall k | 0 <= k < |front| ensures front[k] != 0 {
      assert stss[k] in stss;
    }
  }

  lemma LastIsKeyBefore(stss: seq<u32>, i: int)
    requires stss != [] && Ascending(stss) && stss[|stss| - 1] - 1 < i
    ensures KeyBefore(stss, i, stss[|stss| - 1] as int - 1)
  {
    var last := |stss| - 1;
    assert stss[last] in stss;
    assert forall s :: 0 <= s < |stss| ==> stss[s] <= stss[last];
  }

  lemma SameKeyBefore(stss: seq<u32>, i: int, r: int)
    requires stss != [] && stss[|stss| - 1] - 1 >= i && KeyBefore(stss[..|stss| - 1], i, r)
    ensures KeyBefore(stss, i, r)
  {
    var front := stss[..|stss| - 1];
    if s :| 0 <= s < |stss| && stss[s] - 1 < i {
      assert front[s] - 1 < i;
      assert r + 1 in front;
      assert forall s :: 0 <= s < |stss| && stss[s] - 1 < i ==> front[s] == stss[s];
    } else {
      assert forall s :: 0 <= s < |front| ==> front[s] == stss[s];
    }
  }

  /** Asked for a key sample, the step back stays there if and only if it is the first one of the track. */
  lemma KeyReachedIff(stss: seq<u32>, i: int, r: int)
    requires KeyBefore(stss, i, r) && Ascending(stss) && i + 1 in stss
    ensures r == i <==> stss[0] == i + 1
  {
    var k :| 0 <= k < |stss| && stss[k] == i + 1;
    if k > 0 {
      assert stss[0] < stss[k];
      assert stss[0] as int - 1 < i;
    }
  }

  lemma NotAfter(stss: seq<u32>, i: int, r: int)
    requires KeyBefore(stss, i, r) && 0 !in stss && 0 <= i
    ensures 0 <= r <= i
  {
    if r != i {
      var k :| 0 <= k < |stss| && stss[k] == r + 1;
      assert stss[k] in stss;
    }
  }

  /** The sample a stream goes to when asked for a time. */
  function SeekIndex(t: SampleTable, scale: int, tm: int): int {
    var playing := SampleIndexAt(t.stts, TimeToTs(tm, scale));
    if t.stss.Some? then StepBackFrom(t.stss.value, playing) else playing
  }

  /** Seeking a well-formed track that is not empty always finds a sample; for a time inside the track it is the one
      playing then, or the last key sample before that one. */
  lemma SeekLands(t: SampleTable, scale: int, tm: int)
    requires WellFormed(t) && RunsFit(t.stts, |t.stts|) && Total(t) > 0
    ensures 0 <= SeekIndex(t, scale, tm) < Total(t) && SeekOutcome(t, SeekIndex(t, scale, tm)).None?
    ensures var target := TimeToTs(tm, scale);
      var playing := SampleIndexAt(t.stts, target);
      && (0 <= target < Ticks(t.stts) ==> Playing(t.stts, playing, target))
      && (target < 0 ==> playing == 0) && (target >= Ticks(t.stts) ==> playing == Total(t) - 1)
      && (if t.stss.Some? then KeyBefore(t.stss.value, playing, SeekIndex(t, scale, tm))
          else SeekIndex(t, scale, tm) == playing)
  {
    hide Prefix, Expand, GroupAt, Found, StepBackFrom, KeyBefore, TimeToTs;
    var target := TimeToTs(tm, scale);
    var playing := SampleIndexAt(t.stts, target);
    SearchRightIfRunsFit(t.stts);
    SearchOutside(t.stts, target);
    ExpandLength(t.stts);
    assert 0 <= target < Ticks(t.stts) ==> Playing(t.stts, playing, target);
    assert 0 <= playing < Total(t);
    if t.stss.Some? {
      StepsToKeyBefore(t.stss.value, playing);
      NotAfter(t.stss.value, playing, SeekIndex(t, scale, tm));
    }
    SeekSucceedsInRange(t, SeekIndex(t, scale, tm));
  }

  class Stream {
    const sample: SampleTable
    const timeScale: int

    var sampleIndex: int
    var chunkIndex: int
    var chunkGroupIndex: int
    var sampleIndexInChunk: int
    var sampleOffsetInChunk: int
    var dts: int
    var sttsEntryIndex: int
    var sampleIndexInSttsEntry: int
    var cttsEntryIndex: int
    var sampleIndexInCttsEntry: int
    var syncSampleIndex: int

    constructor (sample: SampleTable, timeScale: int)
      ensures this.sample == sample && this.timeScale == timeScale
      ensures Position() == Start && Valid()
    {
      this.sample, this.timeScale := sample, timeScale;
      sampleIndex, chunkIndex, chunkGroupIndex, sampleIndexInChunk, sampleOffsetInChunk := 0, 0, 0, 0, 0;
      dts, sttsEntryIndex, sampleIndexInSttsEntry := 0, 0, 0;
      cttsEntryIndex, sampleIndexInCttsEntry, syncSampleIndex := 0, 0, 0;
    }

    function Position(): Cursor
      reads this
    {
      Cursor(sampleIndex,
             ChunkPos(RunPos(chunkIndex, sampleIndexInChunk), chunkGroupIndex, sampleOffsetInChunk),
             RunPos(sttsEntryIndex, sampleIndexInSttsEntry), dts,
             RunPos(cttsEntryIndex, sampleIndexInCttsEntry), syncSampleIndex)
    }

    /** Indices into absent tables are never moved. */
    ghost predicate Valid()
      reads this
    {
      && (!sample.HasCtts() ==> cttsEntryIndex == 0 && sampleIndexInCttsEntry == 0)
      && (sample.stss.None? ==> syncSampleIndex == 0)
    }

    method LocateChunk(index: int) returns (found: bool)
      requires sample.stco == [] || sample.stsc != []
      modifies `chunkIndex, `chunkGroupIndex, `sampleIndexInChunk
      ensures found <==> 0 <= index < Total(sample)
      ensures found ==>
        && At(ChunkCounts(sample.stsc, |sample.stco|), index, RunPos(chunkIndex, sampleIndexInChunk))
        && sample.stsc != [] && chunkGroupIndex == GroupAt(sample.stsc, chunkIndex)
        && sampleIndexInChunk <= index
    {
      hide Prefix, GroupAt;
      ghost var counts := ChunkCounts(sample.stsc, |sample.stco|);
      assert Prefix(counts, 0) == 0 by { PrefixEmpty(counts); }
      found := false;
      var start := 0;
      chunkGroupIndex := 0;
      for i := 0 to |sample.stco|
        invariant start == Prefix(counts, i)
        invariant i == 0 ==> chunkGroupIndex == 0
        invariant i > 0 ==> chunkGroupIndex == GroupAt(sample.stsc, i - 1)
        invariant !(0 <= index < start)
      {
        chunkIndex := i;
        GroupAtNext(sample.stsc, i);
        PrefixNext(counts, i);
        if chunkGroupIndex + 1 < |sample.stsc|
           && ToU32(chunkIndex + 1) == sample.stsc[chunkGroupIndex + 1].firstChunk {
          chunkGroupIndex := chunkGroupIndex + 1;
        }
        var n := sample.stsc[chunkGroupIndex].samplesPerChunk;
        if start <= index < start + n {
          sampleIndexInChunk := index - start;
          PrefixMonotone(counts, i + 1, |counts|);
          return true;
        }
        start := start + n;
      }
    }

    method LocateTime(index: int) returns (found: bool)
      requires index >= 0
      modifies `dts, `sttsEntryIndex, `sampleIndexInSttsEntry
      ensures found <==> index < Prefix(Counts(sample.stts), |sample.stts|)
      ensures found ==> LocatedTime(sample.stts, index, RunPos(sttsEntryIndex, sampleIndexInSttsEntry), dts)
    {
      hide Prefix, Expand;
      ghost var runs := sample.stts;
      PrefixEmpty(Counts(runs));
      PrefixEmpty(Expand(runs));
      dts := 0;
      var start := 0;
      sttsEntryIndex := 0;
      while sttsEntryIndex < |sample.stts|
        invariant 0 <= sttsEntryIndex <= |runs|
        invariant start == Prefix(Counts(runs), sttsEntryIndex) <= index
        invariant start <= |Expand(runs)| && dts == Prefix(Expand(runs), start)
      {
        var entry := sample.stts[sttsEntryIndex];
        PrefixNext(Counts(runs), sttsEntryIndex);
        if start <= index < start + entry.count {
          sampleIndexInSttsEntry := index - start;
          dts := dts + (index - start) * entry.value;
          RunTotals(runs, sttsEntryIndex, index - start);
          PrefixMonotone(Counts(runs), sttsEntryIndex + 1, |runs|);
          return true;
        }
        RunTotals(runs, sttsEntryIndex, entry.count);
        start := start + entry.count;
        dts := dts + entry.count * entry.value;
        sttsEntryIndex := sttsEntryIndex + 1;
      }
      found := false;
    }

    method LocateComposition(index: int) returns (found: bool)
      requires index >= 0 && sample.HasCtts()
      modifies `cttsEntryIndex, `sampleIndexInCttsEntry
      ensures found <==> index < Prefix(Counts(sample.ctts.value), |sample.ctts.value|)
      ensures found ==> At(Counts(sample.ctts.value), index, RunPos(cttsEntryIndex, sampleIndexInCttsEntry))
    {
      ghost var counts := Counts(sample.ctts.value);
      var start := 0;
      cttsEntryIndex := 0;
      while cttsEntryIndex < |sample.ctts.value|
        invariant 0 <= cttsEntryIndex <= |sample.ctts.value|
        invariant start == Prefix(counts, cttsEntryIndex) <= index
      {
        var n := sample.ctts.value[cttsEntryIndex].count;
        if start <= index < start + n {
          sampleIndexInCttsEntry := index - start;
          PrefixMonotone(counts, cttsEntryIndex + 1, |counts|);
          return true;
        }
        start := start + n;
        cttsEntryIndex := cttsEntryIndex + 1;
      }
      found := false;
    }

    method LocateSync(index: int)
      requires sample.stss.Some?
      modifies `syncSampleIndex
      ensures 0 <= index < TWO32 && 0 !in sample.stss.value ==> SyncAt(sample.stss.value, index, syncSampleIndex)
    {
      var entries := sample.stss.value;
      syncSampleIndex := 0;
      while syncSampleIndex < |entries| - 1
        invariant 0 <= syncSampleIndex
        invariant syncSampleIndex > 0 ==> syncSampleIndex < |entries|
        invariant 0 <= index < TWO32 && 0 !in entries && syncSampleIndex > 0 ==> entries[syncSampleIndex] <= index + 1
      {
        assert entries[syncSampleIndex + 1] in entries;
        if ToU32(entries[syncSampleIndex + 1] as int - 1) > ToU32(index) {
          break;
        }
        syncSampleIndex := syncSampleIndex + 1;
      }
    }

    /** Recomputes every index from scratch: it finds the position the tables define, or reports
        the first table in which the sample is missing. */
    method SetSampleIndex(index: int) returns (err: Option<SeekError>)
      requires Valid()
      requires sample.stco == [] || sample.stsc != []
      modifies this
      ensures Valid()
      ensures err == SeekOutcome(sample, index)
      ensures err.None? && WellFormed(sample) ==> Located(sample, index, Position())
      ensures err.Some? ==> sampleIndex == old(sampleIndex)
    {
      hide Prefix, Expand, GroupAt;
      var found := LocateChunk(index);
      if !found {
        return Some(NoChunk);
      }
      if sample.sampleSize != 0 {
        sampleOffsetInChunk := sampleIndexInChunk * sample.sampleSize;
      } else {
        if index >= |sample.sizes| {
          return Some(NoSize);
        }
        SumSizes(index);
      }
      found := LocateTime(index);
      if !found {
        return Some(NoTime);
      }
      if sample.HasCtts() {
        found := LocateComposition(index);
        if !found {
          return Some(NoComposition);
        }
      }
      if sample.stss.Some? {
        LocateSync(index);
      }
      sampleIndex := index;
      return None;
    }

    /** Adds up the sizes of the samples before this one in its chunk. */
    method SumSizes(index: int)
      requires 0 <= sampleIndexInChunk <= index < |sample.sizes|
      modifies `sampleOffsetInChunk
      ensures sampleOffsetInChunk == Prefix(sample.sizes, index) - Prefix(sample.sizes, index - sampleIndexInChunk)
    {
      sampleOffsetInChunk := 0;
      for i := index - sampleIndexInChunk to index
        invariant sampleOffsetInChunk == Prefix(sample.sizes, i) - Prefix(sample.sizes, index - sampleIndexInChunk)
      {
        sampleOffsetInChunk := sampleOffsetInChunk + sample.sizes[i];
      }
    }

    method AdvanceChunk()
      requires Steppable(sample, Position())
      modifies `chunkIndex, `chunkGroupIndex, `sampleIndexInChunk, `sampleOffsetInChunk
      ensures Position().chunk == StepChunk(sample, sampleIndex, old(Position()).chunk)
    {
      sampleIndexInChunk := sampleIndexInChunk + 1;
      if ToU32(sampleIndexInChunk) == sample.stsc[chunkGroupIndex].samplesPerChunk {
        chunkIndex := chunkIndex + 1;
        sampleIndexInChunk := 0;
        sampleOffsetInChunk := 0;
      } else if sample.sampleSize != 0 {
        sampleOffsetInChunk := sampleOffsetInChunk + sample.sampleSize;
      } else {
        sampleOffsetInChunk := sampleOffsetInChunk + sample.sizes[sampleIndex];
      }

      if chunkGroupIndex + 1 < |sample.stsc|
         && ToU32(chunkIndex + 1) == sample.stsc[chunkGroupIndex + 1].firstChunk {
        chunkGroupIndex := chunkGroupIndex + 1;
      }
    }

    method AdvanceTime() returns (duration: int)
      requires 0 <= sttsEntryIndex < |sample.stts|
      modifies `dts, `sttsEntryIndex, `sampleIndexInSttsEntry
      ensures duration == sample.stts[old(sttsEntryIndex)].value && dts == old(dts) + duration
      ensures Position().stts == Next(Counts(sample.stts), old(Position()).stts)
    {
      var sttsEntry := sample.stts[sttsEntryIndex];
      duration := sttsEntry.value;
      sampleIndexInSttsEntry := sampleIndexInSttsEntry + 1;
      dts := dts + duration;
      if ToU32(sampleIndexInSttsEntry) == sttsEntry.count {
        sampleIndexInSttsEntry := 0;
        sttsEntryIndex := sttsEntryIndex + 1;
      }
    }

    method AdvanceComposition()
      requires sample.HasCtts() && 0 <= cttsEntryIndex < |sample.ctts.value|
      modifies `cttsEntryIndex, `sampleIndexInCttsEntry
      ensures Position().ctts == Next(Counts(sample.ctts.value), old(Position()).ctts)
    {
      sampleIndexInCttsEntry := sampleIndexInCttsEntry + 1;
      if ToU32(sampleIndexInCttsEntry) == sample.ctts.value[cttsEntryIndex].count {
        sampleIndexInCttsEntry := 0;
        cttsEntryIndex := cttsEntryIndex + 1;
      }
    }

    method AdvanceSync()
      requires sample.stss.Some? && 0 <= syncSampleIndex
      modifies `syncSampleIndex
      ensures syncSampleIndex == StepSync(sample.stss.value, sampleIndex, old(syncSampleIndex))
    {
      var entries := sample.stss.value;
      if syncSampleIndex + 1 < |entries|
         && ToU32(entries[syncSampleIndex + 1] as int - 1) == ToU32(sampleIndex + 1) {
        syncSampleIndex := syncSampleIndex + 1;
      }
    }

    /** Advances every index by one sample and returns the duration of the sample left behind. */
    method IncSampleIndex() returns (duration: int)
      requires Valid() && Steppable(sample, Position())
      modifies this
      ensures Valid()
      ensures Position() == Step(sample, old(Position()))
      ensures duration == dts - old(dts) >= 0
    {
      AdvanceChunk();
      duration := AdvanceTime();
      if sample.HasCtts() {
        AdvanceComposition();
      }
      if sample.stss.Some? {
        AdvanceSync();
      }
      sampleIndex := sampleIndex + 1;
    }

    predicate IsSampleValid()
      reads this
    {
      && chunkIndex < |sample.stco|
      && chunkGroupIndex < |sample.stsc|
      && sttsEntryIndex < |sample.stts|
      && (sample.HasCtts() ==> cttsEntryIndex < |sample.ctts.value|)
      && (sample.stss.Some? ==> syncSampleIndex < |sample.stss.value|)
      && (sample.sampleSize != 0 ==> sampleIndex < |sample.sizes|)
    }

    /** The stream stands at a sample of a well-formed track, or just past the last one. */
    ghost predicate Standing()
      reads this
    {
      WellFormed(sample) && timeScale > 0 && 0 <= sampleIndex <= Total(sample)
          && Located(sample, sampleIndex, Position())
    }

    lemma ValidMeansPlayable()
      requires Standing()
      ensures IsSampleValid() <==> Playable(sample, sampleIndex)
      ensures IsSampleValid() ==> sampleIndex < Total(sample) && Steppable(sample, Position())
      ensures 0 <= chunkIndex && 0 <= sampleIndexInChunk <= sampleIndex && 0 <= syncSampleIndex
    {
      hide Prefix, Expand, GroupAt;
      AtBounds(ChunkCounts(sample.stsc, |sample.stco|), sampleIndex, Position().chunk.at);
      AtBounds(Counts(sample.stts), sampleIndex, Position().stts);
      if sample.HasCtts() {
        AtBounds(Counts(sample.ctts.value), sampleIndex, Position().ctts);
      }
      if sampleIndex < Total(sample) {
        StepLocates(sample, sampleIndex, Position());
      }
    }

    /** Reads the current sample from the file and advances. */
    method ReadPacket(file: seq<byte>) returns (r: ReadResult)
      requires Valid() && Standing()
      modifies this
      ensures Valid() && Standing()
      ensures r == NextRead(sample, timeScale, file, old(Position()))
      ensures Position() == AfterRead(sample, timeScale, file, old(Position()))
      ensures r.Eof? <==> !Playable(sample, old(sampleIndex))
      ensures r.Read? ==> IsSample(sample, timeScale, file, old(Position()), r.packet)
      ensures r.Read? ==> sampleIndex == old(sampleIndex) + 1 && dts >= old(dts)
    {
      hide Prefix, Expand, GroupAt, TsToTime, IsSample, PacketAt, Playable, Beyond, WellFormed, At, Step, LocatedChunk,
        LocatedTime;
      ValidMeansPlayable();
      if !IsSampleValid() {
        return Eof;
      }
      r := Fetch(file);
      if r.Read? {
        SampleIsPacket(sample, timeScale, file, Position(), r.packet);
        StepLocates(sample, sampleIndex, Position());
        var _ := IncSampleIndex();
      }
    }

    /** The current sample: its bytes, key mark and composition offset. */
    method Fetch(file: seq<byte>) returns (r: ReadResult)
      requires Standing() && IsSampleValid()
      ensures !r.Eof? && (r.Unreadable? <==> Beyond(sample, Position(), file))
      ensures r.Read? ==> IsSample(sample, timeScale, file, Position(), r.packet)
    {
      hide Prefix, Expand, GroupAt, TsToTime, IsSample, Playable, At, SyncAt, Step;
      ValidMeansPlayable();
      OffsetNotNegative(sample, sampleIndex, sampleIndexInChunk);
      var chunkOffset := sample.stco[chunkIndex];
      var sampleSize := if sample.sampleSize != 0 then sample.sampleSize else sample.sizes[sampleIndex];
      var at := chunkOffset + sampleOffsetInChunk;
      if sampleSize > 0 && at + sampleSize > |file| {
        return Unreadable;
      }
      var data := if sampleSize == 0 then [] else file[at..at + sampleSize];
      var isKeyFrame := sample.stss.Some? && ToU32(sample.stss.value[syncSampleIndex] as int - 1) == ToU32(sampleIndex);
      var composition := 0;
      if sample.HasCtts() {
        composition := TsToTime(sample.ctts.value[cttsEntryIndex].value, timeScale);
      }
      r := Read(Packet(data, isKeyFrame, composition));
      MarksAreSamples(file, r.packet);
    }

    lemma MarksApply()
      requires Standing() && Playable(sample, sampleIndex)
      ensures sample.HasCtts() ==> At(Counts(sample.ctts.value), sampleIndex, Position().ctts)
      ensures sample.stss.Some? ==>
        && Ascending(sample.stss.value) && 0 !in sample.stss.value && sampleIndex + 1 < TWO32
        && SyncAt(sample.stss.value, sampleIndex, syncSampleIndex)
    {
      hide Prefix, Expand, GroupAt, LocatedChunk, LocatedTime, At, SyncAt, Covers;
    }

    lemma MarksAreSamples(file: seq<byte>, p: Packet)
      requires Standing() && Playable(sample, sampleIndex) && Steppable(sample, Position())
      requires sample.stss.Some? ==> 0 <= syncSampleIndex < |sample.stss.value|
      requires HasBytes(sample, file, Position(), p.data)
      requires p.isKeyFrame <==> sample.stss.Some? && ToU32(sample.stss.value[syncSampleIndex] as int - 1) == ToU32(sampleIndex)
      requires p.composition == if sample.HasCtts() then TsToTime(sample.ctts.value[cttsEntryIndex].value, timeScale)
          else 0
      ensures IsSample(sample, timeScale, file, Position(), p)
    {
      hide Prefix, Expand, GroupAt, TsToTime, HasBytes, LocatedChunk, LocatedTime, WellFormed, Covers;
      MarksApply();
      if sample.stss.Some? {
        KeyMark(sample.stss.value, sampleIndex, syncSampleIndex);
      }
      if sample.HasCtts() {
        OffsetMark(sample.ctts.value, sampleIndex, Position().ctts);
      }
    }

    /** The sample to resume from at a time: the one playing then, moved back to the last key sample before it. */
    method TimeToSampleIndex(tm: int) returns (targetIndex: int)
      ensures targetIndex == SeekIndex(sample, timeScale, tm)
    {
      hide Prefix, Expand, Found, StepBackFrom;
      var targetTs := TimeToTs(tm, timeScale);
      targetIndex := FindTime(targetTs);
      if sample.stss.Some? {
        targetIndex := StepBack(targetIndex);
      }
    }

    method FindTime(targetTs: int) returns (targetIndex: int)
      ensures targetIndex == SampleIndexAt(sample.stts, targetTs)
    {
      hide Prefix;
      var runs := sample.stts;
      assert Prefix(Counts(runs), 0) == 0 by { PrefixEmpty(Counts(runs)); }
      targetIndex := 0;
      var startTs, endTs, startIndex, endIndex, found := 0, 0, 0, 0, false;
      for k := 0 to |runs|
        invariant startTs == WrappedStart(runs, k)
        invariant startIndex == endIndex == Prefix(Counts(runs), k)
        invariant Found(runs, k, targetTs) == if found then Some(targetIndex) else None
      {
        var entry := runs[k];
        endTs := startTs + ToU32(entry.count * entry.value);
        endIndex := startIndex + entry.count;
        PrefixNext(Counts(runs), k);
        if startTs <= targetTs < endTs {
          MatchHasDuration(runs, k, targetTs);
          targetIndex := startIndex + (targetTs - startTs) / entry.value;
          found := true;
        }
        startTs, startIndex := endTs, endIndex;
      }
      if !found {
        targetIndex := if targetTs < 0 then 0 else endIndex - 1;
      }
    }

    method StepBack(from: int) returns (targetIndex: int)
      requires sample.stss.Some?
      ensures targetIndex == StepBackFrom(sample.stss.value, from)
      ensures 0 !in sample.stss.value && Ascending(sample.stss.value) && 0 <= from < TWO32 ==>
        KeyBefore(sample.stss.value, from, targetIndex)
    {
      hide KeyBefore;
      var entries := sample.stss.value;
      if 0 !in entries && Ascending(entries) && 0 <= from < TWO32 {
        StepsToKeyBefore(entries, from);
      }
      targetIndex := from;
      var i := |entries| - 1;
      assert entries[..i + 1] == entries;
      while i >= 0
        invariant -1 <= i < |entries|
        invariant StepBackFrom(entries[..i + 1], from) == StepBackFrom(entries, from)
      {
        assert entries[..i + 1][..i] == entries[..i];
        if ToU32(entries[i] as int - 1) < ToU32(targetIndex) {
          targetIndex := ToU32(entries[i] as int - 1);
          return;
        }
        i := i - 1;
      }
    }

    /** Seeks to a time; with SeekLands, a track that is not empty then stands at the sample playing at that time,
        or at the last key sample before it. */
    method SeekToTime(tm: int) returns (err: Option<SeekError>)
      requires Valid() && (sample.stco == [] || sample.stsc != [])
      modifies this
      ensures Valid()
      ensures err == SeekOutcome(sample, SeekIndex(sample, timeScale, tm))
      ensures err.None? && WellFormed(sample) && timeScale > 0 ==>
        Standing() && sampleIndex == SeekIndex(sample, timeScale, tm)
      ensures err.Some? ==> sampleIndex == old(sampleIndex)
    {
      hide Prefix, Expand, GroupAt, SeekIndex;
      var index := TimeToSampleIndex(tm);
      err := SetSampleIndex(index);
      if err.None? && WellFormed(sample) {
        SeekSucceedsInRange(sample, index);
      }
    }
  }
}
