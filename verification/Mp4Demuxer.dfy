/** The demuxer of format/mp4: several streams read through one file, earliest decode time first. */
module Mp4Demuxer {
  import opened Bytes
  import opened Sums
  import opened SampleTables
  import opened Mp4Time
  import opened Mp4Reader

  /** What the demuxer reads of a stream: its tables and ticks per second. */
  datatype TrackInfo = TrackInfo(table: SampleTable, scale: int)

  ghost predicate Sound(ts: seq<TrackInfo>) {
    forall i :: 0 <= i < |ts| ==> WellFormed(ts[i].table) && ts[i].table.stsc != [] && ts[i].scale > 0
  }

  /** A chosen among equals is the one that comes first in the list. */
  predicate Ahead(time: int, i: nat, other: int, j: nat) {
    time < other || (time == other && i < j)
  }

  /** The first of the earliest among the first k times. */
  function EarliestOf(times: seq<int>, k: nat): (idx: nat)
    requires 1 <= k <= |times|
    ensures idx < k
    ensures forall j :: 0 <= j < k && j != idx ==> Ahead(times[idx], idx, times[j], j)
  {
    if k == 1 then 0
    else
      var e := EarliestOf(times, k - 1);
      if times[k - 1] < times[e] then k - 1 else e
  }

  /** The time a stream stands at. */
  function TimesOf(ts: seq<TrackInfo>, cs: seq<Cursor>): (times: seq<int>)
    requires |cs| == |ts| && forall i :: 0 <= i < |ts| ==> ts[i].scale > 0
    ensures |times| == |ts| && forall i :: 0 <= i < |ts| ==> times[i] == TsToTime(cs[i].dts, ts[i].scale)
  {
    seq(|ts|, i requires 0 <= i < |ts| => TsToTime(cs[i].dts, ts[i].scale))
  }

  function Chosen(ts: seq<TrackInfo>, cs: seq<Cursor>): (idx: nat)
    requires |cs| == |ts| > 0 && forall i :: 0 <= i < |ts| ==> ts[i].scale > 0
    ensures idx < |ts|
  {
    EarliestOf(TimesOf(ts, cs), |ts|)
  }

  /** What one call gives, and where it leaves the streams: only the chosen one is read. */
  function MergedRead(ts: seq<TrackInfo>, file: seq<byte>, cs: seq<Cursor>): ReadResult
    requires |cs| == |ts| > 0 && Sound(ts)
  {
    var i := Chosen(ts, cs);
    NextRead(ts[i].table, ts[i].scale, file, cs[i])
  }

  function AfterMerge(ts: seq<TrackInfo>, file: seq<byte>, cs: seq<Cursor>): (r: seq<Cursor>)
    requires |cs| == |ts| > 0 && Sound(ts)
    ensures |r| == |ts|
  {
    var i := Chosen(ts, cs);
    cs[i := AfterRead(ts[i].table, ts[i].scale, file, cs[i])]
  }

  class Demuxer {
    const file: seq<byte>
    const streams: seq<Stream>
    const video: seq<bool>

    constructor (file: seq<byte>, streams: seq<Stream>, video: seq<bool>)
      ensures this.file == file && this.streams == streams && this.video == video
    {
      this.file, this.streams, this.video := file, streams, video;
    }

    ghost predicate Apart() {
      |video| == |streams| && forall i, j :: 0 <= i < j < |streams| ==> streams[i] != streams[j]
    }

    ghost predicate Valid()
      reads streams
    {
      Apart() && forall i :: 0 <= i < |streams| ==> streams[i].Valid() && streams[i].Standing()
    }

    function Tracks(): (ts: seq<TrackInfo>)
      ensures |ts| == |streams|
      ensures forall i :: 0 <= i < |ts| ==> ts[i] == TrackInfo(streams[i].sample, streams[i].timeScale)
    {
      seq(|streams|, i requires 0 <= i < |streams| => TrackInfo(streams[i].sample, streams[i].timeScale))
    }

    function Cursors(): (cs: seq<Cursor>)
      reads streams
      ensures |cs| == |streams| && forall i :: 0 <= i < |cs| ==> cs[i] == streams[i].Position()
    {
      seq(|streams|, i requires 0 <= i < |streams| reads streams => streams[i].Position())
    }

    lemma ValidIsSound()
      requires Valid()
      ensures Apart() && Sound(Tracks()) && HaveGroups(Tracks())
    {
      hide WellFormed, Located;
      forall i | 0 <= i < |streams| ensures streams[i].sample.stsc != [] {
        HasGroups(streams[i].sample);
      }
    }

    method Earliest() returns (idx: nat)
      requires Valid() && streams != []
      ensures idx == Chosen(Tracks(), Cursors())
    {
      hide WellFormed, Located, TsToTime;
      ValidIsSound();
      ghost var times := TimesOf(Tracks(), Cursors());
      idx := 0;
      for i := 1 to |streams|
        invariant idx == EarliestOf(times, i)
      {
        if TsToTime(streams[i].dts, streams[i].timeScale) < TsToTime(streams[idx].dts, streams[idx].timeScale) {
          idx := i;
        }
      }
    }

    /** Reads one stream; no other moves. */
    method ReadStream(i: nat) returns (r: ReadResult)
      requires Valid() && i < |streams|
      modifies streams[i]
      ensures Valid() && Sound(Tracks())
      ensures var t := Tracks()[i];
        && r == NextRead(t.table, t.scale, file, old(Cursors())[i])
        && Cursors() == old(Cursors())[i := AfterRead(t.table, t.scale, file, old(Cursors())[i])]
    {
      hide WellFormed, Located, TsToTime, NextRead, AfterRead, IsSample, Playable, Stream.Standing, Stream.Valid;
      ValidIsSound();
      r := streams[i].ReadPacket(file);
      assert forall j :: 0 <= j < |streams| && j != i ==> streams[j].Position() == old(streams[j].Position());
    }

    /** Reads from the stream whose next sample is the earliest, the first such stream on a tie. The end of that one
        stream is reported as the end of the file, whatever the other streams still hold. */
    method ReadPacket() returns (r: ReadResult, tm: int, idx: nat)
      requires Valid() && streams != []
      modifies streams
      ensures Valid() && Sound(Tracks())
      ensures idx == Chosen(Tracks(), old(Cursors())) && tm == TimesOf(Tracks(), old(Cursors()))[idx]
      ensures r == MergedRead(Tracks(), file, old(Cursors()))
      ensures Cursors() == AfterMerge(Tracks(), file, old(Cursors()))
    {
      hide WellFormed, Located, TsToTime, NextRead, AfterRead, EarliestOf, Stream.Standing, Stream.Valid;
      ValidIsSound();
      idx := Earliest();
      tm := TsToTime(streams[idx].dts, streams[idx].timeScale);
      r := ReadStream(idx);
    }

    /** The first video stream, or the number of streams. */
    method FirstVideo() returns (v: nat)
      requires Apart()
      ensures v == FirstOf(video)
    {
      v := 0;
      while v < |streams| && !video[v]
        invariant 0 <= v <= |streams|
        invariant forall i :: 0 <= i < v ==> !video[i]
      {
        v := v + 1;
      }
      FirstIs(video, v);
    }

    /** Seeks one stream; no other moves. */
    method SeekStream(i: nat, tm: int) returns (err: Option<SeekError>)
      requires Valid() && i < |streams|
      modifies streams[i]
      ensures err == SeekOutcomeOf(Tracks()[i], tm)
      ensures err.None? ==> Valid() && streams[i].sampleIndex == SeekIndexOf(Tracks()[i], tm)
      ensures forall j :: 0 <= j < |streams| && j != i ==> streams[j].Position() == old(streams[j].Position())
    {
      hide WellFormed, Located, TsToTime, SeekIndex, SeekOutcome, Stream.Standing, Stream.Valid;
      StreamIsSound(i);
      err := streams[i].SeekToTime(tm);
    }

    lemma StreamIsSound(i: nat)
      requires Valid() && i < |streams|
      ensures WellFormed(streams[i].sample) && streams[i].sample.stsc != [] && streams[i].timeScale > 0
    {
      hide WellFormed, Located;
      HasGroups(streams[i].sample);
    }

    /** Seeks the first video stream to a time, and all streams of other kinds to the time it lands on. The first stream
        that cannot be moved ends it. */
    method SeekToTime(tm: int) returns (err: Option<SeekError>)
      requires Valid()
      modifies streams
      ensures err == SeekAll(Tracks(), video, tm)
      ensures err.None? ==> Valid()
      ensures var v := FirstOf(video);
        err.None? && v < |video| ==> streams[v].sampleIndex == SeekIndexOf(Tracks()[v], tm)
      ensures var heard := Heard(Tracks(), video, tm);
        err.None? ==> forall i :: 0 <= i < |streams| && i != FirstOf(video) ==>
          if video[i] then streams[i].Position() == old(streams[i].Position())
          else streams[i].sampleIndex == SeekIndexOf(Tracks()[i], heard)
    {
      hide WellFormed, Located, TsToTime, SeekIndexOf, SeekOutcomeOf, LandsAt, Stream.Standing, Stream.Valid;
      ValidIsSound();
      var v := FirstVideo();
      var time := tm;
      err := None;
      if v < |streams| {
        err := SeekStream(v, tm);
        if err.Some? {
          return;
        }
        StreamIsSound(v);
        LandsWhere(v, tm);
        time := TsToTime(streams[v].dts, streams[v].timeScale);
      }
      assert time == Heard(Tracks(), video, tm);
      err := SeekOthers(v, time);
    }

    method SeekOthers(v: nat, time: int) returns (err: Option<SeekError>)
      requires Valid()
      modifies streams
      ensures err == FirstError(Tracks(), video, time, |streams|)
      ensures err.None? ==> Valid()
      ensures err.None? ==> forall i :: 0 <= i < |streams| ==>
          if video[i] then streams[i].Position() == old(streams[i].Position())
          else streams[i].sampleIndex == SeekIndexOf(Tracks()[i], time)
    {
      hide WellFormed, Located, SeekIndexOf, SeekOutcomeOf, Demuxer.Valid, Sound;
      ValidIsSound();
      err := None;
      for i := 0 to |streams|
        invariant Valid() && err == None == FirstError(Tracks(), video, time, i)
        invariant forall j :: 0 <= j < |streams| && (video[j] || i <= j) ==>
          streams[j].Position() == old(streams[j].Position())
        invariant forall j :: 0 <= j < i && !video[j] ==> streams[j].sampleIndex == SeekIndexOf(Tracks()[j], time)
      {
        if !video[i] {
          err := SeekStream(i, time);
          if err.Some? {
            ErrorStays(Tracks(), video, time, i + 1, |streams|);
            return;
          }
        }
      }
    }

    lemma LandsWhere(v: nat, tm: int)
      requires v < |streams| && streams[v].Standing() && streams[v].sampleIndex == SeekIndexOf(Tracks()[v], tm)
      ensures LandsAt(Tracks()[v], tm) == TsToTime(streams[v].dts, streams[v].timeScale)
    {
      hide WellFormed, SeekIndex, TsToTime, Prefix, Expand, GroupAt;
    }
  }

  function SeekIndexOf(t: TrackInfo, tm: int): int { SeekIndex(t.table, t.scale, tm) }

  function SeekOutcomeOf(t: TrackInfo, tm: int): Option<SeekError>
    requires t.table.stco == [] || t.table.stsc != []
  {
    SeekOutcome(t.table, SeekIndexOf(t, tm))
  }

  /** The time of the sample a track goes to. */
  function LandsAt(t: TrackInfo, tm: int): int
    requires t.scale > 0
  {
    var i := SeekIndexOf(t, tm);
    if 0 <= i <= |Expand(t.table.stts)| then TsToTime(Prefix(Expand(t.table.stts), i), t.scale) else 0
  }

  /** The time the streams other than video are asked for. */
  function Heard(ts: seq<TrackInfo>, video: seq<bool>, tm: int): int
    requires |ts| == |video| && forall i :: 0 <= i < |ts| ==> ts[i].scale > 0
  {
    var v := FirstOf(video);
    if v < |video| then LandsAt(ts[v], tm) else tm
  }

  ghost predicate HaveGroups(ts: seq<TrackInfo>) {
    forall i :: 0 <= i < |ts| ==> ts[i].table.stsc != [] && ts[i].scale > 0
  }

  /** The first error among the first k streams that are not video. */
  function FirstError(ts: seq<TrackInfo>, video: seq<bool>, tm: int, k: nat): Option<SeekError>
    requires k <= |ts| == |video| && HaveGroups(ts)
  {
    if k == 0 then None
    else
      var err := FirstError(ts, video, tm, k - 1);
      if err.Some? || video[k - 1] then err else SeekOutcomeOf(ts[k - 1], tm)
  }

  function SeekAll(ts: seq<TrackInfo>, video: seq<bool>, tm: int): Option<SeekError>
    requires |ts| == |video| && HaveGroups(ts)
  {
    var v := FirstOf(video);
    if v < |video| && SeekOutcomeOf(ts[v], tm).Some? then SeekOutcomeOf(ts[v], tm)
    else FirstError(ts, video, Heard(ts, video, tm), |ts|)
  }

  lemma {:induction false} ErrorStays(ts: seq<TrackInfo>, video: seq<bool>, tm: int, j: nat, k: nat)
    requires j <= k <= |ts| == |video| && HaveGroups(ts) && FirstError(ts, video, tm, j).Some?
    ensures FirstError(ts, video, tm, k) == FirstError(ts, video, tm, j)
  {
    hide SeekOutcomeOf;
    if j < k {
      ErrorStays(ts, video, tm, j, k - 1);
    }
  }

  ghost predicate Seekable(t: TrackInfo) {
    WellFormed(t.table) && t.table.stsc != [] && t.scale > 0 && Total(t.table) > 0 && RunsFit(t.table.stts, |t.table.stts|)
  }

  /** Tracks that hold samples, in runs that fit, can be sought to any time whatever. */
  lemma SeekAlwaysSucceeds(ts: seq<TrackInfo>, video: seq<bool>, tm: int)
    requires |ts| == |video| && HaveGroups(ts) && forall i :: 0 <= i < |ts| ==> Seekable(ts[i])
    ensures SeekAll(ts, video, tm).None?
  {
    hide Seekable, SeekIndexOf, SeekOutcomeOf, LandsAt, GoesTo;
    var heard := Heard(ts, video, tm);
    var v := FirstOf(video);
    if v < |video| {
      TrackLands(ts[v], tm);
    }
    forall i | 0 <= i < |ts| ensures SeekOutcomeOf(ts[i], heard).None? {
      TrackLands(ts[i], heard);
    }
    NoError(ts, video, heard, |ts|);
  }

  lemma {:induction false} NoError(ts: seq<TrackInfo>, video: seq<bool>, tm: int, k: nat)
    requires k <= |ts| == |video| && HaveGroups(ts)
    requires forall i :: 0 <= i < |ts| ==> SeekOutcomeOf(ts[i], tm).None?
    ensures FirstError(ts, video, tm, k).None?
  {
    hide SeekOutcomeOf;
    if k > 0 {
      NoError(ts, video, tm, k - 1);
    }
  }

  /** Where a seek belongs: at the sample playing then (the first or last one outside the track), or, in a track with a
      key table, at the last key sample before it. */
  ghost predicate GoesTo(t: TrackInfo, tm: int, index: int)
    requires t.table.stsc != []
  {
    exists playing :: Shown(t, TimeToTs(tm, t.scale), playing)
      && if t.table.stss.Some? then KeyBefore(t.table.stss.value, playing, index) else index == playing
  }

  ghost predicate Shown(t: TrackInfo, target: int, playing: int)
    requires t.table.stsc != []
  {
    && (0 <= target < Ticks(t.table.stts) ==> Playing(t.table.stts, playing, target))
    && (target < 0 ==> playing == 0)
    && (target >= Ticks(t.table.stts) ==> playing == Total(t.table) - 1)
  }

  /** A track that holds samples goes where a seek belongs. */
  lemma TrackLands(t: TrackInfo, tm: int)
    requires t.table.stsc != [] && Seekable(t)
    ensures GoesTo(t, tm, SeekIndexOf(t, tm)) && SeekOutcomeOf(t, tm).None?
  {
    hide WellFormed, SeekIndex, SeekOutcome, Total, RunsFit, KeyBefore, Playing, Ticks, TimeToTs, SampleIndexAt;
    SeekLands(t.table, t.scale, tm);
    assert Shown(t, TimeToTs(tm, t.scale), SampleIndexAt(t.table.stts, TimeToTs(tm, t.scale)));
  }

  function FirstOf(video: seq<bool>): (v: nat)
    ensures v <= |video| && (v < |video| ==> video[v])
  {
    if video == [] || video[0] then 0 else FirstOf(video[1..]) + 1
  }

  lemma {:induction false} FirstIs(video: seq<bool>, v: nat)
    requires v <= |video| && (v < |video| ==> video[v]) && forall i :: 0 <= i < v ==> !video[i]
    ensures v == FirstOf(video)
  {
    if v > 0 {
      assert !video[0];
      FirstIs(video[1..], v - 1);
    }
  }
}
