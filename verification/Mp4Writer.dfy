/** The writing half of format/mp4: packets of several streams interleaved into one media data box,
    each stream keeping its own tables. */
module Mp4Writer {
  import opened Bytes
  import opened Sums
  import opened SampleTables
  import opened Mp4Time
  import opened Mp4Reader
  import opened Mp4Samples

  datatype AvPacket = AvPacket(idx: nat, isKeyFrame: bool, time: int, composition: int, data: seq<byte>)

  /** One sample in the order of the file, with the stream it belongs to. */
  datatype Placed = Placed(track: nat, sample: Sample)

  const HEADER := 8
  const MDAT: seq<byte> := [0x6d, 0x64, 0x61, 0x74]

  function PayloadOf(log: seq<Placed>): seq<byte> {
    if log == [] then [] else PayloadOf(log[..|log| - 1]) + log[|log| - 1].sample.data
  }

  /** The samples of one stream, in order. */
  function TrackOf(log: seq<Placed>, track: nat): seq<Sample> {
    if log == [] then []
    else
      var front, last := TrackOf(log[..|log| - 1], track), log[|log| - 1];
      if last.track == track then front + [last.sample] else front
  }

  /** The samples tile the payload: each starts where the one before it ends. */
  ghost predicate Tiles(log: seq<Placed>) {
    forall k :: 0 <= k < |log| ==> log[k].sample.pos == HEADER + |PayloadOf(log[..k])|
  }

  lemma PayloadNext(log: seq<Placed>, p: Placed)
    ensures PayloadOf(log + [p]) == PayloadOf(log) + p.sample.data
    ensures forall track :: TrackOf(log + [p], track)
                         == (if p.track == track then TrackOf(log, track) + [p.sample] else TrackOf(log, track))
  {
    assert (log + [p])[..|log|] == log;
  }

  lemma TilesNext(log: seq<Placed>, p: Placed)
    requires Tiles(log) && p.sample.pos == HEADER + |PayloadOf(log)|
    ensures Tiles(log + [p])
  {
    hide PayloadOf;
    forall k | 0 <= k < |log| + 1 ensures (log + [p])[k].sample.pos == HEADER + |PayloadOf((log + [p])[..k])| {
      if k < |log| {
        assert (log + [p])[..k] == log[..k];
      } else {
        assert (log + [p])[..k] == log;
      }
    }
  }

  /** In a tiled file every sample's bytes are found at its position. */
  lemma {:induction false} TiledStored(log: seq<Placed>, header: seq<byte>, rest: seq<byte>, k: nat)
    requires Tiles(log) && k < |log| && |header| == HEADER
    ensures var file := header + PayloadOf(log) + rest; var s := log[k].sample;
      s.pos + |s.data| <= |file| && file[s.pos..s.pos + |s.data|] == s.data
  {
    var front, last := log[..|log| - 1], log[|log| - 1];
    var data := last.sample.data;
    assert header + PayloadOf(log) + rest == header + PayloadOf(front) + (data + rest);
    if k < |log| - 1 {
      assert forall j :: 0 <= j < |front| ==> front[..j] == log[..j];
      TiledStored(front, header, data + rest, k);
    } else {
      assert header + PayloadOf(front) + (data + rest) == (header + PayloadOf(front)) + data + rest;
      Middle(header + PayloadOf(front), data, rest);
    }
  }

  lemma Middle(before: seq<byte>, data: seq<byte>, rest: seq<byte>)
    ensures (before + data + rest)[|before|..|before| + |data|] == data
  {
  }

  /** Every sample of a stream stands somewhere in the file order. */
  lemma {:induction false} TrackIsPlaced(log: seq<Placed>, track: nat, i: nat) returns (k: nat)
    requires i < |TrackOf(log, track)|
    ensures k < |log| && log[k] == Placed(track, TrackOf(log, track)[i])
  {
    var front := TrackOf(log[..|log| - 1], track);
    if i < |front| {
      k := TrackIsPlaced(log[..|log| - 1], track, i);
    } else {
      k := |log| - 1;
    }
  }

  /** What the writer records for a packet that lasts rawdur. */
  function SampleOf(pos: nat, pkt: AvPacket, rawdur: int): Sample {
    Sample(pos, pkt.data, pkt.isKeyFrame, ToU32(TimeToTs(rawdur, TIME_SCALE)),
        ToU32(TimeToTs(pkt.composition, TIME_SCALE)))
  }

  /** Time from a packet to the next of its stream, and none after the last. */
  function TimeAfter(pkts: seq<AvPacket>, i: nat): int
    requires i < |pkts|
  {
    if i + 1 < |pkts| then pkts[i + 1].time - pkts[i].time else 0
  }

  /** Samples are the packets accepted, each lasting until the next one, positions aside. */
  ghost predicate Records(ss: seq<Sample>, accepted: seq<AvPacket>) {
    && |ss| <= |accepted|
    && forall i :: 0 <= i < |ss| ==>
         ss[i] == SampleOf(ss[i].pos, accepted[i], TimeAfter(accepted, i))
  }

  lemma RecordsNext(ss: seq<Sample>, accepted: seq<AvPacket>, pkt: AvPacket, s: Sample)
    requires Records(ss, accepted) && |accepted| == |ss| + 1
    requires s == SampleOf(s.pos, accepted[|ss|], pkt.time - accepted[|ss|].time)
    ensures Records(ss + [s], accepted + [pkt])
  {
    hide SampleOf;
    var after := accepted + [pkt];
    forall i | 0 <= i < |ss + [s]| ensures (ss + [s])[i] == SampleOf((ss + [s])[i].pos, after[i], TimeAfter(after, i)) {
      if i < |ss| {
        assert TimeAfter(after, i) == TimeAfter(accepted, i);
      }
    }
  }

  lemma RecordsLast(ss: seq<Sample>, accepted: seq<AvPacket>, s: Sample)
    requires Records(ss, accepted) && |accepted| == |ss| + 1
    requires s == SampleOf(s.pos, accepted[|ss|], 0)
    ensures Records(ss + [s], accepted)
  {
  }

  class Track {
    const video: bool
    var lastpkt: Option<AvPacket>
    var sampleIndex: nat
    var duration: int
    var sample: SampleTable
    ghost var accepted: seq<AvPacket>

    constructor (video: bool)
      ensures this.video == video && sample == EmptyTable(video)
      ensures lastpkt == None && sampleIndex == 0 && accepted == []
    {
      this.video := video;
      lastpkt, sampleIndex, duration, sample, accepted := None, 0, 0, EmptyTable(video), [];
    }

    /** Adds the sample to the key, duration, composition, offset and size tables. */
    method AddToTables(s: Sample)
      requires sample.ctts.Some? == sample.stss.Some? == video && sampleIndex == |sample.sizes|
      modifies `sample, `sampleIndex, `duration
      ensures sample == AddSample(old(sample), s) && sampleIndex == |sample.sizes|
    {
      if s.key && sample.stss.Some? {
        sample := sample.(stss := Some(sample.stss.value + [ToU32(sampleIndex + 1)]));
      }
      var entries := CountIn(sample.stts, s.duration);
      sample := sample.(stts := entries);
      if sample.ctts.Some? {
        entries := CountIn(sample.ctts.value, s.composition);
        sample := sample.(ctts := Some(entries));
      }
      duration := duration + s.duration;
      sampleIndex := sampleIndex + 1;
      sample := sample.(stco := sample.stco + [ToU32(s.pos)], sizes := sample.sizes + [ToU32(|s.data|)]);
    }

    /** Opens a new entry when the value changes, then counts one more in the last entry. */
    static method CountIn(entries: seq<Run<u32>>, v: u32) returns (r: seq<Run<u32>>)
      ensures r == Extend(entries, v)
    {
      r := entries;
      if r == [] || v != r[|r| - 1].value {
        r := r + [Run(0, v)];
      }
      var last := |r| - 1;
      r := r[last := Run(r[last].count + 1, v)];
    }
  }

  class Muxer {
    var out: seq<byte>
    var wpos: nat
    const streams: seq<Track>
    ghost var log: seq<Placed>
    ghost var finished: bool

    /** The media data header comes first; its size is filled in at the end. */
    constructor (streams: seq<Track>)
      requires forall i, j :: 0 <= i < j < |streams| ==> streams[i] != streams[j]
      requires forall i :: 0 <= i < |streams| ==>
        && streams[i].sample == EmptyTable(streams[i].video) && streams[i].lastpkt == None
        && streams[i].sampleIndex == 0 && streams[i].accepted == []
      ensures Valid() && this.streams == streams && log == [] && !finished
    {
      this.streams := streams;
      out, wpos := [0, 0, 0, 0] + MDAT, HEADER;
      log, finished := [], false;
    }

    /** One stream's tables and pending packet match its share of the file. */
    ghost predicate TrackValid(i: nat)
      requires i < |streams|
      reads this, streams
    {
      var t, ss := streams[i], TrackOf(log, i);
      && t.sample == TableOf(t.video, ss) && t.sampleIndex == |ss|
      && t.sample.ctts.Some? == t.sample.stss.Some? == t.video && |t.sample.sizes| == |ss|
      && Records(ss, t.accepted)
      && if t.lastpkt.Some? then |t.accepted| == |ss| + 1 && t.accepted[|ss|] == t.lastpkt.value
         else |t.accepted| == |ss|
    }

    ghost predicate Valid()
      reads this, streams
    {
      && (forall i, j :: 0 <= i < j < |streams| ==> streams[i] != streams[j])
      && |out| >= HEADER && out[4..HEADER] == MDAT && out[HEADER..] == PayloadOf(log) && wpos == |out| && Tiles(log)
      && (forall i :: 0 <= i < |streams| ==> TrackValid(i))
      && (!finished ==> forall i :: 0 <= i < |streams| && streams[i].lastpkt == None ==> streams[i].accepted == [])
    }

    /** Writes the stream's pending packet, whose duration is now known. */
    method Flush(idx: nat, pkt: AvPacket, rawdur: int) returns (ok: bool)
      requires Valid() && idx < |streams| && streams[idx].lastpkt == Some(pkt)
      modifies `out, `wpos, `log, streams[idx]
      ensures streams[idx].lastpkt == old(streams[idx].lastpkt) && streams[idx].accepted == old(streams[idx].accepted)
      ensures ok <==> rawdur >= 0
      ensures !ok ==> out == old(out) && log == old(log) && wpos == old(wpos) && unchanged(streams[idx])
      ensures ok ==>
        && log == old(log) + [Placed(idx, SampleOf(old(wpos), pkt, rawdur))]
        && streams[idx].sample == AddSample(old(streams[idx].sample), SampleOf(old(wpos), pkt, rawdur))
        && streams[idx].sampleIndex == old(streams[idx].sampleIndex) + 1
        && out == old(out) + pkt.data && wpos == |out| && out[4..HEADER] == old(out[4..HEADER])
        && out[HEADER..] == PayloadOf(log) && Tiles(log)
    {
      hide Records, TableOf, SampleOf, AddSample, PayloadOf, TrackOf;
      assert TrackValid(idx);
      if rawdur < 0 {
        return false;
      }
      ghost var s := SampleOf(wpos, pkt, rawdur);
      SampleFields(wpos, pkt, rawdur, streams[idx].sample);
      PayloadNext(log, Placed(idx, s));
      TilesNext(log, Placed(idx, s));
      out := out + pkt.data;
      streams[idx].AddToTables(SampleOf(wpos, pkt, rawdur));
      wpos := wpos + |pkt.data|;
      log := log + [Placed(idx, s)];
      ok := true;
    }

    /** Holds the packet back and writes the stream's previous one. A packet that steps back in time is refused. */
    method WritePacket(pkt: AvPacket) returns (ok: bool)
      requires Valid() && pkt.idx < |streams| && !finished
      modifies this, streams[pkt.idx]
      ensures Valid() && !finished
      ensures var last := old(streams[pkt.idx].lastpkt); ok <==> last.None? || last.value.time <= pkt.time
      ensures ok ==> streams[pkt.idx].accepted == old(streams[pkt.idx].accepted) + [pkt]
      ensures !ok ==> streams[pkt.idx].accepted == old(streams[pkt.idx].accepted) && log == old(log)
    {
      hide Records, TableOf, SampleOf, AddSample, Tiles, PayloadOf, TrackOf;
      var stream := streams[pkt.idx];
      assert TrackValid(pkt.idx);
      assert forall i :: 0 <= i < |streams| ==> TrackValid(i);
      if stream.lastpkt.Some? {
        ghost var s := SampleOf(wpos, stream.lastpkt.value, pkt.time - stream.lastpkt.value.time);
        PayloadNext(log, Placed(pkt.idx, s));
        SampleFields(wpos, stream.lastpkt.value, pkt.time - stream.lastpkt.value.time, stream.sample);
        TableOfNext(stream.video, TrackOf(log, pkt.idx), s);
        ok := Flush(pkt.idx, stream.lastpkt.value, pkt.time - stream.lastpkt.value.time);
        if !ok {
          assert forall i :: 0 <= i < |streams| ==> TrackValid(i);
          return;
        }
        RecordsNext(old(TrackOf(log, pkt.idx)), stream.accepted, pkt, s);
      } else {
        assert TrackOf(log, pkt.idx) == [] && stream.accepted + [pkt] == [pkt];
        RecordsEmpty(pkt);
      }
      stream.lastpkt := Some(pkt);
      stream.accepted := stream.accepted + [pkt];
      ok := true;
      assert TrackValid(pkt.idx);
      forall i | 0 <= i < |streams| ensures TrackValid(i) {
        if i != pkt.idx {
          assert old(TrackValid(i)) && TrackOf(log, i) == old(TrackOf(log, i));
        }
      }
    }

    /** Writes the stream's last packet with no duration. */
    method FlushLast(idx: nat)
      requires Valid() && finished && idx < |streams|
      modifies this, streams[idx]
      ensures Valid() && finished
      ensures streams[idx].lastpkt == None && streams[idx].accepted == old(streams[idx].accepted)
    {
      hide Records, TableOf, SampleOf, AddSample, Tiles, PayloadOf, TrackOf;
      var stream := streams[idx];
      assert TrackValid(idx);
      if stream.lastpkt.Some? {
        ghost var s := SampleOf(wpos, stream.lastpkt.value, 0);
        PayloadNext(log, Placed(idx, s));
        SampleFields(wpos, stream.lastpkt.value, 0, stream.sample);
        TableOfNext(stream.video, TrackOf(log, idx), s);
        RecordsLast(TrackOf(log, idx), stream.accepted, s);
        var ok := Flush(idx, stream.lastpkt.value, 0);
        stream.lastpkt := None;
        assert TrackValid(idx);
        forall i | 0 <= i < |streams| ensures TrackValid(i) {
          if i != idx {
            assert old(TrackValid(i)) && TrackOf(log, i) == old(TrackOf(log, i));
          }
        }
      }
    }

    /** Every accepted packet is in the file: the box size covers the payload, the payload is the samples in
        writing order without gap or overlap, and each stream's tables describe its packets in order. */
    ghost predicate Complete(file: seq<byte>)
      reads this, streams
    {
      && var end := HEADER + |PayloadOf(log)|;
      && |file| >= end && file[..HEADER] == BE32(ToU32(end)) + MDAT && file[HEADER..end] == PayloadOf(log)
      && Tiles(log)
      && forall i :: 0 <= i < |streams| ==>
           && streams[i].sample == TableOf(streams[i].video, TrackOf(log, i))
           && |TrackOf(log, i)| == |streams[i].accepted| && Records(TrackOf(log, i), streams[i].accepted)
    }

    /** Every stream of a finished file reads back as it was accepted, packet after packet, and then ends. */
    lemma FileReadsBack(file: seq<byte>, i: nat, n: nat)
      requires Complete(file) && |file| < TWO32 && i < |streams| && |streams[i].accepted| < TWO32
      ensures var t, video, accepted := streams[i].sample, streams[i].video, streams[i].accepted;
        && t.stsc != []
        && ReadNumber(t, TIME_SCALE, file, n)
           == (if n < |accepted| && (video ==> HasKey(accepted)) then Read(ReadingOf(video, accepted[n])) else Eof)
        && (n < |accepted| && (video ==> HasKey(accepted)) ==>
              CursorAfter(t, TIME_SCALE, file, n).dts == Prefix(TickDurations(accepted), n))
    {
      hide Records, TableOf, Tiles, PayloadOf, TrackOf, ReadNumber, CursorAfter, Prefix, ReadingOf, HasKey;
      MuxThenDemux(streams[i].video, log, i, streams[i].accepted, file, n);
    }

    /** Writes the packets still held back, fills in the size of the media data and appends the movie box. */
    method WriteTrailer(moov: seq<byte>) returns (file: seq<byte>)
      requires Valid() && !finished
      modifies this, streams
      ensures Complete(file)
      ensures forall i :: 0 <= i < |streams| ==> streams[i].accepted == old(streams[i].accepted)
    {
      hide Records, TableOf, SampleOf, AddSample, Tiles, PayloadOf, TrackOf;
      finished := true;
      forall i | 0 <= i < |streams| ensures TrackValid(i) {
        assert old(TrackValid(i));
      }
      for i := 0 to |streams|
        invariant Valid() && finished
        invariant forall j :: 0 <= j < |streams| ==> streams[j].accepted == old(streams[j].accepted)
        invariant forall j :: 0 <= j < i ==> streams[j].lastpkt == None
      {
        FlushLast(i);
      }
      label Flushed:
      var mdatsize := |out|;
      out := BE32(ToU32(mdatsize)) + out[4..];
      out := out + moov;
      file := out;
      assert file == BE32(ToU32(mdatsize)) + MDAT + PayloadOf(log) + moov;
      assert |BE32(ToU32(mdatsize)) + MDAT| == HEADER && mdatsize == HEADER + |PayloadOf(log)|;
      assert file[..HEADER] == BE32(ToU32(mdatsize)) + MDAT;
      assert file[HEADER..mdatsize] == PayloadOf(log);
      forall i | 0 <= i < |streams| ensures TrackValid(i) && streams[i].lastpkt == None {
        assert old@Flushed(TrackValid(i));
      }
    }
  }

  lemma SampleFields(pos: nat, pkt: AvPacket, rawdur: int, t: SampleTable)
    ensures var s := SampleOf(pos, pkt, rawdur);
      && s.pos == pos && s.data == pkt.data
      && |AddSample(t, s).sizes| == |t.sizes| + 1
  {
  }

  lemma RecordsEmpty(pkt: AvPacket)
    ensures Records([], [pkt])
  {
  }

  lemma TableOfNext(video: bool, ss: seq<Sample>, s: Sample)
    ensures TableOf(video, ss + [s]) == AddSample(TableOf(video, ss), s)
    ensures var t := AddSample(TableOf(video, ss), s);
      t.ctts.Some? == TableOf(video, ss).ctts.Some? && t.stss.Some? == TableOf(video, ss).stss.Some?
      && |t.sizes| == |TableOf(video, ss).sizes| + 1
  {
    assert (ss + [s])[..|ss|] == ss;
  }

  /** A reader standing at sample i of a finished file of less than 4 GiB finds the i-th packet its stream
      accepted: the same bytes, the same key mark (video), the ticks of its composition offset, at the decode time
      given by the ticks of the time differences before it. */
  lemma SampleIsAccepted(video: bool, log: seq<Placed>, track: nat, accepted: seq<AvPacket>, file: seq<byte>,
                     i: nat, c: Cursor, p: Packet)
    requires Tiles(log) && |file| < TWO32 && |accepted| < TWO32
    requires var end := HEADER + |PayloadOf(log)|; |file| >= end && file[HEADER..end] == PayloadOf(log)
    requires var ss := TrackOf(log, track); Records(ss, accepted) && |ss| == |accepted| && i < |ss|
    requires var t := TableOf(video, TrackOf(log, track));
      && (t.stco == [] || t.stsc != []) && Located(t, i, c) && IsSample(t, TIME_SCALE, file, c, p)
    ensures p.data == accepted[i].data
    ensures p.isKeyFrame <==> video && accepted[i].isKeyFrame
    ensures p.composition == if video then TsToTime(ToU32(TimeToTs(accepted[i].composition, TIME_SCALE)), TIME_SCALE)
        else 0
    ensures c.dts == Prefix(TickDurations(accepted), i)
  {
    hide PayloadOf, TrackOf, TableOf, Tiles, Located, IsSample, Prefix, Records, TimeToTs, TsToTime, TimeAfter, ToU32;
    var ss := TrackOf(log, track);
    var k := TrackIsPlaced(log, track, i);
    var end := HEADER + |PayloadOf(log)|;
    TiledStored(log, file[..HEADER], file[end..], k);
    assert file[..HEADER] + PayloadOf(log) + file[end..] == file;
    ReadsBack(video, ss, file, i, c, p);
    DecodeTimeReadsBack(video, ss, i, c);
    forall j | 0 <= j < |ss| ensures ss[j].duration == ToU32(TimeToTs(TimeAfter(accepted, j), TIME_SCALE)) {
      RecordedTicks(ss, accepted, j);
    }
    RecordedTicks(ss, accepted, i);
    PrefixAgree(Durations(ss), TickDurations(accepted), i);
  }

  /** In such a file nothing is out of a reader's reach. */
  lemma StoredIsIntact(video: bool, log: seq<Placed>, track: nat, file: seq<byte>)
    requires Tiles(log) && |file| < TWO32 && |TrackOf(log, track)| < TWO32
    requires var end := HEADER + |PayloadOf(log)|; |file| >= end && file[HEADER..end] == PayloadOf(log)
    ensures var t := TableOf(video, TrackOf(log, track)); t.stsc != [] && Intact(t, file)
  {
    hide PayloadOf, TrackOf, TableOf, Tiles, Located, Playable, Beyond, Describes, WellFormed, Total;
    var ss := TrackOf(log, track);
    var t := TableOf(video, ss);
    TableOfDescribes(video, ss);
    DescribedIsWellFormed(t, video, ss);
    HasGroups(t);
    forall i: nat, c | Playable(t, i) && Located(t, i, c) ensures !Beyond(t, c, file) {
      InTotal(t, i);
      var k := TrackIsPlaced(log, track, i);
      var end := HEADER + |PayloadOf(log)|;
      assert file[..HEADER] + PayloadOf(log) + file[end..] == file;
      TiledStored(log, file[..HEADER], file[end..], k);
      SampleNumber(t, i, c);
      WithinReach(t, video, ss, file, i, c);
    }
  }

  lemma InTotal(t: SampleTable, i: nat)
    requires t.stsc != [] && Playable(t, i)
    ensures i < Total(t)
  {
    hide Total;
  }

  lemma WithinReach(t: SampleTable, video: bool, ss: seq<Sample>, file: seq<byte>, i: nat, c: Cursor)
    requires Describes(t, video, ss) && |ss| < TWO32 && i < |ss| && Located(t, i, c) && |file| < TWO32
    requires c.sampleIndex == i && ss[i].pos + |ss[i].data| <= |file|
    ensures !Beyond(t, c, file)
  {
    hide Located, Canonical, ListsKeys;
    PositionOfSample(t, video, ss, i, c);
  }

  ghost predicate HasKey(pkts: seq<AvPacket>) {
    exists k :: 0 <= k < |pkts| && pkts[k].isKeyFrame
  }

  /** What a reader is to get back for a packet; audio tracks carry no key marks and no composition offsets. */
  function ReadingOf(video: bool, pkt: AvPacket): Packet {
    Packet(pkt.data, video && pkt.isKeyFrame,
      if video then TsToTime(ToU32(TimeToTs(pkt.composition, TIME_SCALE)), TIME_SCALE) else 0)
  }

  /** Mux then demux: call number n of a fresh reader gives packet n as its stream accepted it, at the decode time of
      the ticks before it, and every call after the last packet reports the end. Without any key frame a video stream
      ends at once. */
  lemma MuxThenDemux(video: bool, log: seq<Placed>, track: nat, accepted: seq<AvPacket>, file: seq<byte>, n: nat)
    requires Tiles(log) && |file| < TWO32 && |accepted| < TWO32
    requires var end := HEADER + |PayloadOf(log)|; |file| >= end && file[HEADER..end] == PayloadOf(log)
    requires var ss := TrackOf(log, track); Records(ss, accepted) && |ss| == |accepted|
    ensures var t := TableOf(video, TrackOf(log, track));
      && t.stsc != []
      && (n < |accepted| && (video ==> HasKey(accepted)) ==>
            && ReadNumber(t, TIME_SCALE, file, n) == Read(ReadingOf(video, accepted[n]))
            && CursorAfter(t, TIME_SCALE, file, n).dts == Prefix(TickDurations(accepted), n))
      && (n >= |accepted| || (video && !HasKey(accepted)) ==> ReadNumber(t, TIME_SCALE, file, n) == Eof)
  {
    hide PayloadOf, TrackOf, TableOf, Tiles, Located, IsSample, Prefix, Records, TimeToTs, TsToTime, Playable,
      PacketAt, ReadNumber, CursorAfter, WellFormed, Describes, Beyond, Seen, Intact, Total;
    var ss := TrackOf(log, track);
    var t := TableOf(video, ss);
    TableOfDescribes(video, ss);
    DescribedIsWellFormed(t, video, ss);
    StoredIsIntact(video, log, track, file);
    ReadsInOrder(t, TIME_SCALE, file, n);
    AllSeenOrNone(video, ss, accepted);
    if n < Seen(t) {
      var c := CursorAfter(t, TIME_SCALE, file, n);
      NotBeyond(t, file, n, c);
      PacketIsSample(t, TIME_SCALE, file, n, c);
      SampleIsAccepted(video, log, track, accepted, file, n, c, PacketAt(t, TIME_SCALE, file, c));
    }
  }

  lemma NotBeyond(t: SampleTable, file: seq<byte>, i: nat, c: Cursor)
    requires t.stsc != [] && Intact(t, file) && i < Seen(t) && Located(t, i, c)
    ensures i < Total(t) && !Beyond(t, c, file)
  {
    hide Located, Beyond, Seen;
    SeenIsPlayable(t, i);
  }

  lemma AllSeenOrNone(video: bool, ss: seq<Sample>, accepted: seq<AvPacket>)
    requires Records(ss, accepted) && |ss| == |accepted| < TWO32
    ensures var t := TableOf(video, ss);
      t.stsc != [] && Seen(t) == if video && !HasKey(accepted) then 0 else |accepted|
  {
    hide Expand, Prefix, GroupAt, TableOf, Canonical, Records, WellFormed, Total;
    var t := TableOf(video, ss);
    TableOfDescribes(video, ss);
    DescribedIsWellFormed(t, video, ss);
    forall k | 0 <= k < |ss| ensures ss[k].key == accepted[k].isKeyFrame {
      RecordedTicks(ss, accepted, k);
    }
    if video {
      KeysListed(t.stss.value, ss);
    }
  }

  lemma KeysListed(stss: seq<u32>, ss: seq<Sample>)
    requires ListsKeys(stss, ss)
    ensures stss == [] <==> forall k :: 0 <= k < |ss| ==> !ss[k].key
  {
    if stss != [] {
      assert ss[stss[0] - 1].key;
    }
  }

  /** Ticks from each packet to the next of its stream. */
  function TickDurations(pkts: seq<AvPacket>): (d: seq<nat>)
    ensures |d| == |pkts| && forall i :: 0 <= i < |d| ==> d[i] == ToU32(TimeToTs(TimeAfter(pkts, i), TIME_SCALE))
  {
    seq(|pkts|, i requires 0 <= i < |pkts| => ToU32(TimeToTs(TimeAfter(pkts, i), TIME_SCALE)))
  }

  lemma RecordedTicks(ss: seq<Sample>, accepted: seq<AvPacket>, i: nat)
    requires Records(ss, accepted) && i < |ss|
    ensures ss[i].data == accepted[i].data && ss[i].key == accepted[i].isKeyFrame
    ensures ss[i].duration == ToU32(TimeToTs(TimeAfter(accepted, i), TIME_SCALE))
    ensures ss[i].composition == ToU32(TimeToTs(accepted[i].composition, TIME_SCALE))
  {
    hide TimeToTs, TimeAfter, ToU32;
  }
}
