/** Fragments of a fixed number of samples for live viewing (format/mp4f/muxer.go). */
module LiveStreams {
  import opened Bytes
  import opened Buffers
  import opened Fmp4Boxes
  import opened Fmp4Reading
  import opened Fmp4RoundTrip
  import opened LiveBoxes
  import Mp4Time
  import Sums
  import Timescale

  const RUN_FLAGS: u24 := 0x000b05

  /** A packet as it is stored, with the time since the packet before it. */
  datatype Packet = Packet(rawdur: int, compositionTime: int, isKeyFrame: bool, data: seq<byte>)

  function Ticks(p: Packet, scale: int): int { Mp4Time.TimeToTs(p.rawdur, scale) }

  function TotalTicks(pkts: seq<Packet>, scale: int): int {
    if pkts == [] then 0 else TotalTicks(pkts[..|pkts| - 1], scale) + Ticks(pkts[|pkts| - 1], scale)
  }

  function EntryOf(p: Packet, scale: int): LiveEntry {
    LiveEntry(ToU32(Ticks(p, scale)), ToU32(|p.data|), 0, ToU32(Mp4Time.TimeToTs(p.compositionTime, scale)))
  }

  function EntriesOf(pkts: seq<Packet>, scale: int): (es: seq<LiveEntry>)
    ensures |es| == |pkts|
  {
    if pkts == [] then [] else EntriesOf(pkts[..|pkts| - 1], scale) + [EntryOf(pkts[|pkts| - 1], scale)]
  }

  function DataOf(pkts: seq<Packet>): seq<byte> {
    if pkts == [] then [] else DataOf(pkts[..|pkts| - 1]) + pkts[|pkts| - 1].data
  }

  /** The fixed track header: a track of 8-bit number, whose samples depend on others unless told apart. */
  function TrackHeader(trackId: byte): (h: seq<byte>)
    ensures |h| == 12
  {
    [0x00, 0x02, 0x00, 0x20, 0x00, 0x00, 0x00, trackId, 0x01, 0x01, 0x00, 0x00]
  }

  /** The fragment of some packets that begins at a given tick. */
  function FragOf(seqnum: u32, trackId: byte, start: int, offset: u32, pkts: seq<Packet>, scale: int): Frag {
    Frag(seqnum, TrackHeader(trackId), ToU64(start),
        LiveRun(0, RUN_FLAGS, offset, NO_DEPENDENCIES, EntriesOf(pkts, scale)))
  }

  /** Its data offset is the length of its boxes and of the data's header. */
  function FinalFrag(seqnum: u32, trackId: byte, start: int, pkts: seq<Packet>, scale: int): Frag {
    FragOf(seqnum, trackId, start, ToU32(|FragBytes(FragOf(seqnum, trackId, start, 0, pkts, scale))| + 8), pkts, scale)
  }

  /** Everything sent for a fragment. */
  function FileOf(f: Frag, pkts: seq<Packet>): seq<byte> {
    FragBytes(f) + BE32(ToU32(8 + |DataOf(pkts)|)) + BE32(MDAT) + DataOf(pkts)
  }

  class Muxer {
    var fragmentIndex: nat

    constructor ()
      ensures fragmentIndex == 0
    {
      fragmentIndex := 0;
    }
  }

  const NO_FRAG := Frag(0, [], 0, LiveRun(0, 0, 0, 0, []))

  class Stream {
    const idx: byte
    const timeScale: int
    const muxer: Muxer
    var sampleIndex: nat
    var moof: Frag
    var buffer: seq<byte>
    var dts: int
    var lastTime: Option<int>
    ghost var current: seq<Packet>
    ghost var sent: seq<seq<Packet>>
    ghost var numbers: seq<u32>
    ghost var files: seq<seq<byte>>
    ghost var times: seq<int>

    constructor (idx: byte, timeScale: int, muxer: Muxer)
      ensures Valid() && Timed() && current == [] && sent == [] && lastTime == None
      ensures this.idx == idx && this.timeScale == timeScale && this.muxer == muxer
    {
      this.idx, this.timeScale, this.muxer := idx, timeScale, muxer;
      sampleIndex, moof, buffer, dts, lastTime := 0, NO_FRAG, [], 0, None;
      current, sent, numbers, files, times := [], [], [], [], [];
      new;
      assert Flatten(sent) + current == [];
    }

    ghost function Written(): seq<Packet>
      reads this
    {
      Flatten(sent) + current
    }

    function TrackId(): byte { ToU8(idx + 1) }

    /** The clock has run through every packet so far; the open fragment began where its packets began, and holds
        exactly them. */
    ghost predicate Valid()
      reads this
    {
      && sampleIndex == |current|
      && dts == TotalTicks(Written(), timeScale)
      && Log(files, numbers, sent, TrackId(), timeScale)
      && (current != [] ==>
            && moof == FragOf(moof.seqnum, TrackId(), TotalTicks(Flatten(sent), timeScale), 0, current, timeScale)
            && buffer == [0, 0, 0, 0] + BE32(MDAT) + DataOf(current))
    }

    /** The packets are stored with the time since the one before, on every run of WritePacket alone. */
    ghost predicate Timed()
      reads this
    {
      StoredSince(Written(), times) && if times == [] then lastTime == None else lastTime == Some(times[|times| - 1])
    }

    /** Begins a fragment if none is open. */
    method Begin()
      requires Valid()
      modifies `moof, `buffer
      ensures Valid()
      ensures old(sampleIndex) > 0 ==> moof == old(moof) && buffer == old(buffer)
      ensures old(sampleIndex) == 0 ==> moof == FragOf(ToU32(muxer.fragmentIndex + 1), TrackId(), dts, 0, [], timeScale)
      ensures old(sampleIndex) == 0 ==> buffer == [0, 0, 0, 0] + BE32(MDAT)
    {
      if sampleIndex == 0 {
        moof := Frag(ToU32(muxer.fragmentIndex + 1), TrackHeader(TrackId()), ToU64(dts),
            LiveRun(0, RUN_FLAGS, 0, NO_DEPENDENCIES, []));
        buffer := [0, 0, 0, 0] + BE32(MDAT);
      }
    }

    /** Appends a packet, beginning a fragment if none is open. */
    method Add(pkt: Packet)
      requires Valid()
      modifies `moof, `buffer, `sampleIndex, `dts, `current
      ensures Valid() && current == old(current) + [pkt] && Written() == old(Written()) + [pkt]
      ensures moof.seqnum == if old(current) == [] then ToU32(muxer.fragmentIndex + 1) else old(moof.seqnum)
    {
      hide Flatten, DataOf, EntriesOf, BE32, TotalTicks, Log;
      ghost var n := |current|;
      Begin();
      Grown(current, pkt, timeScale);
      Grown(Written(), pkt, timeScale);
      NothingYet(timeScale);
      assert Flatten(sent) + (current + [pkt]) == Flatten(sent) + current + [pkt];
      if current == [] {
        assert Flatten(sent) + current == Flatten(sent);
      }
      moof := moof.(run := moof.run.(entries := moof.run.entries + [EntryOf(pkt, timeScale)]));
      buffer := buffer + pkt.data;
      assert [0, 0, 0, 0] + BE32(MDAT) + DataOf(current) + pkt.data
          == [0, 0, 0, 0] + BE32(MDAT) + (DataOf(current) + pkt.data);
      assert [0, 0, 0, 0] + BE32(MDAT) + [] == [0, 0, 0, 0] + BE32(MDAT);
      sampleIndex := sampleIndex + 1;
      dts := dts + Mp4Time.TimeToTs(pkt.rawdur, timeScale);
      current := current + [pkt];
    }

    /** Closes the open fragment: fills in its data offset and both sizes and hands it over. */
    method Close() returns (file: seq<byte>)
      requires Valid() && current != []
      modifies `moof, `buffer, `sampleIndex, `current, `sent, `numbers, `files, muxer
      ensures Valid() && current == [] && sent == old(sent) + [old(current)] && muxer.fragmentIndex
          == old(muxer.fragmentIndex) + 1
      ensures Written() == old(Written())
      ensures file == FileOf(FinalFrag(old(moof.seqnum), TrackId(), TotalTicks(Flatten(old(sent)), timeScale),
          old(current), timeScale), old(current))
    {
      hide Flatten, DataOf, EntriesOf, BE32, TotalTicks, FragBytes, Wrote, Log;
      ghost var pkts := current;
      ghost var seqnum := moof.seqnum;
      SameLength(moof, 0);
      var n := FragLen(moof);
      moof := moof.(run := moof.run.(dataOffset := ToU32(n + 8)));
      SameLength(moof, 0);
      var b := new byte[n](_ => 0);
      ghost var zeros := b[..];
      WroteNothing(b);
      var m := MarshalFrag(moof, b, zeros);
      AllWritten(b, zeros, FragBytes(moof));
      BufferPatched(buffer, DataOf(pkts));
      buffer := BE32(ToU32(|buffer|)) + buffer[4..];
      file := b[..] + buffer;
      assert FragBytes(moof) + (BE32(ToU32(8 + |DataOf(pkts)|)) + BE32(MDAT) + DataOf(pkts))
          == FragBytes(moof) + BE32(ToU32(8 + |DataOf(pkts)|)) + BE32(MDAT) + DataOf(pkts);
      sampleIndex := 0;
      muxer.fragmentIndex := muxer.fragmentIndex + 1;
      FlattenSnoc(sent, current);
      assert Flatten(sent) + pkts + [] == Flatten(sent) + pkts;
      LogNext(files, numbers, sent, TrackId(), timeScale, seqnum, current);
      sent, numbers, files := sent + [current], numbers + [seqnum], files + [file];
      current := [];
    }

    static lemma SameLength(f: Frag, offset: u32)
      ensures |FragBytes(f)| == |FragBytes(f.(run := f.run.(dataOffset := offset)))|
    {
      SameEntries(f.run, offset, |f.run.entries|);
      FragParts(f);
      FragParts(f.(run := f.run.(dataOffset := offset)));
      hide EntriesUpto, BE32, Has;
    }

    static lemma {:induction false} SameEntries(r: LiveRun, offset: u32, k: nat)
      requires k <= |r.entries|
      ensures EntriesUpto(r.(dataOffset := offset), k) == EntriesUpto(r, k)
    {
      hide BE32, Has;
      if k > 0 {
        SameEntries(r, offset, k - 1);
      }
    }

    static lemma AllWritten(b: array<byte>, orig: seq<byte>, done: seq<byte>)
      requires Wrote(b, orig, done) && |done| == b.Length
      ensures b[..] == done
    {
    }

    static lemma BufferPatched(buffer: seq<byte>, data: seq<byte>)
      requires buffer == [0, 0, 0, 0] + BE32(MDAT) + data
      ensures |buffer| == 8 + |data|
      ensures BE32(ToU32(|buffer|)) + buffer[4..] == BE32(ToU32(8 + |data|)) + BE32(MDAT) + data
    {
      hide BE32;
      assert buffer[4..] == BE32(MDAT) + data;
    }

    static lemma Grown(pkts: seq<Packet>, p: Packet, scale: int)
      ensures DataOf(pkts + [p]) == DataOf(pkts) + p.data
      ensures EntriesOf(pkts + [p], scale) == EntriesOf(pkts, scale) + [EntryOf(p, scale)]
      ensures TotalTicks(pkts + [p], scale) == TotalTicks(pkts, scale) + Ticks(p, scale)
    {
      assert (pkts + [p])[..|pkts|] == pkts;
    }

    static lemma NothingYet(scale: int)
      ensures DataOf([]) == [] && EntriesOf([], scale) == [] && TotalTicks([], scale) == 0
    {
    }

    /** The live path: a packet is appended, and the fragment is handed over once it holds more than maxFrames. */
    method WritePacketV2(pkt: Packet, maxFrames: int) returns (got: bool, file: seq<byte>)
      requires Valid()
      modifies this, muxer
      ensures Valid() && Written() == old(Written()) + [pkt] && times == old(times)
      ensures got <==> old(sampleIndex) + 1 > maxFrames
      ensures !got ==> sent == old(sent) && file == [] && muxer.fragmentIndex == old(muxer.fragmentIndex)
      ensures got ==> current == [] && sent == old(sent) + [old(current) + [pkt]] && muxer.fragmentIndex == old(muxer.fragmentIndex) + 1
      ensures got ==> var seqnum := if old(current) == [] then ToU32(old(muxer.fragmentIndex) + 1) else old(moof.seqnum);
        file == FileOf(FinalFrag(seqnum, TrackId(), TotalTicks(Flatten(old(sent)), timeScale), old(current) + [pkt],
            timeScale), old(current) + [pkt])
    {
      hide Flatten, FileOf, FinalFrag, Valid, Written;
      CountIs();
      Add(pkt);
      got, file := false, [];
      CountIs();
      if sampleIndex > maxFrames {
        file := Close();
        got := true;
      }
    }

    lemma CountIs()
      requires Valid()
      ensures sampleIndex == |current|
    {
    }

    /** The variant that hands over at key frames: a full fragment is closed before the key frame is appended. */
    method WritePacketV3(pkt: Packet, maxFrames: nat) returns (got: bool, file: seq<byte>)
      requires Valid()
      modifies this, muxer
      ensures Valid() && Written() == old(Written()) + [pkt] && times == old(times)
      ensures got <==> old(sampleIndex) > maxFrames && pkt.isKeyFrame
      ensures !got ==> sent == old(sent) && file == [] && muxer.fragmentIndex == old(muxer.fragmentIndex)
      ensures got ==> current == [pkt] && sent == old(sent) + [old(current)] && muxer.fragmentIndex == old(muxer.fragmentIndex) + 1
      ensures got ==> file == FileOf(FinalFrag(old(moof.seqnum), TrackId(), TotalTicks(Flatten(old(sent)), timeScale), old(current), timeScale), old(current))
    {
      hide Flatten, FileOf, FinalFrag, Valid, Written;
      got, file := false, [];
      CountIs();
      if sampleIndex > maxFrames && pkt.isKeyFrame {
        file := Close();
        got := true;
      }
      assert [] + [pkt] == [pkt];
      Add(pkt);
    }

    /** A packet is given the time since the packet before it, nothing for the first. */
    method WritePacket(time: int, pkt: Packet, gop: bool) returns (got: bool, file: seq<byte>)
      requires Valid()
      modifies this, muxer
      ensures Valid() && lastTime == Some(time)
      ensures Written() == old(Written()) + [pkt.(rawdur := if old(lastTime).None? then 0
          else time - old(lastTime).value)]
      ensures got <==> if gop then old(sampleIndex) > 5 && pkt.isKeyFrame else old(sampleIndex) + 1 > 5
      ensures got <==> |sent| == |old(sent)| + 1
      ensures old(Timed()) ==> Timed() && times == old(times) + [time]
    {
      hide FileOf, FinalFrag, FragOf, TotalTicks, DataOf, Flatten, BE32, Log, StoredSince;
      ghost var last := if lastTime.None? then 0 else time - lastTime.value;
      if Timed() {
        StoredSinceNext(Written(), times, pkt.(rawdur := last), time);
      }
      var ts := 0;
      if lastTime.Some? {
        ts := time - lastTime.value;
      }
      if gop {
        got, file := WritePacketV3(pkt.(rawdur := ts), 5);
      } else {
        got, file := WritePacketV2(pkt.(rawdur := ts), 5);
      }
      lastTime := Some(time);
      times := times + [time];
    }
  }

  /** The file of fragment k: it begins where the packets of the fragments before it end. */
  function FileAt(seqnum: u32, sent: seq<seq<Packet>>, k: nat, trackId: byte, scale: int): seq<byte>
    requires k < |sent|
  {
    FileOf(FinalFrag(seqnum, trackId, TotalTicks(Flatten(sent[..k]), scale), sent[k], scale), sent[k])
  }

  /** Every file handed over is that of its fragment. */
  ghost predicate Log(files: seq<seq<byte>>, numbers: seq<u32>, sent: seq<seq<Packet>>, trackId: byte, scale: int) {
    && |files| == |numbers| == |sent|
    && forall k :: 0 <= k < |sent| ==> files[k] == FileAt(numbers[k], sent, k, trackId, scale)
  }

  lemma LogNext(files: seq<seq<byte>>, numbers: seq<u32>, sent: seq<seq<Packet>>, trackId: byte, scale: int,
                seqnum: u32, pkts: seq<Packet>)
    requires Log(files, numbers, sent, trackId, scale)
    ensures var file := FileOf(FinalFrag(seqnum, trackId, TotalTicks(Flatten(sent), scale), pkts, scale), pkts);
      Log(files + [file], numbers + [seqnum], sent + [pkts], trackId, scale)
  {
    hide FileOf, FinalFrag, TotalTicks, Flatten;
    var after := sent + [pkts];
    forall k | 0 <= k < |sent| ensures FileAt(numbers[k], after, k, trackId, scale) == files[k] {
      assert after[..k] == sent[..k];
    }
    assert after[..|sent|] == sent;
  }

  lemma StoredSinceNext(pkts: seq<Packet>, times: seq<int>, pkt: Packet, time: int)
    requires StoredSince(pkts, times) && pkt.rawdur == if times == [] then 0 else time - times[|times| - 1]
    ensures StoredSince(pkts + [pkt], times + [time])
  {
    var after := times + [time];
    forall i | 0 <= i < |after| ensures (pkts + [pkt])[i].rawdur == Since(after, i) {
      if i < |times| {
        assert Since(after, i) == Since(times, i);
      }
    }
  }

  /** The same fragment in the form the repository's fragment reader knows. */
  function AsEntries(es: seq<LiveEntry>): (r: seq<Entry>)
    ensures |r| == |es|
  {
    if es == [] then [] else AsEntries(es[..|es| - 1]) + [AsEntry(es[|es| - 1])]
  }

  function AsEntry(e: LiveEntry): Entry {
    Signed(e.cts);
    Entry(e.duration, e.size, 0, ToI32(e.cts))
  }

  lemma Signed(x: u32)
    ensures -0x8000_0000 <= ToI32(x) < 0x8000_0000 && ToU32(ToI32(x)) == x
  {
  }

  function AsTrun(r: LiveRun): Trun {
    Trun(0, RUN_FLAGS, r.dataOffset, r.firstSampleFlags, AsEntries(r.entries))
  }

  function AsMoof(f: Frag, trackId: byte): Moof {
    Moof(Some(HeadOf(f)), [Traf(Some(Tfhd(0, 0x020020, trackId, 0, 0, 0, 0, NON_KEYFRAME)), Some(TimeOf(f)),
        Some(AsTrun(f.run)))])
  }

  lemma RunBits()
    ensures Has(RUN_FLAGS, DATA_OFFSET) && Has(RUN_FLAGS, FIRST_SAMPLE_FLAGS) && Has(RUN_FLAGS, SAMPLE_DURATION)
    ensures Has(RUN_FLAGS, SAMPLE_SIZE) && !Has(RUN_FLAGS, SAMPLE_FLAGS) && Has(RUN_FLAGS, SAMPLE_CTS)
    ensures NO_DEPENDENCIES / SAMPLE_FLAGS % 2 == 0
  {
  }

  lemma SameEntryBytes(r: LiveRun, i: nat, e: LiveEntry, a: Trun)
    requires r.flags == a.flags == RUN_FLAGS && r.firstSampleFlags == NO_DEPENDENCIES && a.version == 0
    ensures LiveEntryBytes(r, i, e) == EntryBytes(a, AsEntry(e))
  {
    hide BE32, Has;
    RunBits();
    Signed(e.cts);
    assert BE32(e.duration) + BE32(e.size) + [] == BE32(e.duration) + BE32(e.size);
  }

  lemma {:induction false} SameRunEntries(r: LiveRun, k: nat, a: Trun)
    requires k <= |r.entries| && r.flags == a.flags == RUN_FLAGS && r.firstSampleFlags == NO_DEPENDENCIES
        && a.version == 0
    ensures EntriesUpto(r, k) == EntriesBytes(a, AsEntries(r.entries[..k]))
  {
    hide LiveEntryBytes, EntryBytes;
    if k == 0 {
      assert r.entries[..0] == [];
    } else {
      SameRunEntries(r, k - 1, a);
      var e := r.entries[k - 1];
      assert r.entries[..k][..k - 1] == r.entries[..k - 1];
      SameEntryBytes(r, k - 1, e, a);
      EntriesAppend(a, AsEntries(r.entries[..k - 1]), [AsEntry(e)]);
      assert EntriesBytes(a, [AsEntry(e)]) == EntryBytes(a, AsEntry(e)) + EntriesBytes(a, []);
    }
  }

  lemma SameRun(r: LiveRun)
    requires r.version == 0 && r.flags == RUN_FLAGS && r.firstSampleFlags == NO_DEPENDENCIES
    ensures Box(TRUN, LiveRunBody(r)) == TrunBytes(AsTrun(r))
  {
    hide BE32, EntriesUpto, EntriesBytes, Full, Has, Opt4, Box;
    var a := AsTrun(r);
    SameRunEntries(r, |r.entries|, a);
    assert r.entries[..|r.entries|] == r.entries;
    assert Full(0, RUN_FLAGS) + BE32(ToU32(|r.entries|)) + Opt4(Has(RUN_FLAGS, DATA_OFFSET), r.dataOffset)
        + Opt4(Has(RUN_FLAGS, FIRST_SAMPLE_FLAGS), r.firstSampleFlags) == Full(0, RUN_FLAGS) + RunHead(a);
  }

  lemma SameHeader(trackId: byte)
    ensures TrackHeader(trackId) == TfhdBody(Tfhd(0, 0x020020, trackId, 0, 0, 0, 0, NON_KEYFRAME))
  {
    assert BE32(trackId) == [0, 0, 0, trackId] && BE24(0x020020) == [0x02, 0x00, 0x20];
    assert BE32(NON_KEYFRAME) == [0x01, 0x01, 0x00, 0x00];
  }

  /** The two paths write the same boxes for the same fragment. */
  lemma SameBoxes(f: Frag, trackId: byte)
    requires f.header == TrackHeader(trackId) && f.run.version == 0 && f.run.flags == RUN_FLAGS
        && f.run.firstSampleFlags == NO_DEPENDENCIES
    ensures FragBytes(f) == MoofBytes(AsMoof(f, trackId))
  {
    hide MfhdBytes, TfdtBytes, LiveRunBody, TrunBytes, TfhdBody, Box, TrackHeader;
    SameHeader(trackId);
    SameRun(f.run);
    var t := AsMoof(f, trackId).tracks;
    assert t[1..] == [] && TrafBytes(t[0]) + [] == TrafBytes(t[0]);
    assert TrafsBytes(t) == TrafBytes(t[0]) + TrafsBytes(t[1..]);
  }

  lemma {:induction false} AllSeen(es: seq<LiveEntry>)
    ensures SeenEntries(RUN_FLAGS, AsEntries(es)) == AsEntries(es)
  {
    hide Has, AsEntry;
    if es != [] {
      AllSeen(es[..|es| - 1]);
      SeenSnoc(AsEntries(es[..|es| - 1]), AsEntry(es[|es| - 1]));
      EntrySeen(es[|es| - 1]);
    }
  }

  lemma EntrySeen(e: LiveEntry)
    ensures SeenEntry(RUN_FLAGS, AsEntry(e)) == AsEntry(e)
  {
    hide Has;
    RunBits();
  }

  lemma {:induction false} SeenSnoc(es: seq<Entry>, e: Entry)
    ensures SeenEntries(RUN_FLAGS, es + [e]) == SeenEntries(RUN_FLAGS, es) + [SeenEntry(RUN_FLAGS, e)]
  {
    hide SeenEntry;
    if es == [] {
      assert [] + [e] == [e] && [e][1..] == [];
    } else {
      assert (es + [e])[1..] == es[1..] + [e];
      SeenSnoc(es[1..], e);
    }
  }

  /** Every fragment of less than 4 GiB is read back by the fragment reader with nothing lost: its time, and the
      duration, size and composition time of every sample. */
  lemma FileReadsBack(seqnum: u32, trackId: byte, start: int, pkts: seq<Packet>, scale: int)
    requires var f := FinalFrag(seqnum, trackId, start, pkts, scale);
      |FragBytes(f)| + 8 + |DataOf(pkts)| < TWO32 && |pkts| < TWO32
    ensures var f := FinalFrag(seqnum, trackId, start, pkts, scale); var m := |FragBytes(f)|;
      && ReadMoof(FileOf(f, pkts)[..m]) == Some(AsMoof(f, trackId))
      && m + U32BE(FileOf(f, pkts)[m..]) == |FileOf(f, pkts)| && U32BE(FileOf(f, pkts)[m + 4..]) == MDAT
      && f.run.dataOffset == m + 8 && FileOf(f, pkts)[m + 8..] == DataOf(pkts)
  {
    hide FragBytes, DataOf, EntriesOf, BE32, U32BE, ReadMoof, MoofBytes, TrackHeader, SeenEntries, AsEntries, SeenMoof, AllStraight, Small;
    var f := FinalFrag(seqnum, trackId, start, pkts, scale);
    SameBoxes(f, trackId);
    Stream.SameLength(FragOf(seqnum, trackId, start, 0, pkts, scale), f.run.dataOffset);
    LiveSeen(f, trackId);
    MoofReadsBackIff(AsMoof(f, trackId));
    var size: u32 := 8 + |DataOf(pkts)|;
    var file, m := FileOf(f, pkts), |FragBytes(f)|;
    assert ToU32(8 + |DataOf(pkts)|) == size;
    assert file[..m] == FragBytes(f) && file[m..] == BE32(size) + (BE32(MDAT) + DataOf(pkts));
    ReadBack32(size, BE32(MDAT) + DataOf(pkts));
    assert file[m + 4..] == BE32(MDAT) + DataOf(pkts) && file[m + 8..] == DataOf(pkts);
    ReadBack32(MDAT, DataOf(pkts));
  }

  lemma LiveSeen(f: Frag, trackId: byte)
    requires f.run.flags == RUN_FLAGS && |f.run.entries| < TWO32
    ensures var a := AsMoof(f, trackId);
      SeenMoof(a) == a && AllStraight(a.tracks) && Small(a.tracks)
  {
    hide Has, SeenEntries, AsEntries;
    RunBits();
    HeaderBits();
    AllSeen(f.run.entries);
    var t := AsMoof(f, trackId).tracks;
    assert t[1..] == [] && t == [t[0]];
  }

  lemma HeaderBits()
    ensures Has(0x020020, DEFAULT_FLAGS) && !Has(0x020020, DEFAULT_SIZE) && !Has(0x020020, DEFAULT_DURATION)
    ensures !Has(0x020020, BASE_DATA_OFFSET) && !Has(0x020020, STSD_ID)
  {
  }

  /** The sizes cut the data into the packets: the bytes behind those of earlier packets are a packet's own. */
  lemma {:induction false} SizesCutData(pkts: seq<Packet>, j: nat)
    requires j < |pkts|
    ensures var from := |DataOf(pkts[..j])|; var n := |pkts[j].data|;
      from + n <= |DataOf(pkts)| && DataOf(pkts)[from..from + n] == pkts[j].data
    decreases |pkts|
  {
    var last := |pkts| - 1;
    var d, from, n := DataOf(pkts[..last]), |DataOf(pkts[..j])|, |pkts[j].data|;
    assert DataOf(pkts) == d + pkts[last].data;
    if j < last {
      SizesCutData(pkts[..last], j);
      assert pkts[..last][..j] == pkts[..j];
      assert (d + pkts[last].data)[from..from + n] == d[from..from + n];
    }
  }

  /** Sum of the durations as the samples tell them. */
  function TotalTold(pkts: seq<Packet>, scale: int): nat {
    if pkts == [] then 0 else TotalTold(pkts[..|pkts| - 1], scale) + ToU32(Ticks(pkts[|pkts| - 1], scale))
  }

  lemma {:induction false} TicksAppend(a: seq<Packet>, b: seq<Packet>, scale: int)
    ensures TotalTicks(a + b, scale) == TotalTicks(a, scale) + TotalTicks(b, scale)
    decreases |b|
  {
    if b == [] {
      assert a + b == a;
    } else {
      var last := |b| - 1;
      assert (a + b)[..|a + b| - 1] == a + b[..last];
      TicksAppend(a, b[..last], scale);
    }
  }

  /** How often the durations leave their 32-bit field, upwards less downwards. */
  function Wraps(pkts: seq<Packet>, scale: int): int {
    if pkts == [] then 0 else Wraps(pkts[..|pkts| - 1], scale) + Ticks(pkts[|pkts| - 1], scale) / TWO32
  }

  predicate Fits(p: Packet, scale: int) { 0 <= Ticks(p, scale) < TWO32 }

  lemma {:induction false} ToldIsLess(pkts: seq<Packet>, scale: int)
    ensures TotalTold(pkts, scale) == TotalTicks(pkts, scale) - TWO32 * Wraps(pkts, scale)
  {
    hide Ticks;
    if pkts != [] {
      ToldIsLess(pkts[..|pkts| - 1], scale);
      CutTick(Ticks(pkts[|pkts| - 1], scale));
    }
  }

  lemma CutTick(t: int)
    ensures ToU32(t) == t - TWO32 * (t / TWO32)
  {
  }

  /** While no time goes back, only durations that fit leave no wrap. */
  lemma {:induction false} NoWrapIff(pkts: seq<Packet>, scale: int)
    requires forall p <- pkts :: Ticks(p, scale) >= 0
    ensures Wraps(pkts, scale) >= 0
    ensures Wraps(pkts, scale) == 0 <==> forall p <- pkts :: Fits(p, scale)
  {
    hide Ticks, Fits;
    if pkts != [] {
      var last := |pkts| - 1;
      assert forall p <- pkts[..last] :: p in pkts;
      NoWrapIff(pkts[..last], scale);
      assert pkts == pkts[..last] + [pkts[last]];
      FitsIff(pkts[last], scale);
      assert (forall p <- pkts :: Fits(p, scale)) <==> Fits(pkts[last], scale) && forall p <- pkts[..last] :: Fits(p, scale);
    }
  }

  lemma FitsIff(p: Packet, scale: int)
    requires Ticks(p, scale) >= 0
    ensures Ticks(p, scale) / TWO32 >= 0 && (Ticks(p, scale) / TWO32 == 0 <==> Fits(p, scale))
  {
    hide Ticks;
  }

  /** Every packet of a fragment, and the end of it, is told to be at its own tick if and only if each duration fits its
      field: none goes back and none is too long. */
  lemma TimesChainIff(before: seq<Packet>, pkts: seq<Packet>, scale: int)
    ensures (forall j :: 0 <= j <= |pkts| ==>
        TotalTicks(before + pkts[..j], scale) == TotalTicks(before, scale) + TotalTold(pkts[..j], scale))
      <==> forall p <- pkts :: Fits(p, scale)
  {
    hide Ticks, TotalTicks, TotalTold, Wraps;
    forall j | 0 <= j <= |pkts|
      ensures TotalTicks(before + pkts[..j], scale) == TotalTicks(before, scale) + TotalTold(pkts[..j], scale)
        <==> Wraps(pkts[..j], scale) == 0
    {
      TicksAppend(before, pkts[..j], scale);
      ToldIsLess(pkts[..j], scale);
    }
    NoPrefixWrapsIff(pkts, scale);
  }

  lemma NoPrefixWrapsIff(pkts: seq<Packet>, scale: int)
    ensures (forall j :: 0 <= j <= |pkts| ==> Wraps(pkts[..j], scale) == 0) <==> forall p <- pkts :: Fits(p, scale)
  {
    hide Ticks, Wraps;
    if forall j :: 0 <= j <= |pkts| ==> Wraps(pkts[..j], scale) == 0 {
      forall i | 0 <= i < |pkts| ensures Fits(pkts[i], scale) {
        WrapNext(pkts, i, scale);
      }
    }
    if forall p <- pkts :: Fits(p, scale) {
      forall j | 0 <= j <= |pkts| ensures Wraps(pkts[..j], scale) == 0 {
        assert forall p <- pkts[..j] :: p in pkts;
        NoWrapIff(pkts[..j], scale);
      }
    }
  }

  lemma WrapNext(pkts: seq<Packet>, i: nat, scale: int)
    requires i < |pkts|
    ensures Wraps(pkts[..i + 1], scale) == Wraps(pkts[..i], scale) + Ticks(pkts[i], scale) / TWO32
  {
    hide Ticks;
    assert pkts[..i + 1][..i] == pkts[..i];
  }

  /** The movie fragment box at the front of a file, as a player reads it. */
  function MoofOf(file: seq<byte>): Option<Moof> {
    if |file| < 8 || |file| < U32BE(file) then None else ReadMoof(file[..U32BE(file)])
  }

  function TotalDuration(es: seq<Entry>): nat {
    if es == [] then 0 else TotalDuration(es[..|es| - 1]) + es[|es| - 1].duration
  }

  /** What a player learns of the time line from a file: where it begins, and how long its samples last. */
  predicate TellsTimes(file: seq<byte>, begins: u64, lasts: nat) {
    && MoofOf(file).Some?
    && var m := MoofOf(file).value;
    && |m.tracks| == 1 && m.tracks[0].decodeTime.Some? && m.tracks[0].run.Some?
    && m.tracks[0].decodeTime.value.time == begins && TotalDuration(m.tracks[0].run.value.entries) == lasts
  }

  lemma {:induction false} EntriesLast(pkts: seq<Packet>, scale: int)
    ensures TotalDuration(AsEntries(EntriesOf(pkts, scale))) == TotalTold(pkts, scale)
  {
    hide Ticks;
    if pkts != [] {
      var front, last := EntriesOf(pkts[..|pkts| - 1], scale), EntryOf(pkts[|pkts| - 1], scale);
      EntriesLast(pkts[..|pkts| - 1], scale);
      assert EntriesOf(pkts, scale)[..|pkts| - 1] == front;
      assert AsEntries(front + [last]) == AsEntries(front) + [AsEntry(last)];
      assert (AsEntries(front) + [AsEntry(last)])[..|front|] == AsEntries(front);
    }
  }

  lemma BoxSize(f: Frag, rest: seq<byte>)
    requires |FragBytes(f)| < TWO32
    ensures U32BE(FragBytes(f) + rest) == |FragBytes(f)|
  {
    hide MfhdBytes, LiveTrafBody, BE32, U32BE;
    var body := MfhdBytes(HeadOf(f)) + Box(TRAF, LiveTrafBody(f));
    var size: u32 := 8 + |body|;
    assert FragBytes(f) + rest == BE32(size) + (BE32(MOOF) + body + rest);
    ReadBack32(size, BE32(MOOF) + body + rest);
  }

  lemma FileTellsTimes(seqnum: u32, trackId: byte, start: int, pkts: seq<Packet>, scale: int)
    requires |FileOf(FinalFrag(seqnum, trackId, start, pkts, scale), pkts)| < TWO32 && |pkts| < TWO32
    ensures TellsTimes(FileOf(FinalFrag(seqnum, trackId, start, pkts, scale), pkts), ToU64(start), TotalTold(pkts, scale))
  {
    hide FragBytes, DataOf, EntriesOf, BE32, U32BE, ReadMoof, TrackHeader, AsEntries, TotalDuration, TotalTold, ToU64;
    var f := FinalFrag(seqnum, trackId, start, pkts, scale);
    var file := FileOf(f, pkts);
    FileReadsBack(seqnum, trackId, start, pkts, scale);
    BoxSize(f, BE32(ToU32(8 + |DataOf(pkts)|)) + (BE32(MDAT) + DataOf(pkts)));
    assert file == FragBytes(f) + (BE32(ToU32(8 + |DataOf(pkts)|)) + (BE32(MDAT) + DataOf(pkts)));
    EntriesLast(pkts, scale);
  }

  /** The decode times of the files a stream hands over chain up, each beginning where the samples of the one before it
      end, if and only if the durations of these samples leave their 32-bit fields as the clock leaves its 64 bits. For a
      clock within its range that is: as often upwards as downwards, or, if no time goes back, not at all. */
  lemma FilesChainIff(files: seq<seq<byte>>, numbers: seq<u32>, sent: seq<seq<Packet>>, trackId: byte, scale: int, k: nat)
      returns (begins: u64, lasts: nat, next: u64, more: nat)
    requires Log(files, numbers, sent, trackId, scale) && 0 < k < |sent|
    requires |files[k - 1]| < TWO32 && |files[k]| < TWO32 && |sent[k - 1]| < TWO32 && |sent[k]| < TWO32
    ensures TellsTimes(files[k - 1], begins, lasts) && TellsTimes(files[k], next, more)
    ensures var from, to := TotalTicks(Flatten(sent[..k - 1]), scale), TotalTicks(Flatten(sent[..k]), scale);
      && (next == begins + lasts <==> Wraps(sent[k - 1], scale) == TWO32 * (to / TWO64 - from / TWO64))
      && (0 <= from < TWO64 && 0 <= to < TWO64 ==> (next == begins + lasts <==> Wraps(sent[k - 1], scale) == 0))
      && (0 <= from && to < TWO64 && (forall p <- sent[k - 1] :: Ticks(p, scale) >= 0) ==>
            (next == begins + lasts <==> forall p <- sent[k - 1] :: Fits(p, scale)))
  {
    hide FileOf, FinalFrag, TotalTicks, Flatten, TellsTimes, Ticks, TotalTold, Wraps, ToU64;
    var before, pkts := Flatten(sent[..k - 1]), sent[k - 1];
    var from, to := TotalTicks(before, scale), TotalTicks(Flatten(sent[..k]), scale);
    FlattenSnoc(sent[..k - 1], pkts);
    assert sent[..k] == sent[..k - 1] + [pkts];
    TicksAppend(before, pkts, scale);
    ToldIsLess(pkts, scale);
    FileTellsTimes(numbers[k - 1], trackId, from, pkts, scale);
    FileTellsTimes(numbers[k], trackId, to, sent[k], scale);
    begins, lasts := ToU64(from), TotalTold(pkts, scale);
    next, more := ToU64(to), TotalTold(sent[k], scale);
    ClockWraps(from, to, Wraps(pkts, scale));
    if forall p <- pkts :: Ticks(p, scale) >= 0 {
      NoWrapIff(pkts, scale);
      NotBack(pkts, scale);
    }
  }

  lemma ClockWraps(from: int, to: int, wraps: int)
    ensures ToU64(to) == ToU64(from) + (to - from - TWO32 * wraps) <==> wraps == TWO32 * (to / TWO64 - from / TWO64)
  {
    CutClock(from);
    CutClock(to);
  }

  lemma CutClock(t: int)
    ensures ToU64(t) == t - TWO64 * (t / TWO64)
    ensures 0 <= t < TWO64 ==> t / TWO64 == 0
  {
  }

  lemma {:induction false} NotBack(pkts: seq<Packet>, scale: int)
    requires forall p <- pkts :: Ticks(p, scale) >= 0
    ensures TotalTicks(pkts, scale) >= 0
  {
    hide Ticks;
    if pkts != [] {
      NotBack(pkts[..|pkts| - 1], scale);
    }
  }

  /** Packets stored as the live path stores them: each with the time since the one before. */
  ghost predicate StoredSince(pkts: seq<Packet>, times: seq<int>) {
    && |pkts| == |times|
    && forall i :: 0 <= i < |pkts| ==> pkts[i].rawdur == Since(times, i)
  }

  function Since(times: seq<int>, i: nat): int
    requires i < |times|
  {
    if i == 0 then 0 else times[i] - times[i - 1]
  }

  /** So every packet gets the decode time of the packet before it: the clock in front of packet k shows the time of
      packet k - 1, late by what cutting loses. */
  lemma DecodeTimeIsPrevious(pkts: seq<Packet>, times: seq<int>, scale: u32, k: nat)
    requires StoredSince(pkts, times) && Timescale.Steady(times, scale) && 0 < k < |pkts|
    ensures var lag := (times[k - 1] - times[0]) * scale - TotalTicks(pkts[..k], scale) * SECOND;
      0 <= lag <= (k - 1) * (SECOND - 1)
  {
    hide Timescale.Steady, Timescale.CutDurations, Sums.Prefix, TotalTicks, StoredSince;
    ClockIs(pkts, times, scale, k);
    StoredLength(pkts, times);
    Timescale.CutTimesLag(times, scale, k - 1);
  }

  /** A packet gets its own decode time if and only if less than a tick has passed since the packet before it. */
  lemma DecodeTimeIsOwnIff(pkts: seq<Packet>, times: seq<int>, scale: u32, k: nat)
    requires StoredSince(pkts, times) && Timescale.Steady(times, scale) && 0 < k < |pkts| == |times|
    ensures k <= |Timescale.CutDurations(times, scale)|
    ensures TotalTicks(pkts[..k], scale) == Sums.Prefix(Timescale.CutDurations(times, scale), k)
      <==> (times[k] - times[k - 1]) * scale < SECOND
  {
    hide Timescale.Steady, Timescale.CutDurations, Sums.Prefix, TotalTicks, StoredSince;
    var d := Timescale.CutDurations(times, scale);
    ClockIs(pkts, times, scale, k);
    Sums.PrefixNext(d, k - 1);
    Timescale.CutAt(times, scale, k - 1);
    StepNotBack(times, scale, k);
    NoWholeTick((times[k] - times[k - 1]) * scale);
  }

  lemma StepNotBack(times: seq<int>, scale: u32, k: nat)
    requires Timescale.Steady(times, scale) && 0 < k < |times|
    ensures (times[k] - times[k - 1]) * scale >= 0
  {
    assert Timescale.Step(times, k, scale);
    Timescale.SignOf(times[k] - times[k - 1], scale);
  }

  lemma NoWholeTick(x: nat)
    ensures x / SECOND == 0 <==> x < SECOND
  {
  }

  /** At 90000 ticks a second, of two frames 40 milliseconds apart both are given the decode time 0, where the second
      is due at 3600. */
  lemma SecondFrameEarly(first: Packet, second: Packet)
    requires first.rawdur == 0 && second.rawdur == 40_000_000
    ensures var times := [0, 40_000_000];
      && StoredSince([first, second], times) && Timescale.Steady(times, 90000)
      && TotalTicks([first, second][..0], 90000) == TotalTicks([first, second][..1], 90000) == 0
      && Timescale.CutDurations(times, 90000) == [3600]
  {
    hide TotalTicks, Timescale.CutDurations;
    var times, pkts := [0, 40_000_000], [first, second];
    assert Timescale.Step(times, 1, 90000);
    Timescale.CutAt(times, 90000, 0);
    ClockIs(pkts, times, 90000, 1);
    Stream.NothingYet(90000);
    Sums.PrefixEmpty(Timescale.CutDurations(times, 90000));
    assert pkts[..0] == [];
  }

  lemma StoredLength(pkts: seq<Packet>, times: seq<int>)
    requires StoredSince(pkts, times)
    ensures |pkts| == |times|
  {
  }

  lemma {:induction false} ClockIs(pkts: seq<Packet>, times: seq<int>, scale: u32, k: nat)
    requires StoredSince(pkts, times) && Timescale.Steady(times, scale) && 0 < k < |pkts|
    ensures TotalTicks(pkts[..k], scale) == Sums.Prefix(Timescale.CutDurations(times, scale), k - 1)
  {
    hide Timescale.Steady, Timescale.CutDurations, Mp4Time.TimeToTs, Sums.Prefix;
    var d := Timescale.CutDurations(times, scale);
    assert pkts[..k][..k - 1] == pkts[..k - 1];
    assert TotalTicks(pkts[..k], scale) == TotalTicks(pkts[..k - 1], scale) + Ticks(pkts[k - 1], scale);
    if k == 1 {
      NoTime(scale);
      Stream.NothingYet(scale);
      Sums.PrefixEmpty(d);
      assert pkts[..0] == [];
      assert pkts[0].rawdur == Since(times, 0);
    } else {
      assert pkts[k - 1].rawdur == Since(times, k - 1);
      ClockIs(pkts, times, scale, k - 1);
      Timescale.CutAt(times, scale, k - 2);
      TickIsCut(times, scale, k - 1);
      Sums.PrefixNext(d, k - 2);
    }
  }

  lemma NoTime(scale: int)
    ensures Mp4Time.TimeToTs(0, scale) == 0
  {
  }

  lemma TickIsCut(times: seq<int>, scale: u32, i: nat)
    requires 0 < i < |times| && Timescale.Steady(times, scale)
    ensures Mp4Time.TimeToTs(times[i] - times[i - 1], scale) == (times[i] - times[i - 1]) * scale / SECOND
  {
    assert Timescale.Step(times, i, scale);
    Timescale.SignOf(times[i] - times[i - 1], scale);
    Mp4Time.FitsI64((times[i] - times[i - 1]) * scale);
  }
}
