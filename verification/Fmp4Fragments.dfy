/** Whole fragments: the movie fragment box, the media data behind it and the offsets between them
    (format/fmp4/makefragment.go), and the fragmenter of one track (format/fmp4/trackfrag.go). */
module Fmp4Fragments {
  import opened Bytes
  import opened Buffers
  import opened Fmp4Boxes
  import opened Fmp4Reading
  import opened Fmp4RoundTrip
  import opened Fmp4Tracks
  import opened Fmp4Writing
  import Nalus

  function DataOf(pkts: seq<Packet>): seq<byte> {
    if pkts == [] then [] else pkts[0].data + DataOf(pkts[1..])
  }

  function AllData(fs: seq<Fragment>): seq<byte> {
    if fs == [] then [] else DataOf(fs[0].packets) + AllData(fs[1..])
  }

  function TrafsOf(fs: seq<Fragment>): (ts: seq<Traf>)
    ensures |ts| == |fs|
  {
    if fs == [] then [] else [fs[0].traf] + TrafsOf(fs[1..])
  }

  /** Each run gets the offset of its first byte; the tracks' data follow each other. */
  function PlacedAll(fs: seq<Fragment>, offset: nat): (ts: seq<Traf>)
    ensures |ts| == |fs|
  {
    if fs == [] then []
    else [Placed(fs[0].traf, ToU32(offset))] + PlacedAll(fs[1..], offset + |DataOf(fs[0].packets)|)
  }

  function MoofOf(fs: seq<Fragment>, seqNum: u32, offset: nat): Moof {
    Moof(Some(Mfhd(0, 0, seqNum)), PlacedAll(fs, offset))
  }

  function BareMoof(fs: seq<Fragment>, seqNum: u32): Moof {
    Moof(Some(Mfhd(0, 0, seqNum)), TrafsOf(fs))
  }

  /** Offsets count from the start of the movie fragment box; the data begins behind the header of its own box. */
  function DataBase(fs: seq<Fragment>, seqNum: u32): nat {
    |MoofBytes(BareMoof(fs, seqNum))| + 8
  }

  function FinalMoof(fs: seq<Fragment>, seqNum: u32): Moof {
    MoofOf(fs, seqNum, DataBase(fs, seqNum))
  }

  function FragmentBytes(fs: seq<Fragment>, seqNum: u32, head: seq<byte>): seq<byte> {
    head + MoofBytes(FinalMoof(fs, seqNum)) + BE32(ToU32(8 + |AllData(fs)|)) + BE32(MDAT) + AllData(fs)
  }

  lemma PlacedSameSize(a: Traf, offset: u32)
    ensures |TrafBytes(Placed(a, offset))| == |TrafBytes(a)|
  {
    if a.run.Some? {
      RunSameSize(a.run.value, offset);
    }
  }

  lemma RunSameSize(a: Trun, offset: u32)
    ensures |TrunBytes(a.(dataOffset := offset))| == |TrunBytes(a)|
  {
    hide BE32, Has, EntryBytes;
    EntriesElsewhere(a, offset, a.entries);
  }

  lemma {:induction false} EntriesElsewhere(a: Trun, offset: u32, es: seq<Entry>)
    ensures EntriesBytes(a.(dataOffset := offset), es) == EntriesBytes(a, es)
  {
    hide Has, BE32;
    if es != [] {
      EntriesElsewhere(a, offset, es[1..]);
    }
  }

  lemma {:induction false} TrafsSameSize(fs: seq<Fragment>, offset: nat)
    ensures |TrafsBytes(PlacedAll(fs, offset))| == |TrafsBytes(TrafsOf(fs))|
  {
    hide TrafBytes, Placed;
    if fs != [] {
      PlacedSameSize(fs[0].traf, ToU32(offset));
      TrafsSameSize(fs[1..], offset + |DataOf(fs[0].packets)|);
      assert PlacedAll(fs, offset)[1..] == PlacedAll(fs[1..], offset + |DataOf(fs[0].packets)|);
      assert TrafsOf(fs)[1..] == TrafsOf(fs[1..]);
    }
  }

  /** Offsets do not change the length of the box they are stored in, so they can be computed from its length. */
  lemma MoofSameSize(fs: seq<Fragment>, seqNum: u32, offset: nat)
    ensures |MoofBytes(MoofOf(fs, seqNum, offset))| == |MoofBytes(BareMoof(fs, seqNum))|
  {
    hide TrafsBytes, PlacedAll, TrafsOf, MfhdBytes;
    TrafsSameSize(fs, offset);
  }

  lemma {:induction false} PlacedSnoc(fs: seq<Fragment>, f: Fragment, offset: nat)
    ensures PlacedAll(fs + [f], offset) == PlacedAll(fs, offset) + [Placed(f.traf, ToU32(offset + |AllData(fs)|))]
  {
    hide Placed, DataOf, ToU32, AllData;
    if fs == [] {
      NoFragments(offset);
      NoFragments(offset + |DataOf(f.packets)|);
      assert fs + [f] == [f] && [f][1..] == [];
    } else {
      var x, more := fs[0], fs[1..];
      assert (fs + [f])[1..] == more + [f];
      PlacedSnoc(more, f, offset + |DataOf(x.packets)|);
      TrackFirst(x, more);
      assert fs == [x] + more;
      assert offset + |AllData(fs)| == offset + |DataOf(x.packets)| + |AllData(more)|;
    }
  }

  lemma {:induction false} TrafsSnoc(fs: seq<Fragment>, f: Fragment)
    ensures TrafsOf(fs + [f]) == TrafsOf(fs) + [f.traf]
  {
    if fs == [] {
      assert fs + [f] == [f] && [f][1..] == [];
    } else {
      assert (fs + [f])[1..] == fs[1..] + [f];
      TrafsSnoc(fs[1..], f);
    }
  }

  lemma Upto(fs: seq<Fragment>, i: nat, offset: nat)
    requires i <= |fs|
    ensures fs[..0] == [] && fs[..|fs|] == fs
    ensures i < |fs| ==> PlacedAll(fs[..i + 1], offset) == PlacedAll(fs[..i], offset) + [Placed(fs[i].traf, ToU32(offset + |AllData(fs[..i])|))]
    ensures i < |fs| ==> AllData(fs[..i + 1]) == AllData(fs[..i]) + DataOf(fs[i].packets)
    ensures i < |fs| ==> TrafsOf(fs[..i + 1]) == TrafsOf(fs[..i]) + [fs[i].traf]
  {
    hide PlacedAll, AllData, TrafsOf, DataOf, Placed;
    if i < |fs| {
      assert fs[..i + 1] == fs[..i] + [fs[i]];
      PlacedSnoc(fs[..i], fs[i], offset);
      TrafsSnoc(fs[..i], fs[i]);
      AllDataAppend(fs[..i], [fs[i]]);
      TrackFirst(fs[i], []);
      NoFragments(offset);
      assert [fs[i]] + [] == [fs[i]] && DataOf(fs[i].packets) + [] == DataOf(fs[i].packets);
    }
  }

  lemma {:induction false} DataSnoc(pkts: seq<Packet>, p: Packet)
    ensures DataOf(pkts + [p]) == DataOf(pkts) + p.data
  {
    if pkts == [] {
      assert [p][1..] == [] && pkts + [p] == [p];
    } else {
      assert (pkts + [p])[1..] == pkts[1..] + [p];
      DataSnoc(pkts[1..], p);
    }
  }

  /** The length of a track's data, packet by packet. */
  method DataLength(pkts: seq<Packet>) returns (n: nat)
    ensures n == |DataOf(pkts)|
  {
    n := 0;
    for i := 0 to |pkts|
      invariant n == |DataOf(pkts[..i])|
    {
      assert pkts[..i + 1] == pkts[..i] + [pkts[i]];
      DataSnoc(pkts[..i], pkts[i]);
      n := n + |pkts[i].data|;
    }
    assert pkts[..|pkts|] == pkts;
  }

  method AppendData(b: seq<byte>, pkts: seq<Packet>) returns (r: seq<byte>)
    ensures r == b + DataOf(pkts)
  {
    r := b;
    for i := 0 to |pkts|
      invariant r == b + DataOf(pkts[..i])
    {
      assert pkts[..i + 1] == pkts[..i] + [pkts[i]];
      DataSnoc(pkts[..i], pkts[i]);
      r := r + pkts[i].data;
    }
    assert pkts[..|pkts|] == pkts;
  }

  /** Fills in the data offsets, writes the boxes into a buffer of exactly their length and appends the data. */
  method MarshalFragment(fs: seq<Fragment>, seqNum: u32, head: seq<byte>) returns (bytes: seq<byte>, independent: bool)
    ensures bytes == FragmentBytes(fs, seqNum, head)
    ensures independent <==> forall f <- fs :: f.independent
  {
    hide MoofBytes, PlacedAll, AllData, TrafsOf, DataOf, Wrote, BE32, Zeroed;
    independent := true;
    var trafs := [];
    NoFragments(0);
    for i := 0 to |fs|
      invariant trafs == TrafsOf(fs[..i])
      invariant independent <==> forall f <- fs[..i] :: f.independent
    {
      Upto(fs, i, 0);
      assert fs[..i + 1] == fs[..i] + [fs[i]];
      trafs := trafs + [fs[i].traf];
      if !fs[i].independent {
        independent := false;
      }
    }
    assert fs[..|fs|] == fs;
    var moofLen := MoofLen(Moof(Some(Mfhd(0, 0, seqNum)), trafs));
    var dataBase := moofLen + 8;
    var dataOffset := dataBase;
    var placed := [];
    NoFragments(dataBase);
    for i := 0 to |fs|
      invariant placed == PlacedAll(fs[..i], dataBase) && dataOffset == dataBase + |AllData(fs[..i])|
    {
      Upto(fs, i, dataBase);
      placed := placed + [Placed(fs[i].traf, ToU32(dataOffset))];
      var n := DataLength(fs[i].packets);
      dataOffset := dataOffset + n;
    }
    var moof := Moof(Some(Mfhd(0, 0, seqNum)), placed);
    MoofSameSize(fs, seqNum, dataBase);
    var b := new byte[|head| + dataBase](_ => 0);
    ghost var zeros := b[..];
    WroteNothing(b);
    Put(b, 0, head, zeros, []);
    assert [] + head == head;
    AllZero(zeros, |head|);
    var n := MarshalMoof(moof, b, |head|, zeros, head);
    n := n + |head|;
    Put(b, n, BE32(ToU32(dataOffset - dataBase + 8)), zeros, head + MoofBytes(moof));
    Put(b, n + 4, BE32(MDAT), zeros, head + MoofBytes(moof) + BE32(ToU32(dataOffset - dataBase + 8)));
    ghost var done := head + MoofBytes(moof) + BE32(ToU32(dataOffset - dataBase + 8)) + BE32(MDAT);
    FullBuffer(b, zeros, done);
    bytes := b[..];
    assert bytes + [] == bytes;
    for i := 0 to |fs|
      invariant bytes == done + AllData(fs[..i])
    {
      Upto(fs, i, 0);
      bytes := AppendData(bytes, fs[i].packets);
      Joins(done, AllData(fs[..i]), DataOf(fs[i].packets));
    }
  }

  lemma NoFragments(offset: nat)
    ensures TrafsOf([]) == [] && PlacedAll([], offset) == [] && AllData([]) == []
  {
  }

  lemma AllZero(zeros: seq<byte>, at: nat)
    requires forall k :: 0 <= k < |zeros| ==> zeros[k] == 0
    ensures Zeroed(zeros, at)
  {
  }

  lemma FullBuffer(b: array<byte>, orig: seq<byte>, done: seq<byte>)
    requires Wrote(b, orig, done) && |done| == b.Length
    ensures b[..] == done
  {
  }

  /** Bytes of the packets before packet j. */
  function Before(pkts: seq<Packet>, j: nat): nat
    requires j <= |pkts|
  {
    |DataOf(pkts[..j])|
  }

  lemma {:induction false} DataAppend(x: seq<Packet>, y: seq<Packet>)
    ensures DataOf(x + y) == DataOf(x) + DataOf(y)
  {
    if x == [] {
      assert x + y == y;
    } else {
      assert (x + y)[1..] == x[1..] + y;
      DataAppend(x[1..], y);
    }
  }

  lemma PacketInData(pkts: seq<Packet>, j: nat)
    requires j < |pkts|
    ensures var from := Before(pkts, j);
      from + |pkts[j].data| <= |DataOf(pkts)| && DataOf(pkts)[from..from + |pkts[j].data|] == pkts[j].data
  {
    hide DataOf;
    assert pkts == pkts[..j] + ([pkts[j]] + pkts[j + 1..]);
    DataAppend(pkts[..j], [pkts[j]] + pkts[j + 1..]);
    DataFirst(pkts[j], pkts[j + 1..]);
  }

  lemma DataFirst(p: Packet, more: seq<Packet>)
    ensures DataOf([p] + more) == p.data + DataOf(more)
  {
    assert ([p] + more)[1..] == more;
  }

  lemma {:induction false} AllDataAppend(x: seq<Fragment>, y: seq<Fragment>)
    ensures AllData(x + y) == AllData(x) + AllData(y)
  {
    hide DataOf;
    if x == [] {
      assert x + y == y;
    } else {
      assert (x + y)[1..] == x[1..] + y;
      AllDataAppend(x[1..], y);
      Joins(DataOf(x[0].packets), AllData(x[1..]), AllData(y));
    }
  }

  lemma TrackInData(fs: seq<Fragment>, i: nat)
    requires i < |fs|
    ensures var from := |AllData(fs[..i])|; var d := DataOf(fs[i].packets);
      from + |d| <= |AllData(fs)| && AllData(fs)[from..from + |d|] == d
  {
    hide AllData, DataOf;
    assert fs == fs[..i] + ([fs[i]] + fs[i + 1..]);
    AllDataAppend(fs[..i], [fs[i]] + fs[i + 1..]);
    TrackFirst(fs[i], fs[i + 1..]);
  }

  lemma TrackFirst(f: Fragment, more: seq<Fragment>)
    ensures AllData([f] + more) == DataOf(f.packets) + AllData(more)
  {
    hide DataOf;
    assert ([f] + more)[1..] == more;
  }

  lemma {:induction false} PlacedAt(fs: seq<Fragment>, offset: nat, i: nat)
    requires i < |fs|
    ensures PlacedAll(fs, offset)[i] == Placed(fs[i].traf, ToU32(offset + |AllData(fs[..i])|))
  {
    hide Placed, DataOf;
    if i == 0 {
      assert fs[..0] == [];
    } else {
      var next := offset + |DataOf(fs[0].packets)|;
      PlacedAt(fs[1..], next, i - 1);
      assert fs[..i] == [fs[0]] + fs[1..][..i - 1];
      TrackFirst(fs[0], fs[1..][..i - 1]);
      assert PlacedAll(fs, offset)[i] == PlacedAll(fs[1..], next)[i - 1];
    }
  }

  lemma Pieces(a: seq<byte>, b: seq<byte>, c: seq<byte>, from: nat, to: nat)
    requires a[..] == b + c && from <= to <= |c|
    ensures a[|b| + from..|b| + to] == c[from..to]
  {
  }

  /** For any set of tracks whose fragment stays below 4 GiB: counted from the first byte of the movie fragment box,
      the data offset of a track plus the lengths of its earlier packets leads to exactly the bytes of a packet. */
  lemma DataIsWhereTold(fs: seq<Fragment>, seqNum: u32, head: seq<byte>, i: nat, j: nat)
    requires i < |fs| && j < |fs[i].packets| && fs[i].traf.run.Some?
    requires DataBase(fs, seqNum) + |AllData(fs)| < TWO32
    ensures var bytes, moof := FragmentBytes(fs, seqNum, head), FinalMoof(fs, seqNum);
      var p := fs[i].packets[j];
      && moof.tracks[i].run.Some?
      && var at := |head| + moof.tracks[i].run.value.dataOffset + Before(fs[i].packets, j);
         at + |p.data| <= |bytes| && bytes[at..at + |p.data|] == p.data
  {
    hide MoofBytes, AllData, PlacedAll, DataOf, BE32, TrafsOf;
    var base := DataBase(fs, seqNum);
    MoofSameSize(fs, seqNum, base);
    var front := head + MoofBytes(FinalMoof(fs, seqNum)) + BE32(ToU32(8 + |AllData(fs)|)) + BE32(MDAT);
    assert |front| == |head| + base;
    PlacedAt(fs, base, i);
    TrackInData(fs, i);
    PacketInData(fs[i].packets, j);
    var d := DataOf(fs[i].packets);
    var t := |AllData(fs[..i])|;
    var from := t + Before(fs[i].packets, j);
    var n := |fs[i].packets[j].data|;
    Nested(AllData(fs), d, t, Before(fs[i].packets, j), n);
    assert ToU32(base + t) == base + t;
    Pieces(FragmentBytes(fs, seqNum, head), front, AllData(fs), from, from + n);
  }

  lemma Nested(a: seq<byte>, d: seq<byte>, t: nat, from: nat, n: nat)
    requires t + |d| <= |a| && a[t..t + |d|] == d && from + n <= |d|
    ensures a[t + from..t + from + n] == d[from..from + n]
  {
    var x, y := a[t + from..t + from + n], d[from..from + n];
    assert |x| == |y| == n;
    forall k | 0 <= k < n
      ensures x[k] == y[k]
    {
      assert a[t..t + |d|][from + k] == a[t + from + k];
    }
  }

  /** The boxes in front of the data are read back as they were written, and the size of the data box is exact. */
  lemma FragmentReadsBackIff(fs: seq<Fragment>, seqNum: u32, head: seq<byte>)
    requires DataBase(fs, seqNum) + |AllData(fs)| < TWO32
    requires Small(PlacedAll(fs, DataBase(fs, seqNum)))
    ensures var bytes, moof := FragmentBytes(fs, seqNum, head), FinalMoof(fs, seqNum);
      var n, m := |head|, |head| + DataBase(fs, seqNum) - 8;
      && m + 8 <= |bytes|
      && (ReadMoof(bytes[n..m]) == Some(SeenMoof(moof)) <==> AllStraight(moof.tracks))
      && m + U32BE(bytes[m..]) == |bytes| && U32BE(bytes[m + 4..]) == MDAT
  {
    hide MoofBytes, AllData, PlacedAll, DataOf, BE32, U32BE, TrafsOf, Small, ReadMoof, AllStraight, SeenMoof;
    MoofSameSize(fs, seqNum, DataBase(fs, seqNum));
    var moof, d := FinalMoof(fs, seqNum), AllData(fs);
    var size: u32 := 8 + |d|;
    assert ToU32(8 + |d|) == size;
    var bytes := FragmentBytes(fs, seqNum, head);
    var m := |head| + |MoofBytes(moof)|;
    assert bytes[|head|..m] == MoofBytes(moof);
    MoofReadsBackIff(moof);
    assert bytes[m..] == BE32(size) + (BE32(MDAT) + d);
    ReadBack32(size, BE32(MDAT) + d);
    assert bytes[m + 4..] == BE32(MDAT) + d;
    ReadBack32(MDAT, d);
  }

  /** A reader of the boxes is told of every packet its time and length and its flags, in whatever defaults they were
      moved; the first decode time is the tick nearest to the first packet's time. */
  lemma FragmentTells(t: Track, f: Fragment, next: Packet, seqNum: u32, head: seq<byte>)
    requires t.scale <= SECOND && Tells(t, f, next) && Straight(f.traf)
    requires DataBase([f], seqNum) + |AllData([f])| < TWO32 && |f.packets| < TWO32
    ensures var n := |head|; var m := n + DataBase([f], seqNum) - 8;
      m <= |FragmentBytes([f], seqNum, head)| && SaysAll(t, f, next, ReadMoof(FragmentBytes([f], seqNum, head)[n..m]))
  {
    hide MoofBytes, AllData, DataOf, BE32, U32BE, TrafsOf, ReadMoof, Sample, Tick, Told, SeenTraf, SeenMoof;
    var offset := ToU32(DataBase([f], seqNum));
    OneTrack(f, DataBase([f], seqNum));
    FragmentReadsBackIff([f], seqNum, head);
    OneSeen(Mfhd(0, 0, seqNum), Placed(f.traf, offset));
    var r := ReadMoof(FragmentBytes([f], seqNum, head)[|head|..|head| + DataBase([f], seqNum) - 8]);
    assert r == Some(SeenMoof(FinalMoof([f], seqNum)));
    SaysEach(t, f, next, offset, r);
  }

  lemma SaysEach(t: Track, f: Fragment, next: Packet, offset: u32, r: Option<Moof>)
    requires t.scale <= SECOND && Tells(t, f, next)
    requires r.Some? && r.value.tracks == [SeenTraf(Placed(f.traf, offset))]
    ensures SaysAll(t, f, next, r)
  {
    hide Sample, Tick, Told, SeenTraf;
    TimeSeen(f.traf, offset);
    assert TellsSample(t, f, next, offset, 0);
    var b := r.value.tracks[0];
    forall i | 0 <= i < |f.packets|
      ensures Told(b.header.value, b.run.value, i) == Sample(t, f.packets + [next], i)
    {
      assert TellsSample(t, f, next, offset, i);
    }
  }

  /** What the boxes of a single track say of its packets. */
  ghost predicate SaysAll(t: Track, f: Fragment, next: Packet, r: Option<Moof>)
    requires t.scale <= SECOND && f.packets != []
  {
    && r.Some? && |r.value.tracks| == 1
    && var b := r.value.tracks[0];
      && b.decodeTime == Some(Tfdt(1, 0, Tick(f.packets[0].time, t.scale)))
      && b.header.Some? && b.run.Some? && |b.run.value.entries| == |f.packets|
      && forall i :: 0 <= i < |f.packets| ==> Told(b.header.value, b.run.value, i) == Sample(t, f.packets + [next], i)
  }

  lemma OneTrack(f: Fragment, offset: nat)
    requires f.traf.run.Some? && Straight(f.traf) && |f.traf.run.value.entries| < TWO32
    ensures PlacedAll([f], offset) == [Placed(f.traf, ToU32(offset))]
    ensures AllStraight(PlacedAll([f], offset)) && Small(PlacedAll([f], offset))
  {
    hide DataOf, Has;
    assert [f][1..] == [];
    var p := [Placed(f.traf, ToU32(offset))];
    assert PlacedAll([f], offset) == p + PlacedAll([f][1..], offset + |DataOf(f.packets)|);
    assert p[1..] == [];
  }

  lemma OneSeen(h: Mfhd, a: Traf)
    ensures SeenMoof(Moof(Some(h), [a])).tracks == [SeenTraf(a)]
  {
    hide SeenTraf;
    assert [a][1..] == [];
    assert SeenTrafs([a]) == [SeenTraf(a)] + SeenTrafs([]);
  }

  lemma TimeSeen(a: Traf, offset: u32)
    requires a.decodeTime.Some? && a.decodeTime.value.version == 1
    ensures SeenTraf(Placed(a, offset)).decodeTime == a.decodeTime
  {
    hide SeenTfhd, SeenTrun;
  }

  /** Packets of H.264 tracks are length-prefixed before they are kept. */
  function Kept(h264: bool, pkt: Packet): Packet
    requires |pkt.data| < TWO32
  {
    if h264 then pkt.(data := Nalus.Reframed(pkt.data)) else pkt
  }

  /** Sum of the times from each packet to the next. */
  function Gaps(pkts: seq<Packet>): int {
    if |pkts| < 2 then 0
    else Gaps(pkts[..|pkts| - 1]) + (pkts[|pkts| - 1].time - pkts[|pkts| - 2].time)
  }

  lemma {:induction false} GapsAre(pkts: seq<Packet>)
    ensures Gaps(pkts) == if |pkts| < 2 then 0 else pkts[|pkts| - 1].time - pkts[0].time
  {
    if |pkts| >= 2 {
      GapsAre(pkts[..|pkts| - 1]);
    }
  }

  /** The packet after fragment k. */
  function NextOf(cuts: seq<seq<Packet>>, pending: seq<Packet>, k: nat): Packet
    requires k < |cuts| && pending != [] && forall i :: 0 <= i < |cuts| ==> cuts[i] != []
  {
    if k + 1 < |cuts| then cuts[k + 1][0] else pending[0]
  }

  ghost predicate Logged(t: Track, log: seq<Fragment>, cuts: seq<seq<Packet>>, pending: seq<Packet>)
    requires t.scale <= SECOND
  {
    && |log| == |cuts| && (cuts != [] ==> pending != [])
    && (forall i :: 0 <= i < |cuts| ==> cuts[i] != [])
    && (forall k :: 0 <= k < |log| ==> log[k].packets == cuts[k] && Tells(t, log[k], NextOf(cuts, pending, k)))
  }

  lemma LoggedMore(t: Track, log: seq<Fragment>, cuts: seq<seq<Packet>>, pending: seq<Packet>, pkt: Packet)
    requires t.scale <= SECOND && Logged(t, log, cuts, pending)
    ensures Logged(t, log, cuts, pending + [pkt])
  {
    hide Tells;
  }

  lemma LoggedNext(t: Track, log: seq<Fragment>, cuts: seq<seq<Packet>>, pkts: seq<Packet>, next: Packet, f: Fragment)
    requires t.scale <= SECOND && Logged(t, log, cuts, pkts + [next])
    requires pkts != [] && f.packets == pkts && Tells(t, f, next)
    ensures Logged(t, log + [f], cuts + [pkts], [next])
  {
    hide Tells;
    var after := cuts + [pkts];
    forall k | 0 <= k < |log| ensures NextOf(after, [next], k) == NextOf(cuts, pkts + [next], k) {
    }
  }

  /** The fragments chain up on every run: fragment k begins at its first packet's tick and the one after it at the
      tick of the packet after; its samples, and the packet after them, all come at their own ticks exactly if no step
      between them goes back or beyond 32 bits. */
  lemma FragmentsChainIff(t: Track, log: seq<Fragment>, cuts: seq<seq<Packet>>, pending: seq<Packet>, k: nat)
    requires t.scale <= SECOND && Logged(t, log, cuts, pending) && k < |log|
    ensures var pkts := cuts[k] + [NextOf(cuts, pending, k)];
      var n := |cuts[k]|;
      && log[k].traf.decodeTime == Some(Tfdt(1, 0, Tick(pkts[0].time, t.scale)))
      && (k + 1 < |log| ==> log[k + 1].traf.decodeTime == Some(Tfdt(1, 0, Tick(pkts[n].time, t.scale))))
      && ((forall j :: 0 <= j <= n ==> OnTime(t, pkts, j)) <==> (forall i :: 0 <= i < n ==> StepFits(t, pkts, i)))
    ensures var pkts := cuts[k] + [NextOf(cuts, pending, k)];
      var n := |cuts[k]|;
      k + 1 < |log| && (forall i :: 0 <= i < n ==> StepFits(t, pkts, i)) ==>
        log[k + 1].traf.decodeTime.value.time == log[k].traf.decodeTime.value.time + Elapsed(t, pkts, n)
  {
    hide Tick, OnTime, StepFits, Elapsed, Told, Sample, TellsSample;
    var pkts, n := cuts[k] + [NextOf(cuts, pending, k)], |cuts[k]|;
    TimelineIff(t, pkts, n);
    assert Tells(t, log[k], NextOf(cuts, pending, k));
    if k + 1 < |log| {
      assert Tells(t, log[k + 1], NextOf(cuts, pending, k + 1));
    }
    if OnTime(t, pkts, n) {
      AtItsTick(t, pkts, n);
    }
  }

  lemma AtItsTick(t: Track, pkts: seq<Packet>, j: nat)
    requires t.scale <= SECOND && j < |pkts| && OnTime(t, pkts, j)
    ensures Tick(pkts[0].time, t.scale) + Elapsed(t, pkts, j) == Tick(pkts[j].time, t.scale)
  {
    hide Tick, Elapsed;
  }

  /** The fragmenter of one track. */
  class TrackFragmenter {
    const track: Track
    const h264: bool
    const segmentHeader: seq<byte>
    var pending: seq<Packet>
    var seqNum: u32
    var shdrw: bool
    ghost var written: seq<Packet>
    ghost var cuts: seq<seq<Packet>>
    ghost var log: seq<Fragment>

    constructor (track: Track, h264: bool, segmentHeader: seq<byte>)
      requires track.scale <= SECOND
      ensures Valid() && written == [] && cuts == [] && !shdrw && seqNum == 0
      ensures this.track == track && this.h264 == h264 && this.segmentHeader == segmentHeader
    {
      this.track, this.h264, this.segmentHeader := track, h264, segmentHeader;
      pending, seqNum, shdrw := [], 0, false;
      written, cuts, log := [], [], [];
    }

    /** On every run, the packets of the fragments so far and the pending ones are all that were written, in order, and
        each fragment tells of its own packets up to the one after them. */
    ghost predicate Valid()
      reads this
    {
      track.scale <= SECOND && Flatten(cuts) + pending == written && Logged(track, log, cuts, pending)
    }

    method WritePacket(pkt: Packet)
      requires Valid() && |pkt.data| < TWO32
      modifies `pending, `written
      ensures Valid() && written == old(written) + [Kept(h264, pkt)] && pending == old(pending) + [Kept(h264, pkt)]
    {
      hide Flatten, Nalus.Reframed, Logged;
      LoggedMore(track, log, cuts, pending, Kept(h264, pkt));
      var kept := pkt;
      if h264 {
        var b := Nalus.Reframe(pkt.data);
        kept := pkt.(data := b);
      }
      pending := pending + [kept];
      written := written + [kept];
      assert Flatten(cuts) + (old(pending) + [kept]) == Flatten(cuts) + old(pending) + [kept];
    }

    /** The sum of the gaps between the pending packets. */
    method Duration() returns (d: int)
      ensures d == Gaps(pending)
    {
      GapsAre(pending);
      if |pending| < 2 {
        return 0;
      }
      d := pending[|pending| - 1].time - pending[0].time;
    }

    /** The next fragment begins a segment. */
    method NewSegment()
      modifies `shdrw
      ensures !shdrw
    {
      shdrw := false;
    }

    /** Turns all pending packets but the last into a fragment; the last one tells how long the one before it lasts,
        and stays. */
    method MakeFragment() returns (f: Option<Fragment>)
      requires Valid()
      modifies `pending, `cuts, `log
      ensures Valid() && (f.None? <==> |old(pending)| < 2)
      ensures log == if f.None? then old(log) else old(log) + [f.value]
      ensures f.None? ==> pending == old(pending) && cuts == old(cuts)
      ensures f.Some? ==> pending == [old(pending)[|old(pending)| - 1]] && f.value.packets == old(pending)[..|old(pending)| - 1]
      ensures f.Some? ==> cuts == old(cuts) + [f.value.packets] && Tells(track, f.value, pending[0])
      ensures f.Some? ==> (Straight(f.value.traf) <==> !Early(track.scale, f.value.packets))
      ensures f.Some? ==> (f.value.independent <==> f.value.packets[0].isKeyFrame || !track.video)
    {
      hide Flatten, Sample, Tells, Straight, Early, Tick, Shared, CtsOf, Built, Logged;
      if |pending| < 2 {
        return None;
      }
      var entryCount := |pending| - 1;
      ghost var pkts, next := pending[..entryCount], pending[entryCount];
      assert pending == pkts + [next];
      var startDTS := Tick(pending[0].time, track.scale);
      var defaultFlags := if track.video then NON_KEYFRAME else NO_DEPENDENCIES;
      var curDTS: int := startDTS;
      var d := Defaults(0, 0, 0, 0);
      var entries: seq<Entry> := [];
      var cts, version: byte := false, 0;
      NoneEarly(track.scale, pending);
      for i := 0 to entryCount
        invariant pending == old(pending) && cuts == old(cuts) && written == old(written) && log == old(log)
        invariant |entries| == i && curDTS == Tick(pending[i].time, track.scale)
        invariant forall j :: 0 <= j < i ==> entries[j] == Sample(track, pending, j) && (!cts ==> entries[j].cts == 0)
        invariant entries == [] || Shared(d, entries)
        invariant version > 0 <==> Early(track.scale, pending[..i])
        invariant version > 0 ==> cts
      {
        var pkt := pending[i];
        var nextDTS: int := Tick(pending[i + 1].time, track.scale);
        var entry := Entry(ToU32(nextDTS - curDTS), ToU32(|pkt.data|), defaultFlags, 0);
        if pkt.isKeyFrame {
          entry := entry.(flags := NO_DEPENDENCIES);
        }
        ghost var before, bare := d, entry;
        if i == 0 {
          d := Defaults(entry.duration, entry.size, entry.flags, entry.flags);
        } else {
          if entry.duration != d.duration {
            d := d.(duration := 0);
          }
          if entry.size != d.size {
            d := d.(size := 0);
          }
          if i == 1 {
            d := d.(flags := entry.flags);
          } else if entry.flags != d.flags {
            d := d.(flags := 0);
          }
        }
        if pkt.compositionTime != 0 {
          cts := true;
          var relCTS := CtsOf(pkt, track.scale);
          if relCTS < 0 {
            version := 1;
          }
          entry := entry.(cts := relCTS);
        }
        SampleIs(track, pending, i, entry);
        assert d == NextDefaults(before, entry, i);
        SharedNext(before, entries, entry);
        EarlyNext(track.scale, pending, i);
        curDTS := nextDTS;
        entries := entries + [entry];
      }
      f := Some(Fragment(Built(track, startDTS, version, cts, d, entries), pending[..entryCount],
          d.first / NO_DEPENDENCIES % 2 == 1));
      TellsBuilt(track, version, cts, d, entries, pkts, next, d.first / NO_DEPENDENCIES % 2 == 1);
      BuiltStraight(track, startDTS, version, cts, d, entries);
      FirstFlags(track, pending, d, entries);
      FlattenSnoc(cuts, pkts);
      LoggedNext(track, log, cuts, pkts, next, f.value);
      cuts, log := cuts + [pkts], log + [f.value];
      pending := [pending[entryCount]];
      assert Flatten(old(cuts)) + (pkts + [next]) == Flatten(old(cuts)) + pkts + [next];
    }

    static lemma NoneEarly(scale: u32, pkts: seq<Packet>)
      ensures !Early(scale, pkts[..0])
    {
    }

    static lemma EarlyNext(scale: u32, pkts: seq<Packet>, i: nat)
      requires i < |pkts|
      ensures Early(scale, pkts[..i + 1]) <==> Early(scale, pkts[..i]) || IsEarly(scale, pkts[i])
    {
      hide IsEarly;
      assert pkts[..i + 1][..i] == pkts[..i];
    }

    static lemma SampleIs(t: Track, pkts: seq<Packet>, i: nat, e: Entry)
      requires t.scale <= SECOND && i + 1 < |pkts|
      requires e.duration == ToU32(Tick(pkts[i + 1].time, t.scale) - Tick(pkts[i].time, t.scale)) && e.size
          == ToU32(|pkts[i].data|)
      requires e.flags == if pkts[i].isKeyFrame || !t.video then NO_DEPENDENCIES else NON_KEYFRAME
      requires e.cts == if pkts[i].compositionTime != 0 then CtsOf(pkts[i], t.scale) else 0
      ensures e == Sample(t, pkts, i)
    {
      hide Tick, CtsOf;
    }

    static lemma FirstFlags(t: Track, pkts: seq<Packet>, d: Defaults, es: seq<Entry>)
      requires t.scale <= SECOND && |pkts| >= 2 && Shared(d, es) && es[0] == Sample(t, pkts, 0)
      ensures d.first / NO_DEPENDENCIES % 2 == 1 <==> pkts[0].isKeyFrame || !t.video
    {
      hide Tick, CtsOf;
    }

    /** A fragment of the pending packets, in front of which the first fragment of a segment has the segment's
        header. */
    method NextFragment() returns (bytes: Option<seq<byte>>, independent: bool, duration: int,
        ghost f: Option<Fragment>)
      requires Valid()
      modifies `pending, `cuts, `log, `seqNum, `shdrw
      ensures Valid() && (f.None? <==> |old(pending)| < 2) && (bytes.Some? <==> f.Some?)
      ensures f.None? ==> pending == old(pending) && cuts == old(cuts) && seqNum == old(seqNum) && shdrw == old(shdrw)
      ensures f.Some? ==> cuts == old(cuts) + [f.value.packets] && f.value.packets + pending == old(pending) && |pending| == 1
      ensures f.Some? ==> seqNum == ToU32(old(seqNum) + 1) && shdrw
      ensures f.Some? ==> bytes.value == FragmentBytes([f.value], seqNum, if old(shdrw) then [] else segmentHeader)
      ensures f.Some? ==> Tells(track, f.value, pending[0]) && (Straight(f.value.traf) <==> !Early(track.scale, f.value.packets))
      ensures f.Some? ==> (independent <==> f.value.packets[0].isKeyFrame || !track.video)
      ensures f.Some? ==> duration == Gaps(f.value.packets + pending)
      ensures log == if f.None? then old(log) else old(log) + [f.value]
    {
      hide Flatten, Tells, Straight, Early, FragmentBytes, Logged, Gaps;
      duration := Duration();
      var tf := MakeFragment();
      f := tf;
      if tf.None? {
        return None, false, 0, f;
      }
      seqNum := ToU32(seqNum + 1);
      var initial := !shdrw;
      shdrw := true;
      var b;
      b, independent := MarshalFragment([tf.value], seqNum, if initial then segmentHeader else []);
      bytes := Some(b);
      assert f.value.packets + pending == old(pending);
      assert [tf.value][0] == tf.value;
    }
  }
}
