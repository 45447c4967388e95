/** Cutting pending packets into a track fragment, with fields common to all samples moved into defaults
    (format/fmp4/makefragment.go, format/fmp4/trackfrag.go). */
module Fmp4Tracks {
  import opened Bytes
  import opened Fmp4Boxes
  import opened Fmp4RoundTrip
  import Bits
  import Timescale

  datatype Packet = Packet(time: int, compositionTime: int, isKeyFrame: bool, data: seq<byte>)

  /** A time in ticks of a track. Scales up to a tick per nanosecond never overflow. */
  function Tick(t: int, scale: u32): u64
    requires scale <= SECOND
  {
    NoPanic(t, scale);
    Timescale.ToScale(t, scale).value
  }

  lemma NoPanic(t: int, scale: u32)
    requires scale <= SECOND
    ensures Timescale.ToScale(t, scale).Some?
  {
    var u := ToU64(t);
    Timescale.Mp4Time.MulMonotone(scale, SECOND, u);
    assert u * scale <= u * SECOND;
    Timescale.Mp4Time.DivMonotone(u * scale, u * SECOND, SECOND);
  }

  datatype Track = Track(id: u32, scale: u32, video: bool)

  /** What a fragment has to say of sample i, whose duration is told by the packet after it. */
  function Sample(t: Track, pkts: seq<Packet>, i: nat): Entry
    requires t.scale <= SECOND && i + 1 < |pkts|
  {
    var pkt := pkts[i];
    Entry(ToU32(Tick(pkts[i + 1].time, t.scale) - Tick(pkt.time, t.scale)),
          ToU32(|pkt.data|),
          if pkt.isKeyFrame || !t.video then NO_DEPENDENCIES else NON_KEYFRAME,
          if pkt.compositionTime != 0 then CtsOf(pkt, t.scale) else 0)
  }

  function CtsOf(pkt: Packet, scale: u32): i32 {
    WordFits(Timescale.Rounded(pkt.compositionTime, scale));
    Timescale.Relative(pkt.compositionTime, scale)
  }

  lemma WordFits(x: int)
    ensures -0x8000_0000 <= ToI32(x) < 0x8000_0000
  {
  }

  /** What a reader takes for sample i of a run: its own field if the run has such fields, else the default of the
      fragment; the first sample's flags may be told apart (section 8.8.8 of ISO/IEC 14496-12). */
  function Told(h: Tfhd, r: Trun, i: nat): Entry
    requires i < |r.entries|
  {
    var e := r.entries[i];
    Entry(if Has(r.flags, SAMPLE_DURATION) then e.duration else h.defaultDuration,
          if Has(r.flags, SAMPLE_SIZE) then e.size else h.defaultSize,
          if Has(r.flags, SAMPLE_FLAGS) then e.flags
          else if i == 0 && Has(r.flags, FIRST_SAMPLE_FLAGS) then r.firstSampleFlags
          else h.defaultFlags,
          if Has(r.flags, SAMPLE_CTS) then e.cts else 0)
  }

  /** The flags of a run: a field is told of every sample unless it has a default. */
  function RunFlags(cts: bool, size: bool, duration: bool, flags: bool, first: bool): u24 {
    DATA_OFFSET + (if cts then SAMPLE_CTS else 0) + (if size then SAMPLE_SIZE else 0)
    + (if duration then SAMPLE_DURATION else 0) + (if flags then SAMPLE_FLAGS else 0)
        + (if first then FIRST_SAMPLE_FLAGS else 0)
  }

  lemma RunFlagBits(cts: bool, size: bool, duration: bool, flags: bool, first: bool)
    ensures var f := RunFlags(cts, size, duration, flags, first);
      && Has(f, DATA_OFFSET) && Has(f, SAMPLE_CTS) == cts && Has(f, SAMPLE_SIZE) == size
      && Has(f, SAMPLE_DURATION) == duration && Has(f, SAMPLE_FLAGS) == flags && Has(f, FIRST_SAMPLE_FLAGS) == first
  {
    hide Has;
    var f := RunFlags(cts, size, duration, flags, first);
    var c, s, d := (if cts then 1 else 0), (if size then 1 else 0), (if duration then 1 else 0);
    var g, t := (if flags then 1 else 0), (if first then 1 else 0);
    BitIs(f, 0x01, 2 * (2 * t + 0x80 * d + 0x100 * s + 0x200 * g + 0x400 * c), 1, 0);
    BitIs(f, 0x04, 2 * (0x20 * d + 0x40 * s + 0x80 * g + 0x100 * c), t, 1);
    BitIs(f, 0x100, 2 * (s + 2 * g + 4 * c), d, 4 * t + 1);
    BitIs(f, 0x200, 2 * (g + 2 * c), s, 0x100 * d + 4 * t + 1);
    BitIs(f, 0x400, 2 * c, g, 0x200 * s + 0x100 * d + 4 * t + 1);
    BitIs(f, 0x800, 0, c, 0x400 * g + 0x200 * s + 0x100 * d + 4 * t + 1);
  }

  /** A number cut at one of its bits. */
  lemma BitIs(f: u24, bit: nat, high: nat, d: nat, low: nat)
    requires f == bit * (high + d) + low && d < 2 && low < bit && high % 2 == 0
    ensures Has(f, bit) <==> d == 1
  {
    Bits.RemainderOf(bit, high + d, low);
  }

  function HeaderFlags(size: bool, duration: bool, flags: bool): u24 {
    DEFAULT_BASE_IS_MOOF + (if size then DEFAULT_SIZE else 0) + (if duration then DEFAULT_DURATION else 0)
    + (if flags then DEFAULT_FLAGS else 0)
  }

  lemma HeaderFlagBits(size: bool, duration: bool, flags: bool)
    ensures var f := HeaderFlags(size, duration, flags);
      && Has(f, DEFAULT_SIZE) == size && Has(f, DEFAULT_DURATION) == duration && Has(f, DEFAULT_FLAGS) == flags
      && !Has(f, BASE_DATA_OFFSET) && !Has(f, STSD_ID)
  {
  }

  /** The defaults in a fragment, while its samples are gone through. A default that some sample does not share is
      cleared and stays cleared. */
  datatype Defaults = Defaults(duration: u32, size: u32, flags: u32, first: u32)

  function NextDefaults(d: Defaults, e: Entry, i: nat): Defaults {
    if i == 0 then Defaults(e.duration, e.size, e.flags, e.flags)
    else
      Defaults(if e.duration != d.duration then 0 else d.duration,
               if e.size != d.size then 0 else d.size,
               if i == 1 then e.flags else if e.flags != d.flags then 0 else d.flags,
               d.first)
  }

  /** Remaining defaults hold for every sample so far, those of flags for every sample but the first. */
  ghost predicate Shared(d: Defaults, es: seq<Entry>) {
    && es != [] && d.first == es[0].flags && (|es| == 1 ==> d.flags == d.first)
    && forall j :: 0 <= j < |es| ==> Agrees(d, es[j], j)
  }

  predicate Agrees(d: Defaults, e: Entry, j: nat) {
    && (d.duration != 0 ==> e.duration == d.duration) && (d.size != 0 ==> e.size == d.size)
    && (d.flags != 0 && j > 0 ==> e.flags == d.flags)
  }

  lemma SharedNext(d: Defaults, es: seq<Entry>, e: Entry)
    requires es == [] || Shared(d, es)
    ensures Shared(NextDefaults(d, e, |es|), es + [e])
  {
    var n, now := NextDefaults(d, e, |es|), es + [e];
    forall j | 0 <= j < |now|
      ensures Agrees(n, now[j], j)
    {
      if j < |es| {
        assert now[j] == es[j] && Agrees(d, es[j], j);
      }
    }
  }

  /** The fragment that follows from the defaults. */
  function Built(t: Track, start: u64, version: byte, cts: bool, d: Defaults, es: seq<Entry>): Traf {
    var first := d.flags != 0 && d.first != d.flags;
    Traf(Some(Tfhd(0, HeaderFlags(d.size != 0, d.duration != 0, d.flags != 0), t.id, 0, 0, d.duration, d.size,
        d.flags)),
         Some(Tfdt(1, 0, start)),
         Some(Trun(version, RunFlags(cts, d.size == 0, d.duration == 0, d.flags == 0, first), 0, d.first, es)))
  }

  /** Whatever defaults remain, the boxes tell of every sample what it is. */
  lemma DefaultsTell(t: Track, start: u64, version: byte, cts: bool, d: Defaults, es: seq<Entry>, offset: u32, i: nat)
    requires Shared(d, es) && i < |es| && (!cts ==> es[i].cts == 0)
    ensures var b := SeenTraf(Built(t, start, version, cts, d,
        es).(run := Some(Built(t, start, version, cts, d, es).run.value.(dataOffset := offset))));
      |b.run.value.entries| == |es| && Told(b.header.value, b.run.value, i) == es[i]
  {
    hide Has, RunFlags, HeaderFlags, SeenEntry, SeenEntries;
    var first := d.flags != 0 && d.first != d.flags;
    RunFlagBits(cts, d.size == 0, d.duration == 0, d.flags == 0, first);
    HeaderFlagBits(d.size != 0, d.duration != 0, d.flags != 0);
    var flags := RunFlags(cts, d.size == 0, d.duration == 0, d.flags == 0, first);
    SeenAt(flags, es, i);
    SeenParts(flags, es[i]);
    assert Agrees(d, es[i], i);
  }

  lemma {:induction false} SeenAt(flags: u24, es: seq<Entry>, i: nat)
    requires i < |es|
    ensures SeenEntries(flags, es)[i] == SeenEntry(flags, es[i])
  {
    hide SeenEntry;
    if i > 0 {
      SeenAt(flags, es[1..], i - 1);
    }
  }

  lemma SeenParts(flags: u24, e: Entry)
    ensures var s := SeenEntry(flags, e);
      && (Has(flags, SAMPLE_DURATION) ==> s.duration == e.duration) && (Has(flags, SAMPLE_SIZE) ==> s.size == e.size)
      && (Has(flags, SAMPLE_FLAGS) ==> s.flags == e.flags) && (Has(flags, SAMPLE_CTS) ==> s.cts == e.cts)
  {
    hide Has;
  }

  /** A fragment and the packets it is made of. */
  datatype Fragment = Fragment(traf: Traf, packets: seq<Packet>, independent: bool)

  /** Reading the boxes of a fragment, wherever its data is placed, tells of each packet its place in time, its length
      and its flags. */
  ghost predicate Tells(t: Track, f: Fragment, next: Packet)
    requires t.scale <= SECOND
  {
    && f.packets != [] && f.traf.header.Some? && f.traf.decodeTime.Some? && f.traf.run.Some?
    && f.traf.header.value.trackId == t.id && f.traf.decodeTime == Some(Tfdt(1, 0, Tick(f.packets[0].time, t.scale)))
    && Has(f.traf.run.value.flags, DATA_OFFSET) && |f.traf.run.value.entries| == |f.packets|
    && forall offset, i :: 0 <= i < |f.packets| ==> TellsSample(t, f, next, offset, i)
  }

  function Placed(a: Traf, offset: u32): Traf {
    if a.run.None? then a else a.(run := Some(a.run.value.(dataOffset := offset)))
  }

  ghost predicate TellsSample(t: Track, f: Fragment, next: Packet, offset: u32, i: nat)
    requires t.scale <= SECOND && i < |f.packets|
  {
    var b := SeenTraf(Placed(f.traf, offset));
    && b.header.Some? && b.run.Some? && |b.run.value.entries| == |f.packets|
    && Told(b.header.value, b.run.value, i) == Sample(t, f.packets + [next], i)
  }

  /** A negative composition time among the packets. */
  predicate Early(scale: u32, pkts: seq<Packet>) {
    pkts != [] && (Early(scale, pkts[..|pkts| - 1]) || IsEarly(scale, pkts[|pkts| - 1]))
  }

  predicate IsEarly(scale: u32, pkt: Packet) {
    pkt.compositionTime != 0 && CtsOf(pkt, scale) < 0
  }

  lemma BuiltStraight(t: Track, start: u64, version: byte, cts: bool, d: Defaults, es: seq<Entry>)
    requires es != [] && (version > 0 ==> cts)
    ensures Straight(Built(t, start, version, cts, d, es)) <==> version == 0
  {
    hide Has, RunFlags;
    RunFlagBits(cts, d.size == 0, d.duration == 0, d.flags == 0, d.flags != 0 && d.first != d.flags);
  }

  lemma TellsBuilt(t: Track, version: byte, cts: bool, d: Defaults, es: seq<Entry>, pkts: seq<Packet>, next: Packet,
      independent: bool)
    requires t.scale <= SECOND && |es| == |pkts| && Shared(d, es)
    requires forall i :: 0 <= i < |es| ==> es[i] == Sample(t, pkts + [next], i) && (!cts ==> es[i].cts == 0)
    ensures Tells(t, Fragment(Built(t, Tick(pkts[0].time, t.scale), version, cts, d, es), pkts, independent), next)
  {
    hide Sample, Tick, Has, Shared, Told;
    assert pkts != [] by {
      SharedNotEmpty(d, es);
    }
    var start := Tick(pkts[0].time, t.scale);
    var f := Fragment(Built(t, start, version, cts, d, es), pkts, independent);
    RunFlagBits(cts, d.size == 0, d.duration == 0, d.flags == 0, d.flags != 0 && d.first != d.flags);
    forall offset: u32, i: nat | i < |pkts|
      ensures TellsSample(t, f, next, offset, i)
    {
      DefaultsTell(t, start, version, cts, d, es, offset, i);
    }
  }

  lemma SharedNotEmpty(d: Defaults, es: seq<Entry>)
    requires Shared(d, es)
    ensures es != []
  {
  }

  /** Ticks from the first of the packets to packet j, as the durations tell them. */
  function Elapsed(t: Track, pkts: seq<Packet>, j: nat): nat
    requires t.scale <= SECOND && j < |pkts|
  {
    if j == 0 then 0 else Elapsed(t, pkts, j - 1) + Sample(t, pkts, j - 1).duration
  }

  predicate StepFits(t: Track, pkts: seq<Packet>, k: nat)
    requires t.scale <= SECOND && k + 1 < |pkts|
  {
    0 <= Tick(pkts[k + 1].time, t.scale) - Tick(pkts[k].time, t.scale) < TWO32
  }

  lemma StepOf(t: Track, pkts: seq<Packet>, k: nat)
    requires t.scale <= SECOND && k + 1 < |pkts|
    ensures StepFits(t, pkts, k) <==>
      Sample(t, pkts, k).duration == Tick(pkts[k + 1].time, t.scale) - Tick(pkts[k].time, t.scale)
  {
    hide Tick, CtsOf;
  }

  predicate OnTime(t: Track, pkts: seq<Packet>, j: nat)
    requires t.scale <= SECOND && j < |pkts|
  {
    Tick(pkts[0].time, t.scale) + Elapsed(t, pkts, j) == Tick(pkts[j].time, t.scale)
  }

  /** Every packet, the one after the fragment included, comes at the tick nearest to its own time, exactly if no step
      goes backwards or beyond 32 bits. */
  lemma {:induction false} TimelineIff(t: Track, pkts: seq<Packet>, n: nat)
    requires t.scale <= SECOND && n < |pkts|
    ensures (forall j :: 0 <= j <= n ==> OnTime(t, pkts, j)) <==> (forall k :: 0 <= k < n ==> StepFits(t, pkts, k))
    decreases n
  {
    hide Tick, Sample, StepFits, OnTime;
    if n == 0 {
      StartOnTime(t, pkts);
    } else {
      TimelineIff(t, pkts, n - 1);
      StepOf(t, pkts, n - 1);
      if OnTime(t, pkts, n - 1) {
        NextOnTime(t, pkts, n);
      }
      Extended(t, pkts, n);
    }
  }

  lemma StartOnTime(t: Track, pkts: seq<Packet>)
    requires t.scale <= SECOND && pkts != []
    ensures OnTime(t, pkts, 0)
  {
    hide Tick;
  }

  lemma NextOnTime(t: Track, pkts: seq<Packet>, n: nat)
    requires t.scale <= SECOND && 0 < n < |pkts| && OnTime(t, pkts, n - 1)
    ensures OnTime(t, pkts, n) <==>
      Sample(t, pkts, n - 1).duration == Tick(pkts[n].time, t.scale) - Tick(pkts[n - 1].time, t.scale)
  {
    hide Tick, Sample;
  }

  lemma Extended(t: Track, pkts: seq<Packet>, n: nat)
    requires t.scale <= SECOND && 0 < n < |pkts|
    ensures (forall j :: 0 <= j <= n ==> OnTime(t, pkts, j)) <==>
      (forall j :: 0 <= j <= n - 1 ==> OnTime(t, pkts, j)) && OnTime(t, pkts, n)
    ensures (forall k :: 0 <= k < n ==> StepFits(t, pkts, k)) <==>
      (forall k :: 0 <= k < n - 1 ==> StepFits(t, pkts, k)) && StepFits(t, pkts, n - 1)
  {
    hide OnTime, StepFits;
  }
}
