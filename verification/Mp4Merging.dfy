/** Whole runs of the merging reader of format/mp4: which packets leave before the end is reported, and which never do. */
module Mp4Merging {
  import opened Bytes
  import opened Sums
  import opened SampleTables
  import opened Mp4Time
  import opened Mp4Reader
  import opened Mp4Samples
  import opened Mp4Writer
  import opened Mp4Demuxer

  /** The streams' positions after n calls. */
  function CursorsAfter(ts: seq<TrackInfo>, file: seq<byte>, n: nat): (cs: seq<Cursor>)
    requires ts != [] && Sound(ts)
    ensures |cs| == |ts|
  {
    if n == 0 then seq(|ts|, _ => Start) else AfterMerge(ts, file, CursorsAfter(ts, file, n - 1))
  }

  /** What call number n, counted from 0, gives. */
  function Reading(ts: seq<TrackInfo>, file: seq<byte>, n: nat): ReadResult
    requires ts != [] && Sound(ts)
  {
    MergedRead(ts, file, CursorsAfter(ts, file, n))
  }

  /** The time sample k begins, or the track ends. */
  function StartOf(t: TrackInfo, k: nat): int
    requires t.scale > 0
  {
    if k <= |Expand(t.table.stts)| then TsToTime(Prefix(Expand(t.table.stts), k), t.scale) else 0
  }

  /** The file holds every sample, and 64 bits suffice for every time. */
  ghost predicate Whole(ts: seq<TrackInfo>, file: seq<byte>) {
    Sound(ts) && forall i :: 0 <= i < |ts| ==> Intact(ts[i].table, file) && TimeFits(Ticks(ts[i].table.stts))
  }

  function Seens(ts: seq<TrackInfo>): (s: seq<nat>)
    requires Sound(ts)
    ensures |s| == |ts| && forall i :: 0 <= i < |s| ==> s[i] == Seen(ts[i].table)
  {
    seq(|ts|, i requires 0 <= i < |ts| => Seen(ts[i].table))
  }

  /** The number of packets to be had from all streams together. */
  function Packets(ts: seq<TrackInfo>): nat
    requires Sound(ts)
  {
    Prefix(Seens(ts), |ts|)
  }

  function Starts(ts: seq<TrackInfo>, ks: seq<nat>): (times: seq<int>)
    requires Sound(ts) && |ks| == |ts|
    ensures |times| == |ts| && forall i :: 0 <= i < |ts| ==> times[i] == StartOf(ts[i], ks[i])
  {
    seq(|ts|, i requires 0 <= i < |ts| => StartOf(ts[i], ks[i]))
  }

  /** How many packets each stream has given after n calls, told from the tables alone. */
  function Turns(ts: seq<TrackInfo>, n: nat): (ks: seq<nat>)
    requires ts != [] && Sound(ts)
    ensures |ks| == |ts|
  {
    if n == 0 then seq(|ts|, _ => 0) else NextTurn(ts, Turns(ts, n - 1))
  }

  function Turn(ts: seq<TrackInfo>, ks: seq<nat>): (i: nat)
    requires ts != [] && Sound(ts) && |ks| == |ts|
    ensures i < |ts|
  {
    EarliestOf(Starts(ts, ks), |ts|)
  }

  function NextTurn(ts: seq<TrackInfo>, ks: seq<nat>): (next: seq<nat>)
    requires ts != [] && Sound(ts) && |ks| == |ts|
    ensures |next| == |ts|
  {
    var i := Turn(ts, ks);
    if ks[i] < Seen(ts[i].table) then ks[i := ks[i] + 1] else ks
  }

  /** Every stream stands where a reader of its own would after its turns. */
  ghost predicate Standing(ts: seq<TrackInfo>, file: seq<byte>, ks: seq<nat>, cs: seq<Cursor>)
    requires Sound(ts) && |ks| == |cs| == |ts|
  {
    forall i :: 0 <= i < |ts| ==>
      ks[i] <= Seen(ts[i].table) && cs[i] == CursorAfter(ts[i].table, ts[i].scale, file, ks[i])
  }

  lemma SeenWithin(t: SampleTable)
    requires WellFormed(t)
    ensures t.stsc != [] && Seen(t) <= Total(t) == |Expand(t.stts)|
  {
    hide Prefix, Expand, GroupAt;
    ExpandLength(t.stts);
  }

  lemma StandsAtStart(t: TrackInfo, file: seq<byte>, k: nat)
    requires WellFormed(t.table) && t.table.stsc != [] && t.scale > 0 && Intact(t.table, file) && k <= Seen(t.table)
    ensures TsToTime(CursorAfter(t.table, t.scale, file, k).dts, t.scale) == StartOf(t, k)
  {
    hide Prefix, Expand, GroupAt, CursorAfter, Seen, TsToTime, Intact, ReadNumber, PacketAt;
    ReadsInOrder(t.table, t.scale, file, k);
  }

  lemma TimesAreStarts(ts: seq<TrackInfo>, file: seq<byte>, ks: seq<nat>, cs: seq<Cursor>)
    requires Whole(ts, file) && |ks| == |cs| == |ts| && Standing(ts, file, ks, cs)
    ensures TimesOf(ts, cs) == Starts(ts, ks)
  {
    hide WellFormed, CursorAfter, Seen, TsToTime, Intact, StartOf, TimeFits, Ticks;
    forall i | 0 <= i < |ts| ensures TimesOf(ts, cs)[i] == Starts(ts, ks)[i] {
      StandsAtStart(ts[i], file, ks[i]);
    }
  }

  /** One call gives the next packet of the stream whose turn it is, or the end if that stream has none left. */
  lemma CallIsTurn(ts: seq<TrackInfo>, file: seq<byte>, ks: seq<nat>, cs: seq<Cursor>)
    requires ts != [] && Sound(ts) && Whole(ts, file) && |ks| == |cs| == |ts| && Standing(ts, file, ks, cs)
    ensures var i := Turn(ts, ks);
      && (MergedRead(ts, file, cs) == ReadNumber(ts[i].table, ts[i].scale, file, ks[i]))
      && (if ks[i] < Seen(ts[i].table) then MergedRead(ts, file, cs).Read? else MergedRead(ts, file, cs).Eof?)
    ensures Standing(ts, file, NextTurn(ts, ks), AfterMerge(ts, file, cs))
  {
    hide WellFormed, CursorAfter, Seen, TsToTime, Intact, StartOf, TimeFits, Ticks, NextRead, AfterRead, PacketAt, Located,
      EarliestOf;
    TimesAreStarts(ts, file, ks, cs);
    var i := Turn(ts, ks);
    OwnCall(ts[i], file, ks[i]);
  }

  lemma OwnCall(t: TrackInfo, file: seq<byte>, k: nat)
    requires WellFormed(t.table) && t.table.stsc != [] && t.scale > 0 && Intact(t.table, file) && k <= Seen(t.table)
    ensures var c := CursorAfter(t.table, t.scale, file, k);
      && ReadNumber(t.table, t.scale, file, k) == NextRead(t.table, t.scale, file, c)
      && (if k < Seen(t.table) then NextRead(t.table, t.scale, file, c).Read? else NextRead(t.table, t.scale, file, c).Eof?)
      && AfterRead(t.table, t.scale, file, c)
         == CursorAfter(t.table, t.scale, file, if k < Seen(t.table) then k + 1 else k)
  {
    hide Prefix, Expand, GroupAt, Seen, Intact, PacketAt, Located, Steppable, Playable, Beyond, Step;
    ReadsInOrder(t.table, t.scale, file, k);
  }

  lemma TurnsNext(ts: seq<TrackInfo>, n: nat)
    requires ts != [] && Sound(ts)
    ensures Turns(ts, n + 1) == NextTurn(ts, Turns(ts, n))
  {
    hide WellFormed, NextTurn;
  }

  lemma CursorsNext(ts: seq<TrackInfo>, file: seq<byte>, n: nat)
    requires ts != [] && Sound(ts)
    ensures CursorsAfter(ts, file, n + 1) == AfterMerge(ts, file, CursorsAfter(ts, file, n))
    ensures Reading(ts, file, n) == MergedRead(ts, file, CursorsAfter(ts, file, n))
  {
    hide WellFormed, AfterMerge, MergedRead;
  }

  lemma {:induction false} StandsByTurns(ts: seq<TrackInfo>, file: seq<byte>, n: nat)
    requires ts != [] && Sound(ts) && Whole(ts, file)
    ensures Standing(ts, file, Turns(ts, n), CursorsAfter(ts, file, n))
  {
    hide *;
    if n == 0 {
      StartStanding(ts, file);
    } else {
      StandsByTurns(ts, file, n - 1);
      CallIsTurn(ts, file, Turns(ts, n - 1), CursorsAfter(ts, file, n - 1));
      TurnsNext(ts, n - 1);
      CursorsNext(ts, file, n - 1);
    }
  }

  /** Each stream's packets leave in their own order, one at a time: after n calls every stream stands where its turns
      have brought it, and the call gives what that stream's own reader would give next. */
  lemma RunFollowsTurns(ts: seq<TrackInfo>, file: seq<byte>, n: nat)
    requires ts != [] && Sound(ts) && Whole(ts, file)
    ensures Standing(ts, file, Turns(ts, n), CursorsAfter(ts, file, n))
    ensures var ks := Turns(ts, n);
      var i := Turn(ts, ks);
      && Reading(ts, file, n) == ReadNumber(ts[i].table, ts[i].scale, file, ks[i])
      && (if ks[i] < Seen(ts[i].table) then Reading(ts, file, n).Read? else Reading(ts, file, n).Eof?)
  {
    hide *;
    SoundHasGroups(ts);
    StandsByTurns(ts, file, n);
    CallIsTurn(ts, file, Turns(ts, n), CursorsAfter(ts, file, n));
    CursorsNext(ts, file, n);
  }

  lemma SoundHasGroups(ts: seq<TrackInfo>)
    requires Sound(ts)
    ensures forall i :: 0 <= i < |ts| ==> ts[i].table.stsc != [] && ts[i].scale > 0
  {
    hide WellFormed;
  }

  lemma StartStanding(ts: seq<TrackInfo>, file: seq<byte>)
    requires ts != [] && Sound(ts)
    ensures Standing(ts, file, Turns(ts, 0), CursorsAfter(ts, file, 0))
  {
    hide WellFormed, AfterRead, Seen;
  }

  /** No stream ends before the last packet of another is due: what a caller can check in the tables. */
  ghost predicate EndsTogether(ts: seq<TrackInfo>)
    requires Sound(ts)
  {
    forall i, j :: 0 <= i < |ts| && 0 <= j < |ts| && i != j && Seen(ts[j].table) > 0 ==> LastIsAhead(ts, i, j)
  }

  predicate LastIsAhead(ts: seq<TrackInfo>, i: nat, j: nat)
    requires i < |ts| && j < |ts| && Sound(ts) && Seen(ts[j].table) > 0
  {
    Ahead(StartOf(ts[j], Seen(ts[j].table) - 1), j, StartOf(ts[i], Seen(ts[i].table)), i)
  }

  lemma StartsAscend(t: TrackInfo, j: nat, k: nat)
    requires WellFormed(t.table) && t.table.stsc != [] && t.scale > 0 && TimeFits(Ticks(t.table.stts))
    requires j <= k <= Seen(t.table)
    ensures StartOf(t, j) <= StartOf(t, k)
  {
    hide Prefix, Expand, GroupAt, Seen, TsToTime;
    var durations := Expand(t.table.stts);
    SeenWithin(t.table);
    PrefixMonotone(durations, j, k);
    PrefixMonotone(durations, k, |durations|);
    TsToTimeMonotone(Prefix(durations, j), Prefix(durations, k), t.scale);
  }

  ghost predicate Within(ts: seq<TrackInfo>, ks: seq<nat>)
    requires Sound(ts)
  {
    |ks| == |ts| && forall i :: 0 <= i < |ts| ==> ks[i] <= Seen(ts[i].table)
  }

  lemma {:induction false} TurnsWithin(ts: seq<TrackInfo>, n: nat)
    requires ts != [] && Sound(ts)
    ensures Within(ts, Turns(ts, n))
  {
    hide WellFormed, Seen, Turn;
    if n > 0 {
      TurnsWithin(ts, n - 1);
    }
  }

  lemma TurnIsEarliest(ts: seq<TrackInfo>, ks: seq<nat>, j: nat)
    requires ts != [] && Sound(ts) && |ks| == |ts| && j < |ts| && j != Turn(ts, ks)
    ensures var i := Turn(ts, ks); Ahead(StartOf(ts[i], ks[i]), i, StartOf(ts[j], ks[j]), j)
  {
    hide WellFormed, StartOf;
  }

  /** While the streams end together, a stream with nothing left is not asked as long as another still has packets. */
  lemma NobodyEndsEarly(ts: seq<TrackInfo>, file: seq<byte>, ks: seq<nat>, j: nat)
    requires ts != [] && Sound(ts) && Whole(ts, file) && EndsTogether(ts) && Within(ts, ks)
    requires j < |ts| && ks[j] < Seen(ts[j].table)
    ensures var i := Turn(ts, ks); ks[i] < Seen(ts[i].table)
  {
    hide WellFormed, Seen, StartOf, Turn, TimeFits, Intact, Ticks;
    var i := Turn(ts, ks);
    if ks[i] == Seen(ts[i].table) {
      TurnIsEarliest(ts, ks, j);
      assert LastIsAhead(ts, i, j);
      StartsAscend(ts[j], ks[j], Seen(ts[j].table) - 1);
      assert false;
    }
  }

  /** Otherwise the last packet of the later stream never leaves. */
  lemma {:induction false} LastNeverLeaves(ts: seq<TrackInfo>, file: seq<byte>, i: nat, j: nat, n: nat)
    requires ts != [] && Sound(ts) && Whole(ts, file) && i < |ts| && j < |ts| && i != j
    requires Seen(ts[j].table) > 0 && !LastIsAhead(ts, i, j)
    ensures Turns(ts, n)[j] < Seen(ts[j].table)
  {
    hide WellFormed, Seen, StartOf, Turn, TimeFits, Intact, Ticks;
    if n > 0 {
      LastNeverLeaves(ts, file, i, j, n - 1);
      var ks := Turns(ts, n - 1);
      if ks[j] == Seen(ts[j].table) - 1 && Turn(ts, ks) == j {
        TurnIsEarliest(ts, ks, i);
        TurnsWithin(ts, n - 1);
        StartsAscend(ts[i], ks[i], Seen(ts[i].table));
        assert false;
      }
    }
  }

  lemma {:induction false} PrefixUpdated(s: seq<nat>, i: nat, k: nat)
    requires i < |s| && k <= |s|
    ensures Prefix(s[i := s[i] + 1], k) == Prefix(s, k) + if i < k then 1 else 0
  {
    if k > 0 {
      PrefixUpdated(s, i, k - 1);
    }
  }

  lemma {:induction false} PrefixBelow(s: seq<nat>, t: seq<nat>, k: nat)
    requires k <= |s| == |t| && forall i :: 0 <= i < |s| ==> s[i] <= t[i]
    ensures Prefix(s, k) <= Prefix(t, k)
    ensures Prefix(s, k) == Prefix(t, k) ==> s[..k] == t[..k]
  {
    if k > 0 {
      PrefixBelow(s, t, k - 1);
      assert s[..k] == s[..k - 1] + [s[k - 1]] && t[..k] == t[..k - 1] + [t[k - 1]];
    }
  }

  /** As long as every call gives a packet, the turns add up to the calls. */
  lemma {:induction false} TurnsAddUp(ts: seq<TrackInfo>, file: seq<byte>, n: nat)
    requires ts != [] && Sound(ts) && Whole(ts, file)
    requires forall m :: 0 <= m < n ==> Reading(ts, file, m).Read?
    ensures Prefix(Turns(ts, n), |ts|) == n
  {
    hide *;
    SoundHasGroups(ts);
    if n == 0 {
      FirstTurns(ts);
      NoTurns(Turns(ts, 0), |ts|);
    } else {
      TurnsAddUp(ts, file, n - 1);
      assert Reading(ts, file, n - 1).Read?;
      TurnTaken(ts, file, n - 1);
    }
  }

  lemma FirstTurns(ts: seq<TrackInfo>)
    requires ts != [] && Sound(ts)
    ensures forall i :: 0 <= i < |ts| ==> Turns(ts, 0)[i] == 0
  {
    hide WellFormed;
  }

  lemma TurnTaken(ts: seq<TrackInfo>, file: seq<byte>, n: nat)
    requires ts != [] && Sound(ts) && Whole(ts, file) && Reading(ts, file, n).Read?
    ensures Prefix(Turns(ts, n + 1), |ts|) == Prefix(Turns(ts, n), |ts|) + 1
  {
    hide WellFormed, Whole, Turns, Turn, CursorsAfter, Reading, Prefix, Seen, Standing, ReadNumber;
    RunFollowsTurns(ts, file, n);
    TurnsNext(ts, n);
    PrefixUpdated(Turns(ts, n), Turn(ts, Turns(ts, n)), |ts|);
  }

  lemma {:induction false} NoTurns(ks: seq<nat>, k: nat)
    requires k <= |ks| && forall i :: 0 <= i < |ks| ==> ks[i] == 0
    ensures Prefix(ks, k) == 0
  {
    if k > 0 {
      NoTurns(ks, k - 1);
    }
  }

  ghost predicate Drained(ts: seq<TrackInfo>, ks: seq<nat>)
    requires Sound(ts)
  {
    ks == Seens(ts)
  }

  lemma SomeLeft(ts: seq<TrackInfo>, ks: seq<nat>) returns (j: nat)
    requires Sound(ts) && Within(ts, ks) && !Drained(ts, ks)
    ensures j < |ts| && ks[j] < Seen(ts[j].table)
  {
    hide WellFormed, Seen;
    if forall k :: 0 <= k < |ts| ==> ks[k] == Seen(ts[k].table) {
      assert false;
    }
    j :| 0 <= j < |ts| && ks[j] != Seen(ts[j].table);
  }

  /** Streams that end together are read to the end. */
  lemma {:induction false} AllLeave(ts: seq<TrackInfo>, file: seq<byte>, n: nat)
    requires ts != [] && Sound(ts) && Whole(ts, file) && EndsTogether(ts) && n <= Packets(ts)
    ensures forall m :: 0 <= m < n ==> Reading(ts, file, m).Read?
  {
    hide *;
    if n > 0 {
      AllLeave(ts, file, n - 1);
      TurnsAddUp(ts, file, n - 1);
      OneLeaves(ts, file, n - 1);
    }
  }

  lemma OneLeaves(ts: seq<TrackInfo>, file: seq<byte>, n: nat)
    requires ts != [] && Sound(ts) && Whole(ts, file) && EndsTogether(ts)
    requires Prefix(Turns(ts, n), |ts|) == n < Packets(ts)
    ensures Reading(ts, file, n).Read?
  {
    hide *;
    SoundHasGroups(ts);
    var ks := Turns(ts, n);
    TurnsWithin(ts, n);
    NotDrained(ts, ks, n);
    var j := SomeLeft(ts, ks);
    NobodyEndsEarly(ts, file, ks, j);
    RunFollowsTurns(ts, file, n);
  }

  lemma NotDrained(ts: seq<TrackInfo>, ks: seq<nat>, n: nat)
    requires Sound(ts) && |ks| == |ts| && Prefix(ks, |ts|) == n < Packets(ts)
    ensures !Drained(ts, ks)
  {
    hide WellFormed, Seen, Prefix;
  }

  lemma WhenAllLeft(ts: seq<TrackInfo>, file: seq<byte>)
    requires ts != [] && Sound(ts) && Whole(ts, file)
    requires forall m :: 0 <= m < Packets(ts) ==> Reading(ts, file, m).Read?
    ensures Drained(ts, Turns(ts, Packets(ts)))
  {
    hide Whole, Seen, Reading, Prefix, Turns;
    var n := Packets(ts);
    TurnsAddUp(ts, file, n);
    TurnsWithin(ts, n);
    var ks := Turns(ts, n);
    PrefixBelow(ks, Seens(ts), |ts|);
    assert ks[..|ts|] == ks && Seens(ts)[..|ts|] == Seens(ts);
  }

  /** Every packet of every stream leaves before the end is reported if and only if the streams end together: for any
      two of them, the last packet of one is due before the other has ended (or at the same time, when it comes first
      in the list). Then the end is reported when there is nothing left. */
  lemma AllLeaveIff(ts: seq<TrackInfo>, file: seq<byte>)
    requires ts != [] && Sound(ts) && Whole(ts, file)
    ensures (forall n :: 0 <= n < Packets(ts) ==> Reading(ts, file, n).Read?) <==> EndsTogether(ts)
    ensures EndsTogether(ts) ==> Drained(ts, Turns(ts, Packets(ts))) && Reading(ts, file, Packets(ts)).Eof?
  {
    hide Whole, Seen, Reading, Prefix, Turns, LastIsAhead, Turn;
    if EndsTogether(ts) {
      AllLeave(ts, file, Packets(ts));
      WhenAllLeft(ts, file);
      RunFollowsTurns(ts, file, Packets(ts));
    } else if forall n :: 0 <= n < Packets(ts) ==> Reading(ts, file, n).Read? {
      WhenAllLeft(ts, file);
      var i, j :| 0 <= i < |ts| && 0 <= j < |ts| && i != j && Seen(ts[j].table) > 0 && !LastIsAhead(ts, i, j);
      LastNeverLeaves(ts, file, i, j, Packets(ts));
      assert false;
    }
  }

  /** The streams of a finished file, as its reader finds them. */
  function TracksOf(m: Muxer): (ts: seq<TrackInfo>)
    reads m, m.streams
    ensures |ts| == |m.streams|
    ensures forall i :: 0 <= i < |ts| ==> ts[i] == TrackInfo(m.streams[i].sample, TIME_SCALE)
  {
    seq(|m.streams|, i requires 0 <= i < |m.streams| reads m, m.streams => TrackInfo(m.streams[i].sample, TIME_SCALE))
  }

  lemma WrittenIsWhole(m: Muxer, file: seq<byte>)
    requires m.Complete(file) && |file| < TWO32
    requires forall i :: 0 <= i < |m.streams| ==>
      |m.streams[i].accepted| < TWO32 && TimeFits(Ticks(m.streams[i].sample.stts))
    ensures Sound(TracksOf(m)) && Whole(TracksOf(m), file)
  {
    hide Muxer.Complete, WellFormed, Intact, Ticks, TimeFits;
    forall i | 0 <= i < |m.streams| ensures
        var t := m.streams[i].sample; WellFormed(t) && t.stsc != [] && Intact(t, file)
    {
      StreamIsIntact(m, file, i);
    }
  }

  lemma StreamIsIntact(m: Muxer, file: seq<byte>, i: nat)
    requires m.Complete(file) && |file| < TWO32 && i < |m.streams| && |m.streams[i].accepted| < TWO32
    ensures var t := m.streams[i].sample; WellFormed(t) && t.stsc != [] && Intact(t, file)
  {
    hide Tiles, PayloadOf, TrackOf, TableOf, WellFormed, Intact, Muxer.Complete, Records;
    CompleteStream(m, file, i);
    CompletePayload(m, file);
    TrackIsIntact(m.streams[i].video, m.log, i, file);
  }

  lemma TrackIsIntact(video: bool, log: seq<Placed>, track: nat, file: seq<byte>)
    requires Tiles(log) && |file| < TWO32 && |TrackOf(log, track)| < TWO32
    requires var end := HEADER + |PayloadOf(log)|; |file| >= end && file[HEADER..end] == PayloadOf(log)
    ensures var t := TableOf(video, TrackOf(log, track)); WellFormed(t) && t.stsc != [] && Intact(t, file)
  {
    hide Tiles, PayloadOf, TrackOf, TableOf, WellFormed, Intact, Describes, Total;
    var ss := TrackOf(log, track);
    TableOfDescribes(video, ss);
    DescribedIsWellFormed(TableOf(video, ss), video, ss);
    StoredIsIntact(video, log, track, file);
  }

  lemma CompletePayload(m: Muxer, file: seq<byte>)
    requires m.Complete(file)
    ensures var end := HEADER + |PayloadOf(m.log)|;
      Tiles(m.log) && |file| >= end && file[HEADER..end] == PayloadOf(m.log)
  {
    hide Records, TableOf, Tiles, PayloadOf, TrackOf;
  }

  /** The last packet of a stream is written with no duration, so the stream ends when that packet is due. */
  lemma EndsAtLast(video: bool, ss: seq<Sample>, accepted: seq<AvPacket>)
    requires Records(ss, accepted) && |ss| == |accepted| < TWO32
    ensures var t := TableOf(video, ss);
      && WellFormed(t) && t.stsc != []
      && (Seen(t) > 0 ==> StartOf(TrackInfo(t, TIME_SCALE), Seen(t) - 1) == StartOf(TrackInfo(t, TIME_SCALE), Seen(t)))
  {
    hide TableOf, Prefix, Expand, WellFormed, TsToTime, Canonical, ListsKeys, Records, Seen;
    var t := TableOf(video, ss);
    TableOfDescribes(video, ss);
    DescribedIsWellFormed(t, video, ss);
    AllSeenOrNone(video, ss, accepted);
    if Seen(t) > 0 {
      RecordedTicks(ss, accepted, |ss| - 1);
      PrefixNext(Expand(t.stts), |ss| - 1);
    }
  }

  /** So no file of two or more streams with packets to be read is ever read to its end: of two streams one is asked
      again when the last packet of the other is still due. */
  lemma WrittenNeverAllLeave(m: Muxer, file: seq<byte>, i: nat, j: nat)
    requires m.Complete(file) && |file| < TWO32 && i < |m.streams| && j < |m.streams| && i != j
    requires forall k :: 0 <= k < |m.streams| ==>
      |m.streams[k].accepted| < TWO32 && TimeFits(Ticks(m.streams[k].sample.stts))
    requires m.streams[i].sample.stsc != [] && m.streams[j].sample.stsc != []
    requires Seen(m.streams[i].sample) > 0 && Seen(m.streams[j].sample) > 0
    ensures var ts := TracksOf(m);
      Sound(ts) && exists n :: 0 <= n < Packets(ts) && Reading(ts, file, n).Eof?
  {
    hide *;
    var ts := TracksOf(m);
    WrittenIsWhole(m, file);
    CompleteStream(m, file, i);
    CompleteStream(m, file, j);
    EndsAtLast(m.streams[i].video, TrackOf(m.log, i), m.streams[i].accepted);
    EndsAtLast(m.streams[j].video, TrackOf(m.log, j), m.streams[j].accepted);
    OneIsBehind(ts, i, j);
    AllLeaveIff(ts, file);
    var n :| 0 <= n < Packets(ts) && !Reading(ts, file, n).Read?;
    RunFollowsTurns(ts, file, n);
  }

  lemma CompleteStream(m: Muxer, file: seq<byte>, i: nat)
    requires m.Complete(file) && i < |m.streams|
    ensures m.streams[i].sample == TableOf(m.streams[i].video, TrackOf(m.log, i))
    ensures |TrackOf(m.log, i)| == |m.streams[i].accepted| && Records(TrackOf(m.log, i), m.streams[i].accepted)
  {
    hide Records, TableOf, Tiles, PayloadOf, TrackOf;
  }

  lemma OneIsBehind(ts: seq<TrackInfo>, i: nat, j: nat)
    requires Sound(ts) && i < |ts| && j < |ts| && i != j
    requires Seen(ts[i].table) > 0 && StartOf(ts[i], Seen(ts[i].table) - 1) == StartOf(ts[i], Seen(ts[i].table))
    requires Seen(ts[j].table) > 0 && StartOf(ts[j], Seen(ts[j].table) - 1) == StartOf(ts[j], Seen(ts[j].table))
    ensures !EndsTogether(ts)
  {
    hide WellFormed, Seen, StartOf;
    assert !LastIsAhead(ts, i, j) || !LastIsAhead(ts, j, i);
  }

  /** One packet of one sound track and two of another, a second apart, as the muxer writes them. */
  const FIRST := Sample(8, [1], false, 0, 0)
  const SECOND_AT_ZERO := Sample(9, [2], false, 90000, 0)
  const SECOND_AT_ONE := Sample(10, [3], false, 0, 0)
  const SHORT_FILE := [0, 0, 0, 11] + MDAT + [1, 2, 3]
  const SHORT_LOG := [Placed(0, FIRST), Placed(1, SECOND_AT_ZERO), Placed(1, SECOND_AT_ONE)]

  function ShortTracks(): seq<TrackInfo> {
    [TrackInfo(TableOf(false, [FIRST]), TIME_SCALE),
     TrackInfo(TableOf(false, [SECOND_AT_ZERO, SECOND_AT_ONE]), TIME_SCALE)]
  }

  lemma ShortLog()
    ensures Tiles(SHORT_LOG) && PayloadOf(SHORT_LOG) == [1, 2, 3]
    ensures TrackOf(SHORT_LOG, 0) == [FIRST] && TrackOf(SHORT_LOG, 1) == [SECOND_AT_ZERO, SECOND_AT_ONE]
  {
    hide Tiles, PayloadOf, TrackOf;
    var a, b, c := Placed(0, FIRST), Placed(1, SECOND_AT_ZERO), Placed(1, SECOND_AT_ONE);
    NothingPlaced();
    Grows([], a);
    Grows([] + [a], b);
    Grows([] + [a] + [b], c);
    assert [] + [a] + [b] + [c] == SHORT_LOG;
  }

  lemma NothingPlaced()
    ensures Tiles([]) && PayloadOf([]) == [] && TrackOf([], 0) == [] && TrackOf([], 1) == []
  {
  }

  lemma Grows(log: seq<Placed>, p: Placed)
    requires Tiles(log) && p.sample.pos == HEADER + |PayloadOf(log)|
    ensures Tiles(log + [p]) && PayloadOf(log + [p]) == PayloadOf(log) + p.sample.data
    ensures TrackOf(log + [p], 0) == if p.track == 0 then TrackOf(log, 0) + [p.sample] else TrackOf(log, 0)
    ensures TrackOf(log + [p], 1) == if p.track == 1 then TrackOf(log, 1) + [p.sample] else TrackOf(log, 1)
  {
    hide Tiles, PayloadOf, TrackOf;
    PayloadNext(log, p);
    TilesNext(log, p);
  }

  lemma NoTimeAtZero()
    ensures TsToTime(0, TIME_SCALE) == 0
  {
  }

  lemma SoundTrack(ss: seq<Sample>, track: nat)
    requires ss == TrackOf(SHORT_LOG, track) && 1 <= |ss| <= 2 && forall i :: 0 <= i < |ss| ==> ss[i].duration <= 90000
    requires Tiles(SHORT_LOG) && PayloadOf(SHORT_LOG) == [1, 2, 3]
    ensures var t := TableOf(false, ss);
      && WellFormed(t) && t.stsc != [] && Seen(t) == |ss| && Intact(t, SHORT_FILE) && TimeFits(Ticks(t.stts))
      && StartOf(TrackInfo(t, TIME_SCALE), 0) == 0
      && (ss[0].duration == 0 ==> StartOf(TrackInfo(t, TIME_SCALE), 1) == 0)
  {
    hide TableOf, Expand, WellFormed, Canonical, Total, TrackOf, Tiles, PayloadOf, Intact, Prefix, TsToTime;
    var t := TableOf(false, ss);
    NoTimeAtZero();
    TableOfDescribes(false, ss);
    DescribedIsWellFormed(t, false, ss);
    assert SHORT_FILE[HEADER..HEADER + 3] == [1, 2, 3];
    StoredIsIntact(false, SHORT_LOG, track, SHORT_FILE);
    PrefixEmpty(Expand(t.stts));
    PrefixNext(Expand(t.stts), 0);
    if |ss| == 2 {
      PrefixNext(Expand(t.stts), 1);
    }
  }

  /** Of these three packets one is read: then the first track is asked again, because it comes first in the list and
      no time has passed, and its end is taken for that of the file. */
  lemma TwoPacketsLost()
    ensures var ts := ShortTracks();
      && Sound(ts) && Packets(ts) == 3
      && Reading(ts, SHORT_FILE, 0).Read? && Reading(ts, SHORT_FILE, 1) == Eof
  {
    hide Seen, StartOf, WellFormed, Intact, TimeFits, Ticks, Reading, CursorsAfter, TableOf, Standing, ReadNumber, TrackOf,
      Tiles, PayloadOf;
    var ts := ShortTracks();
    ShortLog();
    SoundTrack([FIRST], 0);
    SoundTrack([SECOND_AT_ZERO, SECOND_AT_ONE], 1);
    assert Seens(ts) == [1, 2];
    RunFollowsTurns(ts, SHORT_FILE, 0);
    assert Turns(ts, 0) == [0, 0];
    assert Turn(ts, [0, 0]) == 0;
    assert Turns(ts, 1) == [1, 0];
    RunFollowsTurns(ts, SHORT_FILE, 1);
    assert Turn(ts, [1, 0]) == 0;
  }
}
