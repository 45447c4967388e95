/** The demuxer of a whole transport stream (format/ts/demuxer.go): it finds the program, then its streams, and hands
    each packet to the stream of its id; all of them deliver into one queue. */
module TsStreams {
  import opened Bytes
  import opened TsDemuxer
  import Maps = ProgramMaps
  import Psi
  import Ts = TsPackets
  import opened TsRoundTrip
  import opened TsTables

  const H264: byte := 0x1b
  const ADTS_AAC: byte := 0x0f

  /** A packet with the number of its stream. */
  datatype Tagged = Tagged(idx: nat, packet: Packet)

  datatype Member = Member(idx: nat, pid: nat, state: State)

  datatype Demux = Demux(pat: Option<seq<Psi.PatEntry>>, mapped: bool, members: seq<Member>, queue: seq<Tagged>)

  const NEW_DEMUX := Demux(None, false, [], [])

  function Tag(idx: nat, pkts: seq<Packet>): (r: seq<Tagged>)
    ensures |r| == |pkts| && forall i :: 0 <= i < |r| ==> r[i] == Tagged(idx, pkts[i])
  {
    seq(|pkts|, i requires 0 <= i < |pkts| => Tagged(idx, pkts[i]))
  }

  /** What a stream has put into the queue. */
  function Of(queue: seq<Tagged>, idx: nat): seq<Packet> {
    if queue == [] then []
    else
      var last := |queue| - 1;
      Of(queue[..last], idx) + if queue[last].idx == idx then [queue[last].packet] else []
  }

  /** The streams of a map that are read: pictures and sound in the forms the demuxer knows. */
  function MembersOf(infos: seq<Maps.StreamInfo>, i: nat): (ms: seq<Member>)
    requires i <= |infos|
  {
    if i == 0 then []
    else
      var info, before := infos[i - 1], MembersOf(infos, i - 1);
      if info.streamType == H264 then before + [Member(i - 1, info.pid, Idle(Video))]
      else if info.streamType == ADTS_AAC then before + [Member(i - 1, info.pid, Idle(Audio))]
      else before
  }

  /** The first member with a packet id, or the number of members. */
  function Find(ms: seq<Member>, pid: nat): (j: nat)
    ensures j <= |ms| && (j < |ms| ==> ms[j].pid == pid) && forall i :: 0 <= i < j ==> ms[i].pid != pid
  {
    if ms == [] || ms[0].pid == pid then 0 else Find(ms[1..], pid) + 1
  }

  /** Member j goes on to another state; what it has newly delivered joins the queue. */
  function Moved(d: Demux, j: nat, s: State): Demux
    requires j < |d.members|
  {
    var m := d.members[j];
    d.(members := d.members[j := m.(state := s)],
       queue := d.queue + if |m.state.pkts| <= |s.pkts| then Tag(m.idx, s.pkts[|m.state.pkts|..]) else [])
  }

  predicate NamesMap(entries: seq<Psi.PatEntry>, pid: nat) {
    exists e <- entries :: e.programMapPid == pid
  }

  /** One transport packet. */
  function Accept(d: Demux, p: seq<byte>): (Demux, bool) {
    if |p| != Ts.PACKET then (d, false)
    else match Ts.ParseTSHeader(p)
    case None => (d, false)
    case Some(h) =>
      if h.hdrlen > Ts.PACKET then (d, false)
      else
        var payload := p[h.hdrlen..];
        if d.pat.None? then
          if h.pid != 0 then (d, true)
          else
            var entries := ReadProgram(payload);
            (d.(pat := entries), entries.Some?)
        else if !d.mapped then
          if !NamesMap(d.pat.value, h.pid) then (d, true)
          else
            var table := ReadMap(payload);
            if table.None? then (d, false)
            else (d.(mapped := true, members := MembersOf(table.value.streams, |table.value.streams|)), true)
        else
          var j := Find(d.members, h.pid);
          if j == |d.members| then (d, true)
          else
            var (s, ok) := Handle(d.members[j].state, h.start, h.isKeyFrame, payload);
            (Moved(d, j, s), ok)
  }

  /** Transport packets in order, up to the first failure. */
  function AcceptAll(d: Demux, ps: seq<seq<byte>>): (Demux, bool)
    decreases |ps|
  {
    if ps == [] then (d, true)
    else
      var (d1, ok) := Accept(d, ps[0]);
      if !ok then (d1, false) else AcceptAll(d1, ps[1..])
  }

  /** At the end of the input the payloads of the first k streams end, in order, up to the first failure. */
  function EndFirst(d: Demux, k: nat): (Demux, bool)
    requires k <= |d.members|
    ensures |EndFirst(d, k).0.members| == |d.members|
  {
    if k == 0 then (d, true)
    else
      var (d1, ok) := EndFirst(d, k - 1);
      if !ok then (d1, false)
      else
        var (s, ended) := Ended(d1.members[k - 1].state);
        (Moved(d1, k - 1, s), ended)
  }

  class Demuxer {
    var pat: Option<seq<Psi.PatEntry>>
    var pmt: bool
    var streams: seq<TsDemuxer.Stream>
    var ids: seq<(nat, nat)>
    var pkts: seq<Tagged>

    constructor ()
      ensures Valid() && Contents() == NEW_DEMUX
    {
      pat, pmt, streams, ids, pkts := None, false, [], [], [];
    }

    ghost predicate Valid()
      reads this
    {
      && |ids| == |streams| && (!pmt ==> streams == [])
      && forall i, j :: 0 <= i < j < |streams| ==> streams[i] != streams[j]
    }

    ghost function Members(): (ms: seq<Member>)
      requires Valid()
      reads this, streams
      ensures |ms| == |streams|
      ensures forall i :: 0 <= i < |ms| ==> ms[i] == Member(ids[i].0, ids[i].1, streams[i].Contents())
    {
      seq(|streams|, i requires Valid() && 0 <= i < |streams| reads this, streams =>
        Member(ids[i].0, ids[i].1, streams[i].Contents()))
    }

    ghost function Contents(): Demux
      requires Valid()
      reads this, streams
    {
      Demux(pat, pmt, Members(), pkts)
    }

    /** What a stream has delivered anew joins the queue. */
    method Take(i: nat, before: nat)
      requires Valid() && i < |streams|
      modifies `pkts
      ensures pkts == old(pkts) + if before <= |streams[i].pkts| then Tag(ids[i].0, streams[i].pkts[before..]) else []
    {
      ghost var was := pkts;
      assert was + [] == was;
      if before <= |streams[i].pkts| {
        ghost var all := Tag(ids[i].0, streams[i].pkts[before..]);
        for k := before to |streams[i].pkts|
          invariant pkts == was + all[..k - before]
        {
          pkts := pkts + [Tagged(ids[i].0, streams[i].pkts[k])];
          assert all[..k + 1 - before] == all[..k - before] + [all[k - before]];
        }
        assert all[..|streams[i].pkts| - before] == all;
      }
    }

    method HandleStream(i: nat, start: bool, iskeyframe: bool, payload: seq<byte>) returns (ok: bool)
      requires Valid() && i < |streams|
      modifies this, streams[i]
      ensures Valid() && streams == old(streams)
      ensures var (s, read) := Handle(old(Contents()).members[i].state, start, iskeyframe, payload);
        ok == read && Contents() == Moved(old(Contents()), i, s)
    {
      hide Handle;
      var before := |streams[i].pkts|;
      ok := streams[i].HandleTSPacket(start, iskeyframe, payload);
      Take(i, before);
      ghost var s := streams[i].Contents();
      assert Members() == old(Members())[i := old(Members())[i].(state := s)];
    }

    method EndStream(i: nat) returns (ok: bool)
      requires Valid() && i < |streams|
      modifies this, streams[i]
      ensures Valid() && streams == old(streams)
      ensures var (s, ended) := Ended(old(Contents()).members[i].state);
        ok == ended && Contents() == Moved(old(Contents()), i, s)
    {
      hide Ended;
      var before := |streams[i].pkts|;
      ok := streams[i].PayloadEnd();
      Take(i, before);
      ghost var s := streams[i].Contents();
      assert Members() == old(Members())[i := old(Members())[i].(state := s)];
    }

    /** The end of the input ends the payload of every stream. */
    method PayloadEnd() returns (ok: bool)
      requires Valid()
      modifies this, streams
      ensures Valid() && (Contents(), ok) == EndFirst(old(Contents()), |old(streams)|)
    {
      hide Ended, Moved;
      ok := true;
      for i := 0 to |streams|
        invariant Valid() && ok && streams == old(streams)
        invariant (Contents(), true) == EndFirst(old(Contents()), i)
      {
        ok := EndStream(i);
        if !ok {
          FailureStays(old(Contents()), i + 1, |streams|);
          return;
        }
      }
    }

    method InitPMT(payload: seq<byte>) returns (ok: bool)
      requires Valid() && !pmt
      modifies this
      ensures Valid() && fresh(streams)
      ensures var table := ReadMap(payload);
        && (ok <==> table.Some?)
        && Contents() == if ok then old(Contents()).(mapped := true, members := MembersOf(table.value.streams, |table.value.streams|))
                         else old(Contents())
    {
      hide Psi.ParsePSI, Maps.ReadPmt;
      var table := ReadMap(payload);
      if table.None? {
        return false;
      }
      pmt := true;
      var infos := table.value.streams;
      for i := 0 to |infos|
        invariant Valid() && fresh(streams) && pmt && pat == old(pat) && pkts == old(pkts)
        invariant Members() == MembersOf(infos, i)
      {
        var info := infos[i];
        if info.streamType == H264 || info.streamType == ADTS_AAC {
          ghost var before := Members();
          var stream := new TsDemuxer.Stream(if info.streamType == H264 then Video else Audio);
          streams, ids := streams + [stream], ids + [(i, info.pid as nat)];
          assert Members() == before + [Member(i, info.pid, stream.Contents())];
        }
      }
      ok := true;
    }

    /** One transport packet: the program is looked for first, then its map, then packets go to their streams. */
    method ReadTSPacket(tshdr: seq<byte>) returns (ok: bool)
      requires Valid()
      modifies this, streams
      ensures Valid() && (Contents(), ok) == Accept(old(Contents()), tshdr)
    {
      hide Handle, Psi.ParsePSI, Psi.ReadPat, Maps.ReadPmt, Ts.ParseTSHeader, ReadProgram, ReadMap, MembersOf, Moved;
      if |tshdr| != Ts.PACKET {
        return false;
      }
      var hdr := Ts.ParseTSHeader(tshdr);
      if hdr.None? || hdr.value.hdrlen > Ts.PACKET {
        return false;
      }
      var pid, payload := hdr.value.pid, tshdr[hdr.value.hdrlen..];
      ok := true;
      if pat.None? {
        if pid == 0 {
          pat := ReadProgram(payload);
          ok := pat.Some?;
          assert Members() == old(Members());
        }
      } else if !pmt {
        var entries := pat.value;
        var i := 0;
        while i < |entries| && entries[i].programMapPid != pid
          invariant 0 <= i <= |entries|
          invariant forall k :: 0 <= k < i ==> entries[k].programMapPid != pid
        {
          i := i + 1;
        }
        if i < |entries| {
          assert entries[i] in entries;
          ok := InitPMT(payload);
        }
      } else {
        ghost var ms := Members();
        var i := 0;
        while i < |streams| && pid != ids[i].1
          invariant 0 <= i <= |streams|
          invariant forall k :: 0 <= k < i ==> ms[k].pid != pid
        {
          i := i + 1;
        }
        FindIs(ms, pid, i);
        if i < |streams| {
          ok := HandleStream(i, hdr.value.start, hdr.value.isKeyFrame, payload);
        }
      }
    }
  }

  lemma {:induction false} FailureStays(d: Demux, j: nat, k: nat)
    requires j <= k <= |d.members| && !EndFirst(d, j).1
    ensures EndFirst(d, k) == EndFirst(d, j)
  {
    hide Ended, Moved;
    if j < k {
      FailureStays(d, j, k - 1);
    }
  }

  lemma {:induction false} FindIs(ms: seq<Member>, pid: nat, j: nat)
    requires j <= |ms| && (j < |ms| ==> ms[j].pid == pid) && forall i :: 0 <= i < j ==> ms[i].pid != pid
    ensures Find(ms, pid) == j
  {
    if j > 0 {
      assert ms[0].pid != pid;
      FindIs(ms[1..], pid, j - 1);
    }
  }
}
