/** What is written as transport packets is read back from them, for whole runs. */
module TsRoundTrip {
  import opened Bytes
  import opened Nalus
  import opened TsDemuxer
  import opened TsMuxer
  import Adts
  import Pes = TsPes
  import Ts = TsPackets

  /** One transport packet, as a stream with the given packet id takes it: other ids pass by. An incomplete packet
      cannot be read. */
  function Feed(s: State, pid: nat, p: seq<byte>): (State, bool) {
    if |p| != Ts.PACKET then (s, false)
    else match Ts.ParseTSHeader(p)
    case None => (s, false)
    case Some(h) =>
      if h.pid != pid then (s, true)
      else if h.hdrlen > Ts.PACKET then (s, false)
      else Handle(s, h.start, h.isKeyFrame, p[h.hdrlen..])
  }

  /** Transport packets in order; the first failure stops the reader. */
  function Run(s: State, pid: nat, ps: seq<seq<byte>>): (State, bool)
    decreases |ps|
  {
    if ps == [] then (s, true)
    else
      var (s1, ok) := Feed(s, pid, ps[0]);
      if !ok then (s1, false) else Run(s1, pid, ps[1..])
  }

  predicate Synced(p: seq<byte>) {
    |p| == Ts.PACKET && p[0] == Ts.SYNC
  }

  function PidOf(p: seq<byte>): nat
    requires Synced(p)
  {
    Ts.PidOf(p[1], p[2])
  }

  function Own(pid: nat, ps: seq<seq<byte>>): (r: seq<seq<byte>>)
    requires forall p <- ps :: Synced(p)
    ensures forall p <- r :: Synced(p)
  {
    if ps == [] then [] else (if PidOf(ps[0]) == pid then [ps[0]] else []) + Own(pid, ps[1..])
  }

  /** However the packets of other streams are mixed in, a stream reads what it would read from its own alone. */
  lemma {:induction false} StreamsAreSeparate(s: State, pid: nat, ps: seq<seq<byte>>)
    requires forall p <- ps :: Synced(p)
    decreases |ps|
    ensures Run(s, pid, ps) == Run(s, pid, Own(pid, ps))
  {
    hide Handle, Ts.PidOf;
    if ps != [] {
      var more := Own(pid, ps[1..]);
      if PidOf(ps[0]) == pid {
        assert ([ps[0]] + more)[1..] == more;
      } else {
        assert Feed(s, pid, ps[0]) == (s, true);
        assert [] + more == more;
      }
      var (s1, ok) := Feed(s, pid, ps[0]);
      if ok {
        StreamsAreSeparate(s1, pid, ps[1..]);
      }
    }
  }

  lemma {:induction false} RunAppend(s: State, pid: nat, a: seq<seq<byte>>, b: seq<seq<byte>>)
    decreases |a|
    ensures var (s1, ok) := Run(s, pid, a);
      Run(s, pid, a + b) == if ok then Run(s1, pid, b) else (s1, false)
  {
    hide Feed;
    if a == [] {
      assert a + b == b;
    } else {
      assert (a + b)[1..] == a[1..] + b;
      var (s1, ok) := Feed(s, pid, a[0]);
      RunAppend(s1, pid, a[1..], b);
    }
  }

  /** A packet of the stream hands over its payload. */
  lemma PacketHandled(s: State, p: seq<byte>, pid: nat, start: bool, key: bool, counter: nat, payload: seq<byte>)
    requires Ts.IsPacket(p, pid, start, key, counter, payload)
    ensures Feed(s, pid, p) == Handle(s, start, key, payload)
  {
    hide Handle, Ts.ParseTSHeader;
  }

  /** Packets that do not start a payload only append to it. */
  lemma {:induction false} Appends(s: State, pid: nat, key: bool, counter: nat,
                                   packets: seq<seq<byte>>, payloads: seq<seq<byte>>, k: nat)
    requires Ts.Carry(packets, pid, key, counter, payloads) && 1 <= k <= |packets| && s.data.Some?
    ensures Run(s, pid, packets[k..]) == (s.(data := Some(s.data.value + Flatten(payloads[k..]))), true)
    decreases |packets| - k
  {
    hide Ts.IsPacket, Feed;
    var d := s.data.value;
    if k == |packets| {
      assert d + [] == d;
    } else {
      PacketHandled(s, packets[k], pid, false, false, counter + k, payloads[k]);
      var s1 := s.(data := Some(d + payloads[k]));
      Appends(s1, pid, key, counter, packets, payloads, k + 1);
      assert packets[k..][0] == packets[k] && packets[k..][1..] == packets[k + 1..];
      assert payloads[k..][0] == payloads[k] && payloads[k..][1..] == payloads[k + 1..];
      Joins(d, payloads[k], Flatten(payloads[k + 1..]));
    }
  }

  /** A stream that has begun to read a payload. */
  function Begun(s: State, p: Payload): State {
    var n := Pes.StampBytes(p.pts, p.dts);
    s.(key := p.key, datalen := Pes.LengthRead(p.datalen, n),
       pts := if n == 0 then 0 else Pes.OnClock(p.pts), dts := if n == 10 then Pes.OnClock(p.dts) else 0,
       data := Some(p.body))
  }

  /** What was sent is assembled again: the packets of a payload end the one before and leave exactly this payload,
      with the times on the clock's grid and the announced length as far as its field goes. */
  lemma PayloadAssembled(s: State, pid: nat, packets: seq<seq<byte>>, payloads: seq<seq<byte>>, counter: nat,
      p: Payload)
    requires Sends(packets, payloads, pid, counter, p)
    requires Ended(s).1 && Pes.LengthRead(p.datalen, Pes.StampBytes(p.pts, p.dts)) >= 0
    ensures Run(s, pid, packets) == (Begun(Ended(s).0, p), true)
  {
    hide Ended, Ts.IsPacket, Pes.Layout, Pes.ParsePESHeader, Feed, Pes.OnClock, Pes.LengthRead;
    var first, more := payloads[0], Flatten(payloads[1..]);
    var rest := first[|Head(p)|..];
    Front(first, more, Head(p), p.body);
    Pes.HeaderReadsBack(p.streamid, p.datalen, p.pts, p.dts, rest);
    PacketHandled(s, packets[0], pid, true, p.key, counter, first);
    var s1 := Begun(Ended(s).0, p).(data := Some(rest));
    assert Feed(s, pid, packets[0]) == (s1, true);
    Appends(s1, pid, p.key, counter, packets, payloads, 1);
  }

  /** Where one concatenation is cut, the other is cut too. */
  lemma Front(first: seq<byte>, more: seq<byte>, head: seq<byte>, body: seq<byte>)
    requires first + more == head + body && |first| >= |head|
    ensures first == head + first[|head|..] && first[|head|..] + more == body
  {
    assert (first + more)[..|head|] == first[..|head|];
    assert (head + body)[..|head|] == head;
    assert (first + more)[|head|..] == first[|head|..] + more;
    assert (head + body)[|head|..] == body;
  }

  function Idle(kind: Kind): State { State(kind, false, 0, 0, None, 0, []) }

  /** What a reader makes of one payload, and whether it can. */
  function Read(kind: Kind, p: Payload): (seq<Packet>, bool) {
    Emitted(Begun(Idle(kind), p), p.body)
  }

  function LengthSeen(p: Payload): int {
    Pes.LengthRead(p.datalen, Pes.StampBytes(p.pts, p.dts))
  }

  predicate Readable(kind: Kind, p: Payload) {
    LengthSeen(p) >= 0 && Pes.LengthAccepted(LengthSeen(p), |p.body|) && Read(kind, p).1
  }

  /** A payload with the transport packets it was sent in. */
  datatype Job = Job(payload: Payload, packets: seq<seq<byte>>, payloads: seq<seq<byte>>, counter: nat)

  ghost predicate Good(job: Job, pid: nat, kind: Kind) {
    Sends(job.packets, job.payloads, pid, job.counter, job.payload) && Readable(kind, job.payload)
  }

  function Sent(jobs: seq<Job>): seq<seq<byte>> {
    if jobs == [] then [] else jobs[0].packets + Sent(jobs[1..])
  }

  function AllRead(kind: Kind, jobs: seq<Job>): seq<Packet> {
    if jobs == [] then [] else Read(kind, jobs[0].payload).0 + AllRead(kind, jobs[1..])
  }

  lemma {:induction false} VideoLikewise(s: State, t: State, units: seq<seq<byte>>)
    requires s.key == t.key && s.pts == t.pts && s.dts == t.dts
    ensures VideoPackets(s, units) == VideoPackets(t, units)
  {
    hide IsData;
    if units != [] {
      VideoLikewise(s, t, units[1..]);
    }
  }

  lemma {:induction false} AudioLikewise(s: State, t: State, payload: seq<byte>, delta: int)
    requires s.key == t.key && s.pts == t.pts && s.dts == t.dts
    ensures AudioPackets(s, payload, delta) == AudioPackets(t, payload, delta)
    decreases |payload|
  {
    hide Adts.Parse, PacketOf;
    if payload != [] {
      var f := Adts.Parse(payload);
      TsDemuxer.Stream.FrameFits(payload);
      PacketLikewise(s, t);
      if f.Some? && f.value.framelen <= |payload| && f.value.config.rateIndex < |Adts.RATES| {
        AudioLikewise(s, t, payload[f.value.framelen..],
                      delta + f.value.samples * SECOND / Adts.RATES[f.value.config.rateIndex]);
      }
    }
  }

  lemma PacketLikewise(s: State, t: State)
    requires s.key == t.key && s.pts == t.pts && s.dts == t.dts
    ensures forall payload, delta :: PacketOf(s, payload, delta) == PacketOf(t, payload, delta)
  {
  }

  /** The frames of a payload depend on nothing that was read before. */
  lemma EndsAsRead(s: State, p: Payload)
    requires Readable(s.kind, p)
    ensures var (e, ok) := Ended(Begun(s, p));
      ok && e.kind == s.kind && e.pkts == s.pkts + Read(s.kind, p).0
  {
    hide Pes.OnClock, Pes.LengthRead, Split;
    var b, i := Begun(s, p), Begun(Idle(s.kind), p);
    AudioLikewise(b, i, p.body, 0);
    VideoLikewise(b, i, Split(p.body).0);
  }

  /** For every run of payloads: a stream reads them all, in order, whatever it holds at the start. */
  lemma {:induction false} RunDelivers(s: State, pid: nat, jobs: seq<Job>)
    requires Ended(s).1 && forall j <- jobs :: Good(j, pid, s.kind)
    ensures var (e, ok) := Run(s, pid, Sent(jobs));
      ok && Ended(e).1 && Ended(e).0.pkts == Ended(s).0.pkts + AllRead(s.kind, jobs)
    decreases |jobs|
  {
    hide Ended, Sends, Readable, Read, Begun;
    KindStays(s);
    if jobs == [] {
      assert Ended(s).0.pkts + [] == Ended(s).0.pkts;
    } else {
      var j, more := jobs[0], jobs[1..];
      assert Good(j, pid, s.kind);
      var s0 := Ended(s).0;
      LengthOk(s.kind, j.payload);
      PayloadAssembled(s, pid, j.packets, j.payloads, j.counter, j.payload);
      var s1 := Begun(s0, j.payload);
      EndsAsRead(s0, j.payload);
      KindStays(s1);
      RunDelivers(s1, pid, more);
      RunAppend(s, pid, j.packets, Sent(more));
      Joins(s0.pkts, Read(s.kind, j.payload).0, AllRead(s.kind, more));
    }
  }

  lemma KindStays(s: State)
    ensures Ended(s).0.kind == s.kind
    ensures forall p :: Begun(s, p).kind == s.kind
  {
    hide Emitted;
  }

  lemma LengthOk(kind: Kind, p: Payload)
    requires Readable(kind, p)
    ensures LengthSeen(p) >= 0
  {
  }

  /** The decoding time a reader finds for a picture. */
  function TimeRead(pkt: Packet): int {
    var t := pkt.time + SECOND;
    if Pes.OnClock(t) == 0 then Pes.OnClock(t + pkt.compositionTime) else Pes.OnClock(t)
  }

  /** A picture as it is read: each unit of picture data on its own, with the picture's times and key mark. */
  function PictureRead(pkt: Packet, units: seq<seq<byte>>): seq<Packet> {
    if units == [] then []
    else
      (if IsData(units[0]) then
         [Packet(TimeRead(pkt), Pes.OnClock(pkt.time + SECOND + pkt.compositionTime) - TimeRead(pkt), pkt.isKeyFrame,
                 BE32(ToU32(|units[0]|)) + units[0])]
       else [])
      + PictureRead(pkt, units[1..])
  }

  lemma {:induction false} UnitsRead(s: State, pkt: Packet, units: seq<seq<byte>>)
    requires s.key == pkt.isKeyFrame && s.dts == Pes.OnClock(pkt.time + SECOND)
    requires s.pts == Pes.OnClock(pkt.time + SECOND + pkt.compositionTime)
    ensures VideoPackets(s, units) == PictureRead(pkt, units)
  {
    hide Pes.OnClock, IsData;
    if units != [] {
      UnitsRead(s, pkt, units[1..]);
    }
  }

  /** Every picture of clean units is read as its units of picture data: nothing else of the stream, neither the
      delimiter nor the parameter sets, becomes a packet. */
  lemma PictureSurvives(sps: seq<byte>, pps: seq<byte>, pkt: Packet)
    requires pkt.time >= 0 && pkt.time + pkt.compositionTime + SECOND > 0
    requires var units := Units(sps, pps, pkt);
      units != [] && (forall u <- units :: Clean(u)) && |Joined(units)| < 0xf000_0000
    ensures var p := VideoPayload(sps, pps, pkt);
      Readable(Video, p) && Read(Video, p).0 == PictureRead(pkt, Units(sps, pps, pkt))
  {
    hide Pes.OnClock, Split, Joined, Clean;
    var units, p := Units(sps, pps, pkt), VideoPayload(sps, pps, pkt);
    hide Units;
    JoinedRecovered(units);
    var s := Begun(Idle(Video), p);
    DelimiterDropped(s, units);
    UnitsRead(s, pkt, units);
  }

  lemma DelimiterDropped(s: State, units: seq<seq<byte>>)
    ensures VideoPackets(s, [[0x9, 0xf0]] + units) == VideoPackets(s, units)
  {
    assert ([[0x9, 0xf0]] + units)[1..] == units;
    assert [] + VideoPackets(s, units) == VideoPackets(s, units);
  }

  /** One packet of audio as it is read. */
  function SoundRead(pkt: Packet): Packet {
    Packet(Pes.OnClock(pkt.time + SECOND), 0, true, pkt.data)
  }

  /** An audio packet is read as it was written exactly when frame header and data fit into the 13 bits of the frame's
      length. */
  lemma SoundSurvivesIff(config: Adts.Config, pkt: Packet)
    requires pkt.time >= 0 && config.channels % 8 != 0 && config.rateIndex % 16 < |Adts.RATES|
    ensures var p := AudioPayload(config, pkt);
      (Readable(Audio, p) && Read(Audio, p).0 == [SoundRead(pkt)]) <==> |pkt.data| + 7 < 0x2000
  {
    hide Pes.OnClock, Adts.Parse, Adts.Layout, Pes.LengthAccepted, LengthSeen;
    var p := AudioPayload(config, pkt);
    var n := |pkt.data|;
    Adts.FrameReadsBackIff(config, 1024, pkt.data, []);
    assert p.body + [] == p.body;
    var s := Begun(Idle(Audio), p);
    var f := Adts.Parse(p.body);
    if n + 7 < 0x2000 {
      SoundLength(config, pkt);
      assert p.body[7..n + 7] == pkt.data && p.body[n + 7..] == [];
      OneFrame(s, p.body);
    } else if f.Some? {
      assert f.value.framelen == (n + 7) % 0x2000 < n + 7;
      FirstFrame(s, p.body);
    }
  }

  lemma SoundLength(config: Adts.Config, pkt: Packet)
    requires |pkt.data| + 7 < 0x2000
    ensures var p := AudioPayload(config, pkt); LengthSeen(p) >= 0 && Pes.LengthAccepted(LengthSeen(p), |p.body|)
  {
  }

  lemma FirstFrame(s: State, payload: seq<byte>)
    requires payload != [] && Adts.Parse(payload).Some?
    ensures var f := Adts.Parse(payload).value; var (pkts, ok) := AudioPackets(s, payload, 0);
      ok ==> pkts != [] && |pkts[0].data| == f.framelen - f.hdrlen
  {
  }

  lemma OneFrame(s: State, payload: seq<byte>)
    requires payload != [] && Adts.Parse(payload).Some?
    requires var f := Adts.Parse(payload).value; f.framelen == |payload| && f.config.rateIndex < |Adts.RATES|
    ensures var f := Adts.Parse(payload).value;
      AudioPackets(s, payload, 0) == ([PacketOf(s, payload[f.hdrlen..], 0)], true)
  {
    var f := Adts.Parse(payload).value;
    TsDemuxer.Stream.FrameFits(payload);
    hide Adts.Parse, PacketOf;
    assert payload[f.framelen..] == [] && payload[f.hdrlen..f.framelen] == payload[f.hdrlen..];
    var first := PacketOf(s, payload[f.hdrlen..], 0);
    assert [first] + [] == [first];
    TsDemuxer.Stream.NoFrame(s, [], f.samples * SECOND / Adts.RATES[f.config.rateIndex]);
  }
}
