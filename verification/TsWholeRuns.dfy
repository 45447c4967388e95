/** Whole transport streams: every stream of a mixture is read as if it were alone, and a file with its tables in front
    gives back what was sent on each of them. */
module TsWholeRuns {
  import opened Bytes
  import opened TsDemuxer
  import opened TsMuxer
  import Maps = ProgramMaps
  import Psi
  import Ts = TsPackets
  import opened TsRoundTrip
  import opened TsTables
  import opened TsStreams

  /** A packet of full length with a sync byte and a header inside it. */
  predicate Whole(p: seq<byte>) {
    |p| == Ts.PACKET && Ts.ParseTSHeader(p).Some? && Ts.ParseTSHeader(p).value.hdrlen <= Ts.PACKET
  }

  /** No two members have the same packet id or number. */
  ghost predicate Distinct(ms: seq<Member>) {
    && (forall i, j :: 0 <= i < j < |ms| ==> ms[i].pid != ms[j].pid)
    && (forall i, j :: 0 <= i < j < |ms| ==> ms[i].idx != ms[j].idx)
  }

  /** The same streams, whatever they have read. */
  ghost predicate SameStreams(a: seq<Member>, b: seq<Member>) {
    |a| == |b| && forall j :: 0 <= j < |a| ==> a[j].idx == b[j].idx && a[j].pid == b[j].pid
  }

  lemma DistinctLikewise(a: seq<Member>, b: seq<Member>)
    requires SameStreams(a, b) && Distinct(a)
    ensures Distinct(b)
  {
    forall i, j | 0 <= i < j < |b| ensures b[i].pid != b[j].pid && b[i].idx != b[j].idx {
      assert a[i].pid != a[j].pid && a[i].idx != a[j].idx;
    }
  }

  ghost predicate Mapped(d: Demux) { d.pat.Some? && d.mapped && Distinct(d.members) }

  lemma FindOwn(ms: seq<Member>, j: nat)
    requires j < |ms| && Distinct(ms)
    ensures Find(ms, ms[j].pid) == j
  {
    FindIs(ms, ms[j].pid, j);
  }

  /** One packet: a packet that is not whole stops the reader, any other reaches each stream exactly as it would alone. */
  lemma PacketProjects(d: Demux, p: seq<byte>, j: nat)
    requires Mapped(d) && j < |d.members|
    ensures var (e, ok) := Accept(d, p);
      && SameStreams(d.members, e.members) && Mapped(e)
      && (ok ==> Whole(p) && (e.members[j].state, true) == Feed(d.members[j].state, d.members[j].pid, p))
      && (!ok && Whole(p) ==> exists i :: 0 <= i < |d.members| && !Feed(d.members[i].state, d.members[i].pid, p).1)
  {
    hide Handle, Ts.ParseTSHeader, Distinct;
    var (e, ok) := Accept(d, p);
    if Whole(p) {
      var h := Ts.ParseTSHeader(p).value;
      var f := Find(d.members, h.pid);
      FindOwn(d.members, j);
      if f < |d.members| {
        Reached(d, p, f);
      }
    }
    assert SameStreams(d.members, e.members);
    DistinctLikewise(d.members, e.members);
  }

  lemma Reached(d: Demux, p: seq<byte>, f: nat)
    requires Mapped(d) && Whole(p) && f < |d.members| && f == Find(d.members, Ts.ParseTSHeader(p).value.pid)
    ensures var (e, ok) := Accept(d, p); var m := d.members[f];
      (e.members[f].state, ok) == Feed(m.state, m.pid, p)
  {
    hide Handle, Ts.ParseTSHeader;
  }

  ghost predicate AllWhole(ps: seq<seq<byte>>) { forall p <- ps :: Whole(p) }

  /** Each stream gets through the packets on its own. */
  ghost predicate AllRun(ms: seq<Member>, ps: seq<seq<byte>>) {
    forall j :: 0 <= j < |ms| ==> Run(ms[j].state, ms[j].pid, ps).1
  }

  /** Each stream stands where the packets take it on its own. */
  ghost predicate Arrived(ms: seq<Member>, ps: seq<seq<byte>>, after: seq<Member>) {
    SameStreams(ms, after) && forall j :: 0 <= j < |ms| ==> after[j].state == Run(ms[j].state, ms[j].pid, ps).0
  }

  /** One packet brings each stream to its next state. */
  ghost predicate Fed(ms: seq<Member>, p: seq<byte>, next: seq<Member>) {
    SameStreams(ms, next)
    && forall j :: 0 <= j < |ms| ==> (next[j].state, true) == Feed(ms[j].state, ms[j].pid, p)
  }

  lemma WholeNext(ps: seq<seq<byte>>)
    requires ps != []
    ensures AllWhole(ps) <==> Whole(ps[0]) && AllWhole(ps[1..])
  {
    hide Whole;
    assert forall p <- ps[1..] :: p in ps;
    assert ps == [ps[0]] + ps[1..];
  }

  lemma FedOn(ms: seq<Member>, ps: seq<seq<byte>>, next: seq<Member>, after: seq<Member>)
    requires ps != [] && Fed(ms, ps[0], next)
    ensures AllRun(ms, ps) <==> AllRun(next, ps[1..])
    ensures Arrived(next, ps[1..], after) ==> Arrived(ms, ps, after)
  {
    hide Feed;
    forall j | 0 <= j < |ms| ensures Run(ms[j].state, ms[j].pid, ps) == Run(next[j].state, next[j].pid, ps[1..]) {
    }
  }

  lemma NotFed(ms: seq<Member>, ps: seq<seq<byte>>, i: nat)
    requires ps != [] && i < |ms| && !Feed(ms[i].state, ms[i].pid, ps[0]).1
    ensures !AllRun(ms, ps)
  {
    hide Feed;
    assert !Run(ms[i].state, ms[i].pid, ps).1;
  }

  /** One packet as all streams see it. */
  lemma PacketFeeds(d: Demux, p: seq<byte>)
    requires Mapped(d)
    ensures var (e, ok) := Accept(d, p);
      && SameStreams(d.members, e.members) && Mapped(e)
      && (ok ==> Whole(p) && Fed(d.members, p, e.members))
      && (!ok && Whole(p) ==> exists i :: 0 <= i < |d.members| && !Feed(d.members[i].state, d.members[i].pid, p).1)
  {
    hide Accept, Feed, Whole, Mapped;
    var (e, ok) := Accept(d, p);
    Streams(d, p);
    forall j | 0 <= j < |d.members|
      ensures ok ==> (e.members[j].state, true) == Feed(d.members[j].state, d.members[j].pid, p)
      ensures !ok && Whole(p) ==> exists i :: 0 <= i < |d.members| && !Feed(d.members[i].state, d.members[i].pid, p).1
    {
      PacketProjects(d, p, j);
    }
    if d.members != [] {
      PacketProjects(d, p, 0);
    }
  }

  /** For every mixture of packets: the reader gets through if and only if each packet is whole and each stream would
      get through on its own, and then each stream stands where it would stand on its own. */
  lemma {:induction false} MixtureReadIff(d: Demux, ps: seq<seq<byte>>)
    requires Mapped(d)
    ensures var (e, ok) := AcceptAll(d, ps);
      && SameStreams(d.members, e.members) && Mapped(e)
      && (ok <==> AllWhole(ps) && AllRun(d.members, ps))
      && (ok ==> Arrived(d.members, ps, e.members))
    decreases |ps|
  {
    hide Accept, Feed, Whole, Mapped, AllWhole, AllRun, Arrived, Fed;
    if ps == [] {
      NothingToRead(d.members);
    } else {
      var (d1, ok) := Accept(d, ps[0]);
      PacketFeeds(d, ps[0]);
      WholeNext(ps);
      if ok {
        MixtureReadIff(d1, ps[1..]);
        FedOn(d.members, ps, d1.members, AcceptAll(d1, ps[1..]).0.members);
      } else if Whole(ps[0]) {
        var i :| 0 <= i < |d.members| && !Feed(d.members[i].state, d.members[i].pid, ps[0]).1;
        NotFed(d.members, ps, i);
      }
    }
  }

  lemma NothingToRead(ms: seq<Member>)
    ensures AllWhole([]) && AllRun(ms, []) && Arrived(ms, [], ms)
  {
  }

  lemma Streams(d: Demux, p: seq<byte>)
    requires Mapped(d)
    ensures var (e, ok) := Accept(d, p);
      SameStreams(d.members, e.members) && Mapped(e) && (!ok && d.members == [] ==> !Whole(p)) && (ok ==> Whole(p))
  {
    hide Handle, Ts.ParseTSHeader, Distinct;
    var (e, ok) := Accept(d, p);
    assert SameStreams(d.members, e.members);
    DistinctLikewise(d.members, e.members);
  }

  lemma {:induction false} OfAppend(queue: seq<Tagged>, more: seq<Tagged>, idx: nat)
    ensures Of(queue + more, idx) == Of(queue, idx) + Of(more, idx)
    decreases |more|
  {
    if more == [] {
      assert queue + more == queue;
      assert Of(queue, idx) + [] == Of(queue, idx);
    } else {
      var last := |more| - 1;
      assert (queue + more)[..|queue + more| - 1] == queue + more[..last];
      OfAppend(queue, more[..last], idx);
    }
  }

  lemma {:induction false} OfTagged(idx: nat, pkts: seq<Packet>, other: nat)
    ensures Of(Tag(idx, pkts), other) == if idx == other then pkts else []
    decreases |pkts|
  {
    hide Of, Tag;
    if pkts == [] {
      OfNothing(idx, other);
    } else {
      var last := |pkts| - 1;
      OfTagged(idx, pkts[..last], other);
      OfSnoc(Tag(idx, pkts[..last]), Tagged(idx, pkts[last]), other);
      TagSnoc(idx, pkts[..last], pkts[last]);
      assert pkts == pkts[..last] + [pkts[last]];
    }
  }

  lemma OfNothing(idx: nat, other: nat)
    ensures Of(Tag(idx, []), other) == []
  {
  }

  lemma TagSnoc(idx: nat, pkts: seq<Packet>, p: Packet)
    ensures Tag(idx, pkts + [p]) == Tag(idx, pkts) + [Tagged(idx, p)]
  {
  }

  lemma OfSnoc(queue: seq<Tagged>, t: Tagged, idx: nat)
    ensures Of(queue + [t], idx) == if t.idx == idx then Of(queue, idx) + [t.packet] else Of(queue, idx)
  {
    assert (queue + [t])[..|queue|] == queue;
  }

  /** The queue holds of each stream what that stream has delivered, in order. */
  ghost predicate Consistent(d: Demux) {
    forall j :: 0 <= j < |d.members| ==> Of(d.queue, d.members[j].idx) == d.members[j].state.pkts
  }

  lemma MovedConsistent(d: Demux, j: nat, s: State)
    requires Consistent(d) && Distinct(d.members) && j < |d.members| && d.members[j].state.pkts <= s.pkts
    ensures Consistent(Moved(d, j, s))
  {
    hide Of;
    var m := d.members[j];
    var more := s.pkts[|m.state.pkts|..];
    assert s.pkts == m.state.pkts + more;
    forall i | 0 <= i < |d.members|
      ensures Of(Moved(d, j, s).queue, d.members[i].idx) == if i == j then s.pkts else d.members[i].state.pkts
    {
      OfAppend(d.queue, Tag(m.idx, more), d.members[i].idx);
      OfTagged(m.idx, more, d.members[i].idx);
      assert i < j ==> d.members[i].idx != m.idx;
      assert j < i ==> m.idx != d.members[i].idx;
      assert d.members[i].state.pkts + [] == d.members[i].state.pkts;
    }
  }

  lemma EndedGrows(s: State)
    ensures s.pkts <= Ended(s).0.pkts
  {
    hide Emitted;
  }

  lemma HandleGrows(s: State, start: bool, key: bool, payload: seq<byte>)
    ensures s.pkts <= Handle(s, start, key, payload).0.pkts
  {
    hide Ended;
    EndedGrows(s);
  }

  lemma AcceptConsistent(d: Demux, p: seq<byte>)
    requires Mapped(d) && Consistent(d)
    ensures Consistent(Accept(d, p).0)
  {
    hide Handle, Ts.ParseTSHeader, Distinct, Consistent, Moved;
    if Whole(p) {
      var h := Ts.ParseTSHeader(p).value;
      var f := Find(d.members, h.pid);
      if f < |d.members| {
        HandleGrows(d.members[f].state, h.start, h.isKeyFrame, p[h.hdrlen..]);
        MovedConsistent(d, f, Handle(d.members[f].state, h.start, h.isKeyFrame, p[h.hdrlen..]).0);
      }
    }
  }

  lemma {:induction false} QueueKeeps(d: Demux, ps: seq<seq<byte>>)
    requires Mapped(d) && Consistent(d)
    ensures Consistent(AcceptAll(d, ps).0)
    decreases |ps|
  {
    hide Accept, Mapped, Consistent;
    if ps != [] {
      AcceptConsistent(d, ps[0]);
      Streams(d, ps[0]);
      if Accept(d, ps[0]).1 {
        QueueKeeps(Accept(d, ps[0]).0, ps[1..]);
      }
    }
  }

  /** At the end of the input: if every stream's last payload can be ended, all are, in the order of the streams. */
  lemma {:induction false} AllEnd(d: Demux, k: nat)
    requires Mapped(d) && Consistent(d) && k <= |d.members|
    requires forall j :: 0 <= j < |d.members| ==> Ended(d.members[j].state).1
    ensures var (e, ok) := EndFirst(d, k);
      && ok && Mapped(e) && Consistent(e) && SameStreams(d.members, e.members)
      && forall j :: 0 <= j < |d.members| ==>
           e.members[j].state == if j < k then Ended(d.members[j].state).0 else d.members[j].state
  {
    hide Ended, Consistent, Distinct;
    if k > 0 {
      AllEnd(d, k - 1);
      var e := EndFirst(d, k - 1).0;
      EndedGrows(e.members[k - 1].state);
      MovedConsistent(e, k - 1, Ended(e.members[k - 1].state).0);
      DistinctLikewise(d.members, EndFirst(d, k).0.members);
    }
  }

  lemma {:induction false} AcceptAppend(d: Demux, a: seq<seq<byte>>, b: seq<seq<byte>>)
    ensures var (d1, ok) := AcceptAll(d, a);
      AcceptAll(d, a + b) == if ok then AcceptAll(d1, b) else (d1, false)
    decreases |a|
  {
    hide Accept;
    if a == [] {
      assert a + b == b;
    } else {
      assert (a + b)[1..] == a[1..] + b;
      AcceptAppend(Accept(d, a[0]).0, a[1..], b);
    }
  }

  /** A reader that pays no attention to a packet id passes over all packets that carry it. */
  ghost predicate Ignores(d: Demux, pid: nat) {
    forall p :: Whole(p) && Ts.ParseTSHeader(p).value.pid == pid ==> Accept(d, p) == (d, true)
  }

  lemma {:induction false} PassesOver(d: Demux, packets: seq<seq<byte>>, pid: nat, key: bool, counter: nat,
                                      payloads: seq<seq<byte>>, k: nat)
    requires Ts.Carry(packets, pid, key, counter, payloads) && Ignores(d, pid) && k <= |packets|
    ensures AcceptAll(d, packets[k..]) == (d, true)
    decreases |packets| - k
  {
    hide Accept, Ts.ParseTSHeader;
    if k < |packets| {
      assert Ts.IsPacket(packets[k], pid, k == 0, k == 0 && key, counter + k, payloads[k]);
      assert Whole(packets[k]);
      PassesOver(d, packets, pid, key, counter, payloads, k + 1);
      assert packets[k..][0] == packets[k] && packets[k..][1..] == packets[k + 1..];
    }
  }

  const FOUND := NEW_DEMUX.(pat := Some(TheProgram()))

  lemma PatPhase(pat: seq<seq<byte>>, payloads: seq<seq<byte>>, counter: nat)
    requires Carries(pat, payloads, 0, counter, TABLE_PAT, Psi.PatBytes(TheProgram()))
    ensures AcceptAll(NEW_DEMUX, pat) == (FOUND, true)
  {
    hide Ts.ParseTSHeader, ReadProgram, Psi.PatBytes, Psi.Filled, Handle, ReadMap, MembersOf, Moved;
    ProgramFound(pat, payloads, 0, counter);
    assert Ts.IsPacket(pat[0], 0, true, false, counter, payloads[0]);
    assert Accept(NEW_DEMUX, pat[0]) == (FOUND, true);
    assert !NamesMap(TheProgram(), 0);
    PassesOver(FOUND, pat, 0, false, counter, payloads, 1);
  }

  /** A stream of the file: what it is, its packet id, and the payloads sent on it. */
  datatype Channel = Channel(kind: Kind, pid: u16, jobs: seq<Job>)

  function InfosOf(cs: seq<Channel>): (infos: seq<Maps.StreamInfo>)
    ensures |infos| == |cs|
    ensures forall i :: 0 <= i < |cs| ==>
      infos[i] == Maps.StreamInfo(if cs[i].kind.Video? then H264 else ADTS_AAC, cs[i].pid, [])
  {
    seq(|cs|, i requires 0 <= i < |cs| => Maps.StreamInfo(if cs[i].kind.Video? then H264 else ADTS_AAC, cs[i].pid, []))
  }

  function NewMembers(cs: seq<Channel>): (ms: seq<Member>)
    ensures |ms| == |cs| && forall i :: 0 <= i < |cs| ==> ms[i] == Member(i, cs[i].pid, Idle(cs[i].kind))
  {
    seq(|cs|, i requires 0 <= i < |cs| => Member(i, cs[i].pid, Idle(cs[i].kind)))
  }

  lemma {:induction false} MembersAre(cs: seq<Channel>, k: nat)
    requires k <= |cs|
    ensures MembersOf(InfosOf(cs), k) == NewMembers(cs)[..k]
  {
    if k > 0 {
      MembersAre(cs, k - 1);
      assert NewMembers(cs)[..k] == NewMembers(cs)[..k - 1] + [NewMembers(cs)[k - 1]];
    }
  }

  ghost predicate Proper(cs: seq<Channel>) {
    && (forall i :: 0 <= i < |cs| ==> cs[i].pid < 0x2000 && cs[i].pid != PMT_PID)
    && (forall i, j :: 0 <= i < j < |cs| ==> cs[i].pid != cs[j].pid)
  }

  function Ready(cs: seq<Channel>): Demux { FOUND.(mapped := true, members := NewMembers(cs)) }

  lemma PmtPhase(cs: seq<Channel>, pmt: seq<seq<byte>>, payloads: seq<seq<byte>>, counter: nat)
    requires Proper(cs) && |cs| <= 34
    requires Carries(pmt, payloads, PMT_PID as nat, counter, TABLE_PMT, Maps.PmtBytes(MapOf(InfosOf(cs))))
    ensures AcceptAll(FOUND, pmt) == if |cs| <= 33 then (Ready(cs), true) else (FOUND, false)
  {
    hide Ts.ParseTSHeader, ReadProgram, Maps.PmtBytes, Psi.Filled, Handle, ReadMap, MembersOf, Moved;
    StreamsFoundIff(pmt, payloads, PMT_PID as nat, counter, InfosOf(cs));
    MembersAre(cs, |cs|);
    assert NewMembers(cs)[..|cs|] == NewMembers(cs);
    assert Ts.IsPacket(pmt[0], PMT_PID as nat, true, false, counter, payloads[0]);
    assert TheProgram()[0] in TheProgram();
    assert NamesMap(TheProgram(), PMT_PID as nat);
    if |cs| <= 33 {
      assert Accept(FOUND, pmt[0]) == (Ready(cs), true);
      FindIs(NewMembers(cs), PMT_PID as nat, |cs|);
      PassesOver(Ready(cs), pmt, PMT_PID as nat, false, counter, payloads, 1);
    } else {
      assert Accept(FOUND, pmt[0]) == (FOUND, false);
    }
  }

  /** However the packets of the streams are mixed with each other and with any others, each stream has its own. */
  ghost predicate Mixes(rest: seq<seq<byte>>, cs: seq<Channel>) {
    && AllWhole(rest) && (forall p <- rest :: Synced(p))
    && forall j :: 0 <= j < |cs| ==>
         Own(cs[j].pid, rest) == Sent(cs[j].jobs) && forall job <- cs[j].jobs :: Good(job, cs[j].pid, cs[j].kind)
  }

  lemma ChannelDelivers(c: Channel, rest: seq<seq<byte>>)
    requires (forall p <- rest :: Synced(p)) && Own(c.pid, rest) == Sent(c.jobs)
    requires forall job <- c.jobs :: Good(job, c.pid, c.kind)
    ensures var (e, ok) := Run(Idle(c.kind), c.pid, rest);
      ok && Ended(e).1 && Ended(e).0.pkts == AllRead(c.kind, c.jobs)
  {
    hide Good, Own, Sent, AllRead, Run;
    StreamsAreSeparate(Idle(c.kind), c.pid, rest);
    RunDelivers(Idle(c.kind), c.pid, c.jobs);
    assert [] + AllRead(c.kind, c.jobs) == AllRead(c.kind, c.jobs);
  }

  /** A whole file: its tables, then the packets of the streams mixed in any way. If there are at most 33 streams, then
      read to its end it gives back, for each stream, all payloads sent on it, in order; with the 34 that the muxer still
      accepts, reading fails at the map. */
  lemma FileReadsBack(cs: seq<Channel>, pat: seq<seq<byte>>, patloads: seq<seq<byte>>, m: nat,
                      pmt: seq<seq<byte>>, pmtloads: seq<seq<byte>>, n: nat, rest: seq<seq<byte>>)
    requires Proper(cs) && |cs| <= 34 && Mixes(rest, cs)
    requires Carries(pat, patloads, 0, m, TABLE_PAT, Psi.PatBytes(TheProgram()))
    requires Carries(pmt, pmtloads, PMT_PID as nat, n, TABLE_PMT, Maps.PmtBytes(MapOf(InfosOf(cs))))
    ensures var (d, ok) := AcceptAll(NEW_DEMUX, pat + pmt + rest);
      && (ok <==> |cs| <= 33)
      && (ok ==> |d.members| == |cs| && var (e, ended) := EndFirst(d, |cs|);
         ended && forall j :: 0 <= j < |cs| ==> Of(e.queue, j) == AllRead(cs[j].kind, cs[j].jobs))
  {
    hide AcceptAll, EndFirst, Carries, Psi.PatBytes, Maps.PmtBytes, AllRead, Of, Run, Ended, Own, Sent, Good, AllWhole, Distinct;
    PatPhase(pat, patloads, m);
    PmtPhase(cs, pmt, pmtloads, n);
    AcceptAppend(NEW_DEMUX, pat + pmt, rest);
    AcceptAppend(NEW_DEMUX, pat, pmt);
    if |cs| == 34 {
      return;
    }
    ReadyIsMapped(cs);
    forall j | 0 <= j < |cs|
      ensures var (e, ok) := Run(Idle(cs[j].kind), cs[j].pid, rest);
        ok && Ended(e).1 && Ended(e).0.pkts == AllRead(cs[j].kind, cs[j].jobs)
    {
      ChannelDelivers(cs[j], rest);
    }
    MixtureReadIff(Ready(cs), rest);
    QueueKeeps(Ready(cs), rest);
    AllEnd(AcceptAll(Ready(cs), rest).0, |cs|);
  }

  lemma ReadyIsMapped(cs: seq<Channel>)
    requires Proper(cs)
    ensures Mapped(Ready(cs)) && Consistent(Ready(cs))
  {
  }
}
