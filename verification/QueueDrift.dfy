/** What becomes of a queue whose header is written again (av/pubsub/queue.go): the packets retained stay, another stream
    is watched from then on, and the group counter keeps its value. */
module QueueDrift {
  import opened PacketRing
  import opened QueueSpec

  /** By how much the group counter is too large. */
  function Drift(q: Queue): int
    requires q.Valid()
  {
    q.gops - KeysFrom(q.log, q.head, q.videoIdx)
  }

  /** The queue with an exact counter whose limit is lower by as much. */
  function Corrected(q: Queue): (c: Queue)
    requires q.Valid()
    ensures c.Valid() && Exact(c)
  {
    q.(gops := KeysFrom(q.log, q.head, q.videoIdx), maxGops := q.maxGops - Drift(q))
  }

  function CorrectedSystem(s: System): System
    requires s.queue.Valid()
  {
    System(Corrected(s.queue), s.cursors)
  }

  /** Limits set later are lower by as much, too. */
  function Lowered(step: Step, drift: int): Step {
    if step.SetMaxGops? then SetMaxGops(step.n - drift) else step
  }

  function AllLowered(steps: seq<Step>, drift: int): (r: seq<Step>)
    ensures |r| == |steps|
  {
    if steps == [] then [] else AllLowered(steps[..|steps| - 1], drift) + [Lowered(steps[|steps| - 1], drift)]
  }

  lemma DropCorrected(q: Queue)
    requires q.Valid() && q.head < |q.log|
    ensures Drift(Drop(q)) == Drift(q) && Corrected(Drop(q)) == Drop(Corrected(q))
  {
    hide IsKey;
  }

  lemma {:induction false} EvictCorrected(q: Queue)
    requires q.Valid()
    ensures Drift(Evict(q)) == Drift(q) && Corrected(Evict(q)) == Evict(Corrected(q))
    decreases |q.log| - q.head
  {
    hide KeysFrom;
    if q.gops >= q.maxGops && |q.log| - q.head > 1 {
      DropCorrected(q);
      EvictCorrected(Drop(q));
    }
  }

  lemma PublishCorrected(q: Queue, pkt: Packet)
    requires q.Valid()
    ensures Drift(Publish(q, pkt)) == Drift(q) && Corrected(Publish(q, pkt)) == Publish(Corrected(q), pkt)
  {
    hide KeysFrom, Evict;
    KeysFromAppend(q.log, pkt, q.head, q.videoIdx);
    EvictCorrected(Append(q, pkt));
  }

  lemma NextCorrected(s: System, step: Step)
    requires s.queue.Valid()
    ensures Next(s, step).queue.Valid() && Drift(Next(s, step).queue) == Drift(s.queue)
    ensures CorrectedSystem(Next(s, step)) == Next(CorrectedSystem(s), Lowered(step, Drift(s.queue)))
  {
    hide Publish, StartPos;
    match step
    case Write(pkt) => PublishCorrected(s.queue, pkt);
    case SetMaxGops(n) =>
    case Close =>
    case Subscribe(start) =>
    case ReadAt(i) => SameRead(s.queue, i, s.cursors);
  }

  /** Reading looks at what is retained, never at the counter. */
  lemma SameRead(q: Queue, i: nat, cursors: seq<Cursor>)
    requires q.Valid()
    ensures i < |cursors| ==> Read(Corrected(q), cursors[i]) == Read(q, cursors[i])
  {
    if i < |cursors| && !cursors[i].gotPos {
      SameStart(q, cursors[i].start);
    }
  }

  lemma SameStart(q: Queue, start: Start)
    requires q.Valid()
    ensures StartPos(Corrected(q), start) == StartPos(q, start)
  {
    hide KeysFrom;
    var newest := |q.log| - 1;
    match start
    case Latest =>
    case Oldest =>
    case DelayedTime(dur) =>
      if q.Retained(newest) {
        SameBackInTime(q, newest, q.log[newest], dur);
      }
    case DelayedGops(n) => SameBackInGops(q, newest, 0, n);
  }

  lemma {:induction false} SameBackInTime(q: Queue, i: int, end: Packet, dur: int)
    requires q.Valid() && i < |q.log|
    ensures BackInTime(Corrected(q), i, end, dur) == BackInTime(q, i, end, dur)
    decreases i - q.head
  {
    hide KeysFrom;
    if q.Retained(i) {
      SameBackInTime(q, i - 1, end, dur);
    }
  }

  lemma {:induction false} SameBackInGops(q: Queue, i: int, gop: int, n: int)
    requires q.Valid() && i < |q.log|
    ensures BackInGops(Corrected(q), i, gop, n) == BackInGops(q, i, gop, n)
    decreases i - q.head
  {
    hide KeysFrom, IsKey;
    if q.Retained(i) {
      SameBackInGops(q, i - 1, gop + KeyCount(q.log[i], q.videoIdx), n);
    }
  }

  /** On every run the counter stays off by the same amount, and the queue and all its readers behave as with an exact
      counter and limits lower by that amount. */
  lemma {:induction false} RunCorrected(s: System, steps: seq<Step>)
    requires s.queue.Valid()
    ensures Run(s, steps).queue.Valid() && Drift(Run(s, steps).queue) == Drift(s.queue)
    ensures CorrectedSystem(Run(s, steps)) == Run(CorrectedSystem(s), AllLowered(steps, Drift(s.queue)))
    decreases |steps|
  {
    hide Next, Drift, Corrected, Lowered;
    if steps != [] {
      var last := |steps| - 1;
      RunCorrected(s, steps[..last]);
      NextCorrected(Run(s, steps[..last]), steps[last]);
      var lowered := AllLowered(steps, Drift(s.queue));
      assert lowered[..last] == AllLowered(steps[..last], Drift(s.queue));
    }
  }

  /** Watching another stream from now on: at every later time of every run the counter is exact if and only if as many
      of its key frames were retained at that moment as were counted. */
  lemma RewatchExactIff(s: System, videoIdx: int, steps: seq<Step>)
    requires s.queue.Valid()
    ensures var later := Run(s.(queue := s.queue.(videoIdx := videoIdx)), steps).queue;
      later.Valid() && (Exact(later) <==> KeysFrom(s.queue.log, s.queue.head, videoIdx) == s.queue.gops)
  {
    hide KeysFrom, Run;
    RunCorrected(s.(queue := s.queue.(videoIdx := videoIdx)), steps);
  }

  /** After every write either fewer groups are held than the limit less what the counter is off by, or one packet; and no
      more was dropped than that needs. */
  lemma PublishDrifted(q: Queue, pkt: Packet)
    requires q.Valid()
    ensures var q' := Publish(q, pkt); var limit := q.maxGops - Drift(q);
      && q'.Valid() && q'.log == q.log + [pkt] && q'.videoIdx == q.videoIdx && q'.maxGops == q.maxGops
      && Drift(q') == Drift(q) && q.head <= q'.head < |q'.log|
      && (KeysFrom(q'.log, q'.head, q.videoIdx) < limit || q'.head == |q.log|)
      && (forall h :: q.head <= h < q'.head ==> KeysFrom(q'.log, h, q.videoIdx) >= limit && h < |q.log|)
  {
    hide KeysFrom;
    PublishCorrected(q, pkt);
    PublishKeepsWindow(Corrected(q), pkt);
  }

  /** A counter that is off by the limit or more leaves one packet after every write, so that nothing is ever held for a
      reader that is late; otherwise two packets in a row that are no key frames are both held. */
  lemma HoldsOneIff(q: Queue, a: Packet, b: Packet)
    requires q.Valid()
    ensures Publish(q, a).Valid()
    ensures var q1 := Publish(q, a); var q2 := Publish(q1, b);
      && (Drift(q) >= q.maxGops ==> q1.head == |q.log| && q2.head == |q1.log|)
      && (!a.isKeyFrame && !b.isKeyFrame ==> (q2.head == |q1.log| <==> Drift(q) >= q.maxGops))
  {
    hide KeysFrom, Publish, Drift;
    PublishDrifted(q, a);
    PublishDrifted(Publish(q, a), b);
    if !a.isKeyFrame && !b.isKeyFrame {
      NoKeys(q.log, a, b, q.videoIdx);
    }
  }

  lemma NoKeys(log: seq<Packet>, a: Packet, b: Packet, videoIdx: int)
    requires !a.isKeyFrame && !b.isKeyFrame
    ensures KeysFrom(log + [a] + [b], |log|, videoIdx) == 0
  {
    var all := log + [a] + [b];
    assert KeysFrom(all, |log| + 2, videoIdx) == 0;
    assert KeysFrom(all, |log| + 1, videoIdx) == 0;
  }

  /** A write to a queue that holds something drops nothing if and only if the groups then held are fewer than the limit
      less what the counter is off by: with a counter that is too small, the limit or more are held. */
  lemma DropsNothingIff(q: Queue, pkt: Packet)
    requires q.Valid() && q.head < |q.log|
    ensures Publish(q, pkt).head == q.head <==>
      KeysFrom(q.log + [pkt], q.head, q.videoIdx) < q.maxGops - Drift(q)
  {
    hide KeysFrom, Publish, Drift;
    PublishDrifted(q, pkt);
  }

  /** A limit of three groups lets two be held. Of two streams the first is watched; when the second takes its place while
      one of its key frames is retained, three groups of it are held. */
  lemma HoldsThree(key: Packet)
    requires key.isKeyFrame && key.idx == 1
    ensures var q := Queue([key], 0, 0, 3, 0, false);
      && Exact(q)
      && var q' := Publish(Publish(q.(videoIdx := 1), key), key);
         q'.head == 0 && KeysFrom(q'.log, 0, 1) == 3 == q'.maxGops
  {
    hide Publish, ToI8;
    SmallIndices();
    var q := Queue([key], 0, 0, 3, 1, false);
    assert KeysFrom([key], 1, 0) == 0 && KeysFrom([key], 1, 1) == 0;
    KeysFromAppend([key], key, 0, 1);
    KeysFromAppend([key] + [key], key, 0, 1);
    PublishDrifted(q, key);
    DropsNothingIff(q, key);
    PublishDrifted(Publish(q, key), key);
    DropsNothingIff(Publish(q, key), key);
  }

  /** Under the usual limit of two groups, when the second stream takes the place of the first and the first is watched
      again, one key frame of each is enough to leave only one packet after every write from then on. */
  lemma HoldsOneForEver(first: Packet, second: Packet, pkt: Packet)
    requires first.isKeyFrame && first.idx == 0 && second.isKeyFrame && second.idx == 1
    ensures var q := Queue([first], 0, 1, 2, 0, false);
      && Exact(q) && q == Publish(Empty.(videoIdx := 0), first)
      && var q' := Publish(q.(videoIdx := 1), second).(videoIdx := 0);
         q'.Valid() && Drift(q') == 2 && Publish(q', pkt).head == |q'.log|
  {
    hide ToI8;
    SmallIndices();
    var q := Queue([first], 0, 1, 2, 1, false);
    assert [] + [first] == [first];
    assert KeysFrom([first], 1, 0) == 0 && KeysFrom([first], 1, 1) == 0;
    AfterSecond(q, first, second);
    HoldsOneIff(Queue([first] + [second], 1, 2, 2, 0, false), pkt, pkt);
  }

  lemma AfterSecond(q: Queue, first: Packet, second: Packet)
    requires first.isKeyFrame && first.idx == 0 && second.isKeyFrame && second.idx == 1
    requires q == Queue([first], 0, 1, 2, 1, false)
    ensures var all := [first] + [second];
      Publish(q, second) == Queue(all, 1, 2, 2, 1, false) && KeysFrom(all, 1, 0) == 0
  {
    SmallIndices();
    var all := [first] + [second];
    assert KeysFrom(all, 2, 0) == 0;
    var added, dropped := Queue(all, 0, 2, 2, 1, false), Queue(all, 1, 2, 2, 1, false);
    assert Append(q, second) == added && Drop(added) == dropped;
    assert Evict(added) == Evict(dropped) == dropped;
  }

  lemma SmallIndices()
    ensures ToI8(0) == 0 && ToI8(1) == 1
  {
  }
}
