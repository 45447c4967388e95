/** The publish/subscribe queue (av/pubsub) as a log of published packets of which a suffix is retained,
    and what every run of one publisher and any number of cursors keeps. Each call holds the queue's lock,
    so each is one step. */
module QueueSpec {
  import opened Bytes
  import opened PacketRing

  datatype Queue = Queue(log: seq<Packet>, head: nat, gops: int, maxGops: int, videoIdx: int, closed: bool)
  {
    predicate Valid() { head <= |log| }
    function Tail(): nat { |log| }
    predicate Retained(pos: int) { head <= pos < |log| }
  }

  const Empty := Queue([], 0, 0, 2, -1, false)

  /** Go's conversion of the stream index to eight signed bits. */
  function ToI8(x: int): int { (x + 128) % 256 - 128 }

  predicate IsKey(pkt: Packet, videoIdx: int) { pkt.idx == ToI8(videoIdx) && pkt.isKeyFrame }

  function KeyCount(pkt: Packet, videoIdx: int): nat { if IsKey(pkt, videoIdx) then 1 else 0 }

  /** Video key frames among the entries from a position on. */
  function KeysFrom(log: seq<Packet>, from: nat, videoIdx: int): nat
    requires from <= |log|
    decreases |log| - from
  {
    if from == |log| then 0 else KeyCount(log[from], videoIdx) + KeysFrom(log, from + 1, videoIdx)
  }

  lemma {:induction false} KeysFromAppend(log: seq<Packet>, p: Packet, from: nat, videoIdx: int)
    requires from <= |log|
    ensures KeysFrom(log + [p], from, videoIdx) == KeysFrom(log, from, videoIdx) + KeyCount(p, videoIdx)
    decreases |log| - from
  {
    hide IsKey;
    if from < |log| {
      KeysFromAppend(log, p, from + 1, videoIdx);
    } else {
      assert KeysFrom(log + [p], |log| + 1, videoIdx) == 0;
    }
  }

  /** Drops the oldest packet. */
  function Drop(q: Queue): Queue
    requires q.head < |q.log|
  {
    q.(head := q.head + 1, gops := q.gops - KeyCount(q.log[q.head], q.videoIdx))
  }

  /** Drops old packets while too many groups of pictures are held, but never the last packet. */
  function Evict(q: Queue): (q': Queue)
    requires q.Valid()
    ensures q' == q.(head := q'.head, gops := q'.gops) && q.head <= q'.head && q'.Valid()
    decreases |q.log| - q.head
  {
    if q.gops >= q.maxGops && |q.log| - q.head > 1 then Evict(Drop(q)) else q
  }

  function Append(q: Queue, pkt: Packet): Queue {
    q.(log := q.log + [pkt], gops := q.gops + KeyCount(pkt, q.videoIdx))
  }

  function Publish(q: Queue, pkt: Packet): Queue
    requires q.Valid()
  {
    Evict(Append(q, pkt))
  }

  /** The group counter is the number of video key frames retained. */
  predicate Exact(q: Queue)
    requires q.Valid()
  {
    q.gops == KeysFrom(q.log, q.head, q.videoIdx)
  }

  lemma {:induction false} EvictKeepsExact(q: Queue)
    requires q.Valid() && Exact(q)
    ensures Exact(Evict(q))
    decreases |q.log| - q.head
  {
    if q.gops >= q.maxGops && |q.log| - q.head > 1 {
      EvictKeepsExact(Drop(q));
    }
  }

  /** Eviction stops when few enough groups are held or one packet is left, and no earlier stop would have done. */
  lemma {:induction false} EvictIsLeast(q: Queue)
    requires q.Valid() && Exact(q)
    ensures var q' := Evict(q);
      && (q'.gops < q'.maxGops || |q'.log| - q'.head <= 1)
      && (forall h :: q.head <= h < q'.head ==> KeysFrom(q.log, h, q.videoIdx) >= q.maxGops && |q.log| - h > 1)
      && (q.head < |q.log| ==> q'.head < |q.log|)
    decreases |q.log| - q.head
  {
    hide KeysFrom;
    if q.gops >= q.maxGops && |q.log| - q.head > 1 {
      assert Exact(Drop(q)) by { DropKeepsExact(q); }
      EvictIsLeast(Drop(q));
    }
  }

  lemma DropKeepsExact(q: Queue)
    requires q.Valid() && Exact(q) && q.head < |q.log|
    ensures Exact(Drop(q))
  {
  }

  /** After every publication: the counter is exact, the newest packet is retained, either fewer than the maximal
      number of groups are held or just that packet, and no more was dropped than that needs. */
  lemma PublishKeepsWindow(q: Queue, pkt: Packet)
    requires q.Valid() && Exact(q)
    ensures var q' := Publish(q, pkt);
      && Exact(q') && q'.log == q.log + [pkt]
      && q.head <= q'.head < |q'.log|
      && (q'.gops < q'.maxGops || q'.head == |q'.log| - 1)
      && (forall h :: q.head <= h < q'.head ==> KeysFrom(q'.log, h, q.videoIdx) >= q.maxGops && h < |q'.log| - 1)
  {
    hide KeysFrom;
    KeysFromAppend(q.log, pkt, q.head, q.videoIdx);
    EvictKeepsExact(Append(q, pkt));
    EvictIsLeast(Append(q, pkt));
  }

  /** Where a cursor starts when it is first read. */
  datatype Start = Latest | Oldest | DelayedTime(dur: int) | DelayedGops(n: int)

  /** Walks back from the newest packet to the first one more than dur older, or past the oldest. */
  function BackInTime(q: Queue, i: int, end: Packet, dur: int): (r: int)
    requires i < |q.log|
    ensures r <= i
    decreases i - q.head
  {
    if !q.Retained(i) || end.time - q.log[i].time > dur then i else BackInTime(q, i - 1, end, dur)
  }

  /** Walks back over packets until n video key frames have been passed. */
  function BackInGops(q: Queue, i: int, gop: int, n: int): (r: int)
    requires i < |q.log|
    ensures r <= i
    decreases i - q.head
  {
    if !q.Retained(i) || gop >= n then i
    else BackInGops(q, i - 1, gop + KeyCount(q.log[i], q.videoIdx), n)
  }

  function StartPos(q: Queue, start: Start): int
    requires q.Valid()
  {
    var newest := |q.log| - 1;
    match start
    case Latest => |q.log|
    case Oldest => q.head
    case DelayedTime(dur) => if q.Retained(newest) then BackInTime(q, newest, q.log[newest], dur) else newest
    case DelayedGops(n) => if q.videoIdx != -1 then BackInGops(q, newest, 0, n) else newest
  }

  /** A time-delayed cursor starts at the newest packet that is more than dur older than the newest one. */
  lemma {:induction false} TimeStart(q: Queue, i: int, end: Packet, dur: int)
    requires i < |q.log|
    ensures var r := BackInTime(q, i, end, dur);
      && (forall k :: r < k <= i ==> q.Retained(k) && end.time - q.log[k].time <= dur)
      && (q.Retained(r) ==> end.time - q.log[r].time > dur)
    decreases i - q.head
  {
    if q.Retained(i) && end.time - q.log[i].time <= dur {
      TimeStart(q, i - 1, end, dur);
    }
  }

  /** A cursor delayed by n groups starts one packet before the n-th key frame from the end, so its first delivery is
      the last packet of the group before (if still retained). */
  lemma {:induction false} GopStart(q: Queue, i: int, gop: int, n: int)
    requires i < |q.log| && gop < n && (forall k :: i < k < |q.log| ==> q.Retained(k))
    requires gop == if i + 1 < 0 then 0 else KeysFrom(q.log, i + 1, q.videoIdx)
    ensures var r := BackInGops(q, i, gop, n);
      && (forall k :: r < k < |q.log| ==> q.Retained(k))
      && (q.Retained(r) ==>
            && r + 1 < |q.log| && IsKey(q.log[r + 1], q.videoIdx)
            && KeysFrom(q.log, r + 1, q.videoIdx) == n)
    decreases i - q.head
  {
    hide IsKey;
    if q.Retained(i) {
      var more := gop + KeyCount(q.log[i], q.videoIdx);
      if more < n {
        GopStart(q, i - 1, more, n);
      }
    }
  }

  /** A reading position, and everything it has delivered: where, and what was the oldest retained position then. */
  datatype Delivery = Delivery(pos: nat, pkt: Packet, head: nat)
  datatype Cursor = Cursor(start: Start, gotPos: bool, pos: int, got: seq<Delivery>)

  datatype Outcome = Got(pkt: Packet) | End | Blocked

  /** Where a cursor reads: its position, or its start, brought into the range of what is retained. */
  function Settled(q: Queue, c: Cursor): (pos: nat)
    requires q.Valid()
    ensures q.head <= pos <= |q.log|
  {
    var at := if c.gotPos then c.pos else StartPos(q, c.start);
    if at - q.head < 0 then q.head else if at - |q.log| > 0 then |q.log| else at
  }

  /** One pass of the read loop: place the cursor, bring it into range, deliver or report. */
  function Read(q: Queue, c: Cursor): (Cursor, Outcome)
    requires q.Valid()
  {
    var pos := Settled(q, c);
    if q.Retained(pos)
    then (Cursor(c.start, true, pos + 1, c.got + [Delivery(pos, q.log[pos], q.head)]), Got(q.log[pos]))
    else (Cursor(c.start, true, pos, c.got), if q.closed then End else Blocked)
  }

  function Fresh(start: Start): Cursor { Cursor(start, false, 0, []) }

  /** Keys are counted from the end, so at most one position holds the n-th. */
  lemma {:induction false} KeysFromFalls(log: seq<Packet>, j: nat, k: nat, videoIdx: int)
    requires j <= k <= |log|
    ensures KeysFrom(log, j, videoIdx) >= KeysFrom(log, k, videoIdx)
    ensures j < k && IsKey(log[j], videoIdx) ==> KeysFrom(log, j, videoIdx) > KeysFrom(log, k, videoIdx)
    decreases k - j
  {
    hide IsKey;
    if j < k {
      KeysFromFalls(log, j + 1, k, videoIdx);
    }
  }

  /** Looking for the n-th key frame from the end, which stands at k, the walk stops right in front of it. */
  lemma {:induction false} StopsInFront(q: Queue, i: int, gop: int, n: int, k: nat)
    requires q.Valid() && k <= i < |q.log| && q.Retained(k) && IsKey(q.log[k], q.videoIdx)
    requires KeysFrom(q.log, k, q.videoIdx) == n && gop == KeysFrom(q.log, i + 1, q.videoIdx)
    ensures BackInGops(q, i, gop, n) == k - 1
    decreases i
  {
    hide IsKey;
    KeysFromFalls(q.log, k, i + 1, q.videoIdx);
    if k < i {
      StopsInFront(q, i - 1, gop + KeyCount(q.log[i], q.videoIdx), n, k);
    }
  }

  /** The first delivery of a cursor delayed by n groups is the n-th key frame from the end if and only if that is the
      oldest packet retained; otherwise it is the packet before, the last one of another group. */
  lemma GopFirstIff(q: Queue, n: int, k: nat)
    requires q.Valid() && q.videoIdx != -1 && q.Retained(k) && IsKey(q.log[k], q.videoIdx)
    requires KeysFrom(q.log, k, q.videoIdx) == n
    ensures var (c, r) := Read(q, Fresh(DelayedGops(n)));
      && r.Got? && |c.got| == 1 && c.got[0].pkt == r.pkt
      && (c.got[0].pos == k <==> k == q.head)
      && (k != q.head ==> c.got[0].pos == k - 1)
  {
    hide KeysFrom, IsKey;
    NoneFromTail(q);
    StopsInFront(q, |q.log| - 1, 0, n, k);
  }

  lemma NoneFromTail(q: Queue)
    ensures KeysFrom(q.log, |q.log|, q.videoIdx) == 0
  {
  }

  /** With fewer than n key frames retained it begins at the oldest packet. */
  lemma {:induction false} TooFewGops(q: Queue, i: int, gop: int, n: int)
    requires q.Valid() && q.head - 1 <= i < |q.log| && gop == KeysFrom(q.log, i + 1, q.videoIdx)
    requires KeysFrom(q.log, q.head, q.videoIdx) < n
    ensures BackInGops(q, i, gop, n) == q.head - 1
    decreases i
  {
    hide IsKey;
    KeysFromFalls(q.log, q.head, i + 1, q.videoIdx);
    if q.Retained(i) {
      TooFewGops(q, i - 1, gop + KeyCount(q.log[i], q.videoIdx), n);
    }
  }

  /** Of a key frame, another packet and a key frame, a cursor delayed by one group delivers the one in the middle. */
  lemma GopStartsEarly(key: Packet, other: Packet, last: Packet)
    requires key.isKeyFrame && last.isKeyFrame && !other.isKeyFrame && key.idx == other.idx == last.idx == 0
    ensures var q := Queue([key, other, last], 0, 2, 3, 0, false);
      Exact(q) && Read(q, Fresh(DelayedGops(1))).1 == Got(other)
  {
    var q := Queue([key, other, last], 0, 2, 3, 0, false);
    assert KeysFrom(q.log, 3, 0) == 0;
    assert KeysFrom(q.log, 2, 0) == 1;
    assert KeysFrom(q.log, 1, 0) == 1;
    GopFirstIff(q, 1, 2);
  }

  /** A cursor at the latest packet never delivers that one, whatever the queue holds: it waits, and then delivers what
      is published next. */
  lemma LatestIsBehind(q: Queue, pkt: Packet)
    requires q.Valid() && Exact(q)
    ensures var (c, r) := Read(q, Fresh(Latest));
      && !r.Got? && c.got == []
      && Read(Publish(q, pkt), c).1 == Got(pkt)
  {
    hide KeysFrom, Exact;
    PublishKeepsWindow(q, pkt);
  }

  /** Steps of a run. */
  datatype Step = Write(pkt: Packet) | SetMaxGops(n: int) | Close | ReadAt(cursor: nat) | Subscribe(start: Start)

  datatype System = System(queue: Queue, cursors: seq<Cursor>)

  function Next(s: System, step: Step): System
    requires s.queue.Valid()
  {
    match step
    case Write(pkt) => s.(queue := Publish(s.queue, pkt))
    case SetMaxGops(n) => s.(queue := s.queue.(maxGops := n))
    case Close => s.(queue := s.queue.(closed := true))
    case Subscribe(start) => s.(cursors := s.cursors + [Cursor(start, false, 0, [])])
    case ReadAt(i) =>
      if i < |s.cursors| then s.(cursors := s.cursors[i := Read(s.queue, s.cursors[i]).0]) else s
  }

  function Max(a: int, b: int): int { if a >= b then a else b }

  /** A cursor's deliveries: each is the log entry at its position; it goes on right after the one before, or at the
      oldest retained position of the moment if that is later; so positions increase and only packets
      evicted before the read are skipped. */
  ghost predicate Faithful(q: Queue, c: Cursor) {
    && (forall k :: 0 <= k < |c.got| ==>
          c.got[k].pos < |q.log| && c.got[k].pkt == q.log[c.got[k].pos] && c.got[k].head <= c.got[k].pos
              && c.got[k].head <= q.head)
    && (forall j, k :: 0 <= j && k == j + 1 && k < |c.got| ==> c.got[k].pos == Max(c.got[j].pos + 1, c.got[k].head))
    && (c.got != [] ==> c.gotPos && Max(c.got[|c.got| - 1].pos + 1, q.head) == Max(c.pos, q.head))
    && (c.got != [] ==> c.pos <= |q.log|)
  }

  ghost predicate Sound(s: System) {
    && s.queue.Valid() && Exact(s.queue)
    && forall i :: 0 <= i < |s.cursors| ==> Faithful(s.queue, s.cursors[i])
  }

  lemma ReadFaithful(q: Queue, c: Cursor)
    requires q.Valid() && Faithful(q, c)
    ensures Faithful(q, Read(q, c).0)
  {
    hide StartPos;
    var pos := Settled(q, c);
    if q.Retained(pos) {
      hide Settled;
      SettledNext(q, c);
      DeliverFaithful(q, c, pos);
    } else {
      StaysFaithful(q, c);
    }
  }

  lemma SettledNext(q: Queue, c: Cursor)
    requires q.Valid() && Faithful(q, c)
    ensures c.got != [] ==> Settled(q, c) == Max(c.got[|c.got| - 1].pos + 1, q.head)
  {
    hide StartPos;
  }

  lemma StaysFaithful(q: Queue, c: Cursor)
    requires q.Valid() && Faithful(q, c)
    ensures Faithful(q, Cursor(c.start, true, Settled(q, c), c.got))
  {
    hide StartPos;
  }

  lemma DeliverFaithful(q: Queue, c: Cursor, pos: nat)
    requires q.Valid() && Faithful(q, c) && q.Retained(pos)
    requires c.got != [] ==> pos == Max(c.got[|c.got| - 1].pos + 1, q.head)
    ensures Faithful(q, Cursor(c.start, true, pos + 1, c.got + [Delivery(pos, q.log[pos], q.head)]))
  {
  }

  lemma PublishFaithful(q: Queue, pkt: Packet, c: Cursor)
    requires q.Valid() && Faithful(q, c)
    ensures Faithful(Publish(q, pkt), c)
  {
    hide IsKey;
    var q' := Publish(q, pkt);
    assert q'.log[..|q.log|] == q.log;
  }

  /** Every step of every run keeps the window exact and all cursors faithful. */
  lemma NextSound(s: System, step: Step)
    requires Sound(s)
    ensures Sound(Next(s, step))
  {
    hide Faithful, Publish, Exact, Read;
    match step
    case Write(pkt) =>
      PublishExact(s.queue, pkt);
      forall i | 0 <= i < |s.cursors| ensures Faithful(Publish(s.queue, pkt), s.cursors[i]) {
        PublishFaithful(s.queue, pkt, s.cursors[i]);
      }
    case SetMaxGops(n) => FlagsKeepSound(s, s.queue.(maxGops := n));
    case Close => FlagsKeepSound(s, s.queue.(closed := true));
    case Subscribe(start) => NewCursorFaithful(s.queue, start);
    case ReadAt(i) =>
      if i < |s.cursors| {
        ReadFaithful(s.queue, s.cursors[i]);
      }
  }

  lemma PublishExact(q: Queue, pkt: Packet)
    requires q.Valid() && Exact(q)
    ensures Publish(q, pkt).Valid() && Exact(Publish(q, pkt))
  {
    PublishKeepsWindow(q, pkt);
  }

  lemma FlagsKeepSound(s: System, q: Queue)
    requires Sound(s) && q == s.queue.(maxGops := q.maxGops, closed := q.closed)
    ensures Sound(System(q, s.cursors))
  {
    forall i | 0 <= i < |s.cursors| ensures Faithful(q, s.cursors[i]) {
      assert Faithful(s.queue, s.cursors[i]);
    }
  }

  lemma NewCursorFaithful(q: Queue, start: Start)
    ensures Faithful(q, Cursor(start, false, 0, []))
  {
  }

  function Run(s: System, steps: seq<Step>): System
    requires s.queue.Valid()
    decreases |steps|
  {
    if steps == [] then s
    else
      var s' := Run(s, steps[..|steps| - 1]);
      if s'.queue.Valid() then Next(s', steps[|steps| - 1]) else s'
  }

  /** Safety of all runs from the empty queue. */
  lemma {:induction false} RunSound(videoIdx: int, steps: seq<Step>)
    ensures Sound(Run(System(Empty.(videoIdx := videoIdx), []), steps))
    decreases |steps|
  {
    hide Faithful, Publish, Exact, Read, Next;
    var s := System(Empty.(videoIdx := videoIdx), []);
    if steps == [] {
      EmptySound(videoIdx);
    } else {
      RunSound(videoIdx, steps[..|steps| - 1]);
      NextSound(Run(s, steps[..|steps| - 1]), steps[|steps| - 1]);
    }
  }

  lemma EmptySound(videoIdx: int)
    ensures Exact(Empty.(videoIdx := videoIdx))
  {
  }

  /** Deliveries of one cursor come at strictly increasing positions. When positions are skipped between two of them,
      the second was the oldest retained at that moment: everything skipped had been evicted. */
  lemma {:induction false} DeliveriesIncrease(q: Queue, c: Cursor, j: nat, k: nat)
    requires Faithful(q, c) && j < k < |c.got|
    ensures c.got[j].pos < c.got[k].pos
    ensures k == j + 1 && c.got[j].pos + 1 < c.got[k].pos ==> c.got[k].pos == c.got[k].head
  {
    if j + 1 < k {
      DeliveriesIncrease(q, c, j, k - 1);
    }
  }

  /** The end is reported only by a closed queue that retains nothing at or after the cursor; a reader of an open
      queue waits in that case, and a reader with something retained ahead never does either. */
  lemma EndMeansDrained(q: Queue, c: Cursor)
    requires q.Valid()
    ensures var (c', r) := Read(q, c);
      && (r.End? ==> q.closed) && (r.Blocked? ==> !q.closed)
      && (r.Got? <==> c'.got != c.got)
      && (!r.Got? ==> forall p :: q.Retained(p) ==> p < c'.pos)
      && (c.gotPos && (exists p :: q.Retained(p) && p >= c.pos) ==> r.Got?)
  {
    var (c', r) := Read(q, c);
    if r.Got? {
      assert |c'.got| == |c.got| + 1;
    }
  }
}
