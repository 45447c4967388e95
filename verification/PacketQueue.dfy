/** The publish/subscribe queue and its cursors as objects over the packet ring (av/pubsub). */
module PacketQueue {
  import opened PacketRing
  import QueueSpec

  class Queue {
    const buf: Buf
    var curgopcount: int
    var maxgopcount: int
    var videoidx: int
    var closed: bool

    constructor ()
      ensures Valid() && fresh(buf) && fresh(buf.pkts)
      ensures State() == QueueSpec.Empty
    {
      buf := new Buf();
      curgopcount, maxgopcount, videoidx, closed := 0, 2, -1, false;
    }

    ghost predicate Valid()
      reads this, buf, buf.pkts
    {
      buf.Valid()
    }

    /** What the queue holds: the log of everything published and the bounds of the retained part. */
    ghost function State(): (q: QueueSpec.Queue)
      requires Valid()
      reads this, buf, buf.pkts
      ensures q.Valid()
    {
      QueueSpec.Queue(buf.log, buf.Head, curgopcount, maxgopcount, videoidx, closed)
    }

    method SetMaxGopCount(n: int)
      requires Valid()
      modifies `maxgopcount
      ensures Valid() && State() == old(State()).(maxGops := n)
    {
      maxgopcount := n;
    }

    /** Remembers the last video stream of the header; without one the old choice stays. */
    method WriteHeader(isVideo: seq<bool>)
      requires Valid()
      modifies `videoidx
      ensures Valid() && State() == old(State()).(videoIdx := videoidx)
      ensures if true in isVideo
        then 0 <= videoidx < |isVideo| && isVideo[videoidx] && (forall k :: videoidx < k < |isVideo| ==> !isVideo[k])
        else videoidx == old(videoidx)
      ensures buf.log == [] && curgopcount == 0 ==> QueueSpec.Exact(State())
    {
      for i := 0 to |isVideo|
        invariant if true in isVideo[..i]
          then 0 <= videoidx < i && isVideo[videoidx] && (forall k :: videoidx < k < i ==> !isVideo[k])
          else videoidx == old(videoidx)
      {
        assert isVideo[..i + 1] == isVideo[..i] + [isVideo[i]];
        if isVideo[i] {
          videoidx := i;
        }
      }
      assert isVideo[..|isVideo|] == isVideo;
    }

    method Close()
      requires Valid()
      modifies `closed
      ensures Valid() && State() == old(State()).(closed := true)
    {
      closed := true;
    }

    /** Appends a packet and counts it if it begins a group. */
    method Append(pkt: Packet)
      requires Valid()
      modifies this, buf, buf.pkts
      ensures Valid() && (buf.pkts == old(buf.pkts) || fresh(buf.pkts))
      ensures State() == QueueSpec.Append(old(State()), pkt)
    {
      hide QueueSpec.IsKey, BytesTo, Slot;
      buf.Push(pkt);
      if QueueSpec.IsKey(pkt, videoidx) {
        curgopcount := curgopcount + 1;
      }
    }

    /** Drops the oldest packet, and the count of its group with it. */
    method Drop()
      requires Valid() && buf.Count > 0
      modifies this, buf, buf.pkts
      ensures Valid() && buf.pkts == old(buf.pkts) && buf.Count == old(buf.Count) - 1
      ensures State() == QueueSpec.Drop(old(State()))
    {
      hide QueueSpec.IsKey, BytesTo, Slot;
      var dropped := buf.Pop();
      if QueueSpec.IsKey(dropped, videoidx) {
        curgopcount := curgopcount - 1;
      }
    }

    /** Publishes a packet and drops old ones while too many groups of pictures are held. */
    method WritePacket(pkt: Packet)
      requires Valid()
      modifies this, buf, buf.pkts
      ensures Valid() && (buf.pkts == old(buf.pkts) || fresh(buf.pkts))
      ensures State() == QueueSpec.Publish(old(State()), pkt)
    {
      hide QueueSpec.Evict, QueueSpec.Append, QueueSpec.Drop, Buf.Valid;
      Append(pkt);
      while curgopcount >= maxgopcount && buf.Count > 1
        invariant Valid() && (buf.pkts == old(buf.pkts) || fresh(buf.pkts))
        invariant QueueSpec.Evict(State()) == QueueSpec.Publish(old(State()), pkt)
        decreases buf.Count
      {
        EvictOnce(State());
        CountIs();
        Drop();
        if curgopcount < maxgopcount {
          break;
        }
      }
      EvictOnce(State());
      CountIs();
    }

    lemma CountIs()
      requires Valid()
      ensures buf.Count == |State().log| - State().head >= 0
    {
      hide BytesTo, Slot;
    }
  }

  lemma EvictOnce(q: QueueSpec.Queue)
    requires q.Valid()
    ensures QueueSpec.Evict(q) ==
      if q.gops >= q.maxGops && |q.log| - q.head > 1 then QueueSpec.Evict(QueueSpec.Drop(q)) else q
  {
  }

  class QueueCursor {
    const que: Queue
    const start: QueueSpec.Start
    var pos: int
    var gotpos: bool
    ghost var got: seq<QueueSpec.Delivery>

    constructor (que: Queue, start: QueueSpec.Start)
      ensures this.que == que && View() == QueueSpec.Cursor(start, false, 0, [])
    {
      this.que, this.start := que, start;
      pos, gotpos, got := 0, false, [];
    }

    ghost function View(): QueueSpec.Cursor
      reads this
    {
      QueueSpec.Cursor(start, gotpos, pos, got)
    }

    /** The initial position for the cursor's kind. */
    method Init() returns (i: int)
      requires que.Valid()
      ensures i == QueueSpec.StartPos(que.State(), start)
    {
      match start
      case Latest => i := que.buf.Tail;
      case Oldest => i := que.buf.Head;
      case DelayedTime(dur) => i := InitByTime(dur);
      case DelayedGops(n) => i := InitByGops(n);
    }

    method InitByTime(dur: int) returns (i: int)
      requires que.Valid()
      ensures i == QueueSpec.StartPos(que.State(), QueueSpec.DelayedTime(dur))
    {
      hide BytesTo, Slot;
      var buf := que.buf;
      i := buf.Tail - 1;
      if buf.IsValidPos(i) {
        var end := buf.Get(i);
        while buf.IsValidPos(i)
          invariant i < buf.Tail
          invariant QueueSpec.BackInTime(que.State(), i, end, dur)
                 == QueueSpec.BackInTime(que.State(), buf.Tail - 1, end, dur)
          decreases i - buf.Head
        {
          if end.time - buf.Get(i).time > dur {
            break;
          }
          i := i - 1;
        }
      }
    }

    method InitByGops(n: int) returns (i: int)
      requires que.Valid()
      ensures i == QueueSpec.StartPos(que.State(), QueueSpec.DelayedGops(n))
    {
      hide BytesTo, Slot, QueueSpec.IsKey;
      var buf := que.buf;
      i := buf.Tail - 1;
      if que.videoidx != -1 {
        var gop := 0;
        while buf.IsValidPos(i) && gop < n
          invariant i < buf.Tail
          invariant QueueSpec.BackInGops(que.State(), i, gop, n)
                 == QueueSpec.BackInGops(que.State(), buf.Tail - 1, 0, n)
          decreases i - buf.Head
        {
          if QueueSpec.IsKey(buf.Get(i), que.videoidx) {
            gop := gop + 1;
          }
          i := i - 1;
        }
      }
    }

    /** Finds the start when the cursor is first read, and brings the position into range. */
    method Settle()
      requires que.Valid()
      modifies `pos, `gotpos
      ensures gotpos && pos == QueueSpec.Settled(que.State(), old(View()))
    {
      hide QueueSpec.StartPos, BytesTo, Slot;
      var buf := que.buf;
      if !gotpos {
        pos := Init();
        gotpos := true;
      }
      if pos - buf.Head < 0 {
        pos := buf.Head;
      } else if pos - buf.Tail > 0 {
        pos := buf.Tail;
      }
    }

    /** One pass of the read loop: a packet, the end of a closed queue, or nothing yet. */
    method ReadPacket() returns (r: QueueSpec.Outcome)
      requires que.Valid()
      modifies this
      ensures (View(), r) == QueueSpec.Read(que.State(), old(View()))
    {
      hide QueueSpec.Settled, BytesTo, Slot;
      var buf := que.buf;
      Settle();
      if buf.IsValidPos(pos) {
        var pkt := buf.Get(pos);
        got := got + [QueueSpec.Delivery(pos, pkt, buf.Head)];
        pos := pos + 1;
        return QueueSpec.Got(pkt);
      }
      return if que.closed then QueueSpec.End else QueueSpec.Blocked;
    }
  }
}
