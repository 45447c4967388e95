/** The growing ring buffer of packets (av/pktque): a power-of-two array addressed by masking positions
    that only ever increase. */
module PacketRing {
  import opened Bits

  datatype Packet = Packet(isKeyFrame: bool, idx: int, time: int, data: seq<int>)

  const Blank := Packet(false, 0, 0, [])

  /** Data bytes of the first k packets. */
  function BytesTo(log: seq<Packet>, k: nat): nat
    requires k <= |log|
  {
    if k == 0 then 0 else BytesTo(log, k - 1) + |log[k - 1].data|
  }

  lemma {:induction false} BytesToAppend(log: seq<Packet>, p: Packet, k: nat)
    requires k <= |log|
    ensures BytesTo(log + [p], k) == BytesTo(log, k)
  {
    if k > 0 {
      BytesToAppend(log, p, k - 1);
    }
  }

  lemma BytesToNext(log: seq<Packet>, p: Packet)
    ensures BytesTo(log + [p], |log| + 1) == BytesTo(log + [p], |log|) + |p.data|
  {
  }

  /** The array index of a position in a ring of 2^bits entries. */
  function Slot(pos: nat, bits: nat): (i: nat)
    ensures i == pos % Pow2(bits) < Pow2(bits)
  {
    MaskIsMod(pos, bits);
    And(pos, Pow2(bits) - 1)
  }

  lemma Doubled(bits: nat)
    ensures Pow2(bits + 1) == 2 * Pow2(bits)
  {
  }

  /** Positions less than one turn apart never share a slot. */
  lemma SlotsDiffer(p: nat, q: nat, bits: nat)
    requires p < q < p + Pow2(bits)
    ensures Slot(p, bits) != Slot(q, bits)
  {
    if p % Pow2(bits) == q % Pow2(bits) {
      NearbyEqual(Pow2(bits), q, p);
    }
  }

  class Buf {
    var Head: nat
    var Tail: nat
    var pkts: array<Packet>
    var Size: int
    var Count: nat
    ghost var log: seq<Packet>  // every packet ever pushed
    ghost var bits: nat

    /** Entry p of the log is in slot p for every position that has not been popped. */
    ghost predicate Valid()
      reads this, pkts
    {
      && pkts.Length == Pow2(bits)
      && Head <= Tail == |log| && Count == Tail - Head <= pkts.Length
      && Size == BytesTo(log, Tail) - BytesTo(log, Head)
      && forall p :: Head <= p < Tail ==> pkts[Slot(p, bits)] == log[p]
    }

    constructor ()
      ensures Valid() && fresh(pkts) && log == [] && Head == 0
    {
      Head, Tail, Size, Count, log, bits := 0, 0, 0, 0, [], 6;
      pkts := new Packet[64](_ => Blank);
      new;
      assert Pow2(6) == 64 by {
        SmallPowers();
        assert Pow2(5) == 32;
      }
    }

    /** Removes the oldest packet. */
    method Pop() returns (pkt: Packet)
      requires Valid() && Count > 0
      modifies this, pkts
      ensures Valid() && pkts == old(pkts)
      ensures log == old(log) && Head == old(Head) + 1 <= Tail && pkt == log[Head - 1]
    {
      MaskIsMod(Head, bits);
      var i := And(Head, pkts.Length - 1);
      pkt := pkts[i];
      forall p | Head < p < Tail ensures Slot(p, bits) != i {
        SlotsDiffer(Head, p, bits);
      }
      pkts[i] := Blank;
      Size := Size - |pkt.data|;
      Head := Head + 1;
      Count := Count - 1;
    }

    /** Doubles the array, moving every retained packet to its new slot. */
    method Grow()
      requires Valid()
      modifies `pkts, `bits
      ensures Valid() && fresh(pkts)
      ensures pkts.Length == 2 * old(pkts.Length)
    {
      hide BytesTo, And, Pow2;
      ghost var more := bits + 1;
      Doubled(bits);
      var newpkts := new Packet[pkts.Length * 2](_ => Blank);
      var i := Head;
      while i < Tail
        invariant Head <= i <= Tail && newpkts.Length == Pow2(more) && newpkts != pkts
        invariant Valid()
        invariant forall p :: Head <= p < i ==> newpkts[Slot(p, more)] == log[p]
      {
        CopyOne(newpkts, more, i);
        i := i + 1;
      }
      pkts := newpkts;
      bits := more;
    }

    method CopyOne(newpkts: array<Packet>, ghost more: nat, i: nat)
      requires Valid() && Head <= i < Tail && newpkts != pkts
      requires newpkts.Length == Pow2(more) && Count <= newpkts.Length
      requires forall p :: Head <= p < i ==> newpkts[Slot(p, more)] == log[p]
      modifies newpkts
      ensures forall p :: Head <= p <= i ==> newpkts[Slot(p, more)] == log[p]
    {
      hide And, Pow2, BytesTo;
      MaskIsMod(i, more);
      MaskIsMod(i, bits);
      forall p | Head <= p < i ensures Slot(p, more) != Slot(i, more) {
        SlotsDiffer(p, i, more);
      }
      newpkts[And(i, newpkts.Length - 1)] := pkts[And(i, pkts.Length - 1)];
    }

    /** Appends a packet, growing the array when it is full. */
    method Push(pkt: Packet)
      requires Valid()
      modifies this, pkts
      ensures Valid() && (pkts == old(pkts) || fresh(pkts))
      ensures log == old(log) + [pkt] && Head == old(Head)
    {
      hide BytesTo, And, Pow2;
      if Count == pkts.Length {
        Grow();
      }
      MaskIsMod(Tail, bits);
      forall p | Head <= p < Tail ensures Slot(p, bits) != Slot(Tail, bits) {
        SlotsDiffer(p, Tail, bits);
      }
      BytesToAppend(log, pkt, Tail);
      BytesToNext(log, pkt);
      BytesToAppend(log, pkt, Head);
      pkts[And(Tail, pkts.Length - 1)] := pkt;
      Tail := Tail + 1;
      Count := Count + 1;
      Size := Size + |pkt.data|;
      log := log + [pkt];
    }

    predicate IsValidPos(pos: int)
      reads this
    {
      pos - Head >= 0 && pos - Tail < 0
    }

    /** The packet at a retained position is the one pushed there. */
    function Get(pos: int): (pkt: Packet)
      requires Valid() && IsValidPos(pos)
      reads this, pkts
      ensures pkt == log[pos]
    {
      MaskIsMod(pos, bits);
      pkts[And(pos, pkts.Length - 1)]
    }
  }
}
