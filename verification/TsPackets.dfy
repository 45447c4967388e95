/** Cutting a payload into 188-byte transport stream packets and parsing their headers
    (format/ts/tsio, section 2.4.3 of ISO/IEC 13818-1). */
module TsPackets {
  import opened Bytes
  import opened Vectors

  const PACKET := 188
  const SYNC: byte := 0x47
  const PCR_HZ := 27_000_000
  datatype Header = Header(pid: nat, start: bool, isKeyFrame: bool, hdrlen: nat)

  function PidOf(hi: byte, lo: byte): nat { (hi % 0x20) as int * 0x100 + lo as int }

  /** Clearing and setting the start bit leaves the packet id alone. */
  lemma StartBit(hi: byte, lo: byte)
    ensures var x := hi % 0x20; PidOf(x, lo) == PidOf(hi, lo) && x / 0x40 % 2 == 0
    ensures var x := hi % 0x20; 0x40 + x < 0x100 && PidOf(0x40 + x, lo) == PidOf(hi, lo) && (0x40 + x) / 0x40 % 2 == 1
  {
  }

  lemma PidBytes(pid: u16)
    ensures PidOf(pid % 0x2000 / 0x100, pid % 0x100) == pid % 0x2000
  {
    var p := pid % 0x2000;
    assert p % 0x100 == pid % 0x100;
    assert p == p / 0x100 * 0x100 + p % 0x100;
  }

  /** The header at the front of a packet; only the sync byte is checked. */
  function ParseTSHeader(h: seq<byte>): Option<Header>
    requires |h| >= 6
  {
    if h[0] != SYNC then None
    else
      var pid := PidOf(h[1], h[2]);
      var start := h[1] / 0x40 % 2 == 1;
      if h[3] / 0x20 % 2 == 1 then Some(Header(pid, start, h[5] / 0x40 % 2 == 1, h[4] as int + 5))
      else Some(Header(pid, start, false, 4))
  }

  /** Clock reference field; the product with the clock rate wraps at 64 bits. */
  function TimeToPCR(tm: int): u64 {
    var ts := ToU64(Quot(ToI64(tm * PCR_HZ), SECOND));
    ts / 300 % 0x2_0000_0000_0000 * 0x8000 + 0x7e00 + ts % 300
  }

  function BE48(v: u64): (b: seq<byte>)
    ensures |b| == 6
  {
    BE16(v / TWO32 % 0x1_0000) + BE32(v % TWO32)
  }

  /** Room for data in a packet with or without a clock reference. */
  function Room(clocked: bool): nat { if clocked then 176 else 182 }

  /** A packet of this stream: start mark, key mark and counter as given, and the payload after its header. */
  ghost predicate IsPacket(p: seq<byte>, pid: nat, start: bool, key: bool, counter: nat, payload: seq<byte>) {
    && |p| == PACKET && |payload| <= Room(false) && p[3] == 0x30 + counter % 16
    && ParseTSHeader(p).Some?
    && ParseTSHeader(p).value == Header(pid, start, key, PACKET - |payload|)
    && p[PACKET - |payload|..] == payload
  }

  /** Packets that carry data in order: the first is marked as the start, and counters follow each other. */
  ghost predicate Carry(packets: seq<seq<byte>>, pid: nat, key: bool, counter: nat, payloads: seq<seq<byte>>) {
    && |packets| == |payloads|
    && forall k :: 0 <= k < |packets| ==>
         IsPacket(packets[k], pid, k == 0, k == 0 && key, counter + k, payloads[k])
  }

  /** What the header template holds behind the flags: the last clock reference written, and ones. */
  function Fillers(clock: Option<int>): (b: seq<byte>)
    ensures |b| == PACKET - 6
  {
    (if clock.Some? then BE48(TimeToPCR(clock.value)) else seq(6, _ => 0xff)) + seq(PACKET - 12, _ => 0xff)
  }

  /** A header that stretches over all but n bytes of its packet: its length, its clock flag, and what stands behind its
      flags. The first 6 bytes of that are its own clock reference if it is flagged. */
  ghost predicate Stretched(packet: seq<byte>, n: nat, clocked: bool, clock: Option<int>) {
    && |packet| == PACKET && n <= Room(clocked) && packet[4] as int + 5 == PACKET - n
    && packet[5] / 0x10 % 2 == (if clocked then 1 else 0)
    && packet[6..PACKET - n] == Fillers(clock)[..PACKET - n - 6]
  }

  /** Only the first of the packets can carry a clock reference. */
  ghost predicate AllStretched(packets: seq<seq<byte>>, payloads: seq<seq<byte>>, pcr: int, clock: Option<int>) {
    && |packets| == |payloads|
    && forall k :: 0 <= k < |packets| ==> Stretched(packets[k], |payloads[k]|, k == 0 && pcr != 0, clock)
  }

  /** Every packet but the last is full. */
  ghost predicate Cut(payloads: seq<seq<byte>>, pcr: int) {
    && (forall k :: 0 <= k < |payloads| - 1 ==> |payloads[k]| == Room(k == 0 && pcr != 0))
    && (payloads != [] ==>
          var last := |payloads| - 1;
          1 <= |payloads[last]| <= Room(last == 0 && pcr != 0))
  }

  /** Every packet is full. */
  ghost predicate Full(payloads: seq<seq<byte>>, pcr: int) {
    forall k :: 0 <= k < |payloads| ==> |payloads[k]| == Room(k == 0 && pcr != 0)
  }

  lemma FullNext(payloads: seq<seq<byte>>, pcr: int, payload: seq<byte>)
    requires Full(payloads, pcr) && 1 <= |payload| <= Room(payloads == [] && pcr != 0)
    ensures Cut(payloads + [payload], pcr)
    ensures |payload| == Room(payloads == [] && pcr != 0) ==> Full(payloads + [payload], pcr)
  {
  }

  lemma AllStretchedNext(packets: seq<seq<byte>>, payloads: seq<seq<byte>>, pcr: int, was: Option<int>,
                         packet: seq<byte>, payload: seq<byte>, now: Option<int>)
    requires AllStretched(packets, payloads, pcr, was) && (packets != [] ==> now == was)
    requires Stretched(packet, |payload|, packets == [] && pcr != 0, now)
    ensures AllStretched(packets + [packet], payloads + [payload], pcr, now)
  {
    hide Stretched;
  }

  lemma CarryNext(packets: seq<seq<byte>>, pid: nat, key: bool, counter: nat, payloads: seq<seq<byte>>,
                  packet: seq<byte>, payload: seq<byte>)
    requires Carry(packets, pid, key, counter, payloads)
    requires IsPacket(packet, pid, packets == [], packets == [] && key, counter + |packets|, payload)
    ensures Carry(packets + [packet], pid, key, counter, payloads + [payload])
  {
    hide IsPacket;
  }

  class TSWriter {
    var ContinuityCounter: nat
    const tshdr: array<byte>
    ghost const pid: nat
    ghost var clock: Option<int>

    constructor (pid: u16)
      ensures Valid() && this.pid == pid % 0x2000 && ContinuityCounter == 0 && fresh(tshdr)
      ensures clock == None
    {
      var h := new byte[PACKET](i => 0xff);
      h[0], h[1], h[2], h[3], h[4], h[5] := SYNC, pid % 0x2000 / 0x100, pid % 0x100, 0, 0, 0;
      tshdr := h;
      PidBytes(pid);
      this.pid := pid % 0x2000;
      ContinuityCounter, clock := 0, None;
      new;
      assert forall i :: 6 <= i < PACKET ==> tshdr[i] == 0xff;
      assert tshdr[6..] == Fillers(None);
    }

    ghost predicate Valid()
      reads this, tshdr
    {
      && tshdr.Length == PACKET && tshdr[0] == SYNC
      && PidOf(tshdr[1], tshdr[2]) == pid
      && tshdr[6..] == Fillers(clock)
    }

    /** Fills the fixed part of the next header and returns its length before any stuffing. */
    method BeginPacket(first: bool, pcr: int, sync: bool) returns (hdrlen: nat)
      requires Valid()
      modifies `ContinuityCounter, `clock, tshdr
      ensures Valid() && ContinuityCounter == old(ContinuityCounter) + 1
      ensures clock == if first && pcr != 0 then Some(pcr) else old(clock)
      ensures hdrlen == if first && pcr != 0 then 12 else 6
      ensures tshdr[1] / 0x40 % 2 == (if first then 1 else 0) && tshdr[3] == 0x30 + old(ContinuityCounter) % 16
      ensures tshdr[5] == (if first && sync then 0x40 else 0) + (if first && pcr != 0 then 0x10 else 0)
    {
      hide PidOf, TimeToPCR, Fillers, BE48;
      StartBit(tshdr[1], tshdr[2]);
      tshdr[1] := tshdr[1] % 0x20;
      tshdr[3] := ContinuityCounter % 16 + 0x30;
      tshdr[5] := 0;
      hdrlen := 6;
      ContinuityCounter := ContinuityCounter + 1;
      if first {
        tshdr[1] := 0x40 + tshdr[1];
        if pcr != 0 {
          hdrlen := hdrlen + 6;
          tshdr[5] := 0x10;
          PutPCR(BE48(TimeToPCR(pcr)));
          NewClock(old(tshdr[..]), tshdr[..], clock, pcr);
          clock := Some(pcr);
        }
        if sync {
          tshdr[5] := 0x40 + tshdr[5];
        }
      }
    }

    static lemma NewClock(was: seq<byte>, now: seq<byte>, clock: Option<int>, pcr: int)
      requires |was| == |now| == PACKET && was[6..] == Fillers(clock)
      requires now[6..12] == BE48(TimeToPCR(pcr)) && now[12..] == was[12..]
      ensures now[6..] == Fillers(Some(pcr))
    {
      hide BE48, TimeToPCR;
      assert was[12..] == was[6..][6..] == seq(PACKET - 12, _ => 0xff);
      assert now[6..] == now[6..12] + now[12..];
    }

    method PutPCR(b: seq<byte>)
      requires |b| == 6 && tshdr.Length == PACKET
      modifies tshdr
      ensures tshdr[..] == old(tshdr[..6]) + b + old(tshdr[12..])
    {
      tshdr[6], tshdr[7], tshdr[8], tshdr[9], tshdr[10], tshdr[11] := b[0], b[1], b[2], b[3], b[4], b[5];
    }

    /** Writes one packet holding the data from writepos on, as much as fits, and template bytes after the last
        data when the data is to be padded. */
    method WriteOne(datav: seq<seq<byte>>, writev: array<seq<byte>>, writepos: nat, pcr: int, sync: bool, paddata: bool)
      returns (packet: seq<byte>, end: nat, ghost pad: seq<byte>)
      requires Valid() && writepos < VecLen(datav) && writev.Length == |datav|
      modifies `ContinuityCounter, `clock, tshdr, writev
      ensures Valid() && ContinuityCounter == old(ContinuityCounter) + 1
      ensures clock == if writepos == 0 && pcr != 0 then Some(pcr) else old(clock)
      ensures writepos < end <= VecLen(datav)
      ensures end - writepos <= Room(writepos == 0 && pcr != 0)
      ensures end < VecLen(datav) || paddata ==> end - writepos + |pad| == Room(writepos == 0 && pcr != 0)
      ensures IsPacket(packet, pid, writepos == 0, writepos == 0 && sync, old(ContinuityCounter),
                       Flatten(datav)[writepos..end] + pad)
      ensures Stretched(packet, |Flatten(datav)[writepos..end] + pad|, writepos == 0 && pcr != 0, clock)
      ensures |pad| <= PACKET && pad == tshdr[PACKET - |pad|..] && (pad != [] ==> paddata && end == VecLen(datav))
    {
      hide Flatten, VecLen, IsPacket, ParseTSHeader, PidOf, TimeToPCR, Stretched, BE48, Fillers;
      var hdrlen := BeginPacket(writepos == 0, pcr, sync);
      var datavlen := VecLen(datav);
      var padtail := 0;
      end := writepos + PACKET - hdrlen;
      if end > datavlen {
        if paddata {
          padtail := end - datavlen;
        } else {
          hdrlen := hdrlen + (end - datavlen);
        }
        end := datavlen;
      }
      var n := VecSliceTo(datav, writev, writepos, end);
      tshdr[4] := hdrlen - 5;
      ghost var h := tshdr[..hdrlen];
      packet := WritePieces(tshdr[..hdrlen], writev, n);
      pad := tshdr[PACKET - padtail..];
      if padtail > 0 {
        packet := packet + tshdr[PACKET - padtail..PACKET];
      }
      HeaderStretches(packet, h, Flatten(datav)[writepos..end] + pad, tshdr[..], writepos == 0 && pcr != 0, clock);
      PacketParses(packet, h, Flatten(datav)[writepos..end] + pad, pid, writepos == 0, writepos == 0 && sync,
                   old(ContinuityCounter));
    }

    static lemma HeaderStretches(packet: seq<byte>, h: seq<byte>, payload: seq<byte>, template: seq<byte>,
                                 clocked: bool, clock: Option<int>)
      requires packet == h + payload && h <= template && |packet| == |template| == PACKET
      requires |payload| <= Room(clocked) && template[6..] == Fillers(clock)
      requires h[4] as int + 5 == |h| && h[5] / 0x10 % 2 == (if clocked then 1 else 0)
      ensures Stretched(packet, |payload|, clocked, clock)
    {
      hide Fillers;
      assert packet[6..|h|] == h[6..] == template[6..][..|h| - 6];
    }

    static lemma PacketParses(packet: seq<byte>, h: seq<byte>, payload: seq<byte>,
                              pid: nat, start: bool, key: bool, counter: nat)
      requires packet == h + payload && 6 <= |h| && |packet| == PACKET
      requires h[0] == SYNC && PidOf(h[1], h[2]) == pid && h[1] / 0x40 % 2 == (if start then 1 else 0)
      requires h[3] == 0x30 + counter % 16 && h[4] == |h| - 5 && h[5] / 0x40 % 2 == (if key then 1 else 0)
      ensures IsPacket(packet, pid, start, key, counter, payload)
    {
      assert packet[|h|..] == payload;
    }

    method WritePieces(start: seq<byte>, writev: array<seq<byte>>, n: nat) returns (b: seq<byte>)
      requires n <= writev.Length
      ensures b == start + Flatten(writev[..n])
    {
      b := start;
      for i := 0 to n
        invariant b == start + Flatten(writev[..i])
      {
        assert writev[..i + 1] == writev[..i] + [writev[i]];
        FlattenSnoc(writev[..i], writev[i]);
        b := b + writev[i];
      }
    }

    /** Writes the vector as packets. Without padding of the data the last header is stretched with stuffing, so
        every packet has exactly 188 bytes and the payloads are the vector's bytes in order; with padding the
        last payload is followed by template bytes. */
    method WritePackets(datav: seq<seq<byte>>, pcr: int, sync: bool, paddata: bool)
      returns (out: seq<byte>, packets: seq<seq<byte>>, ghost payloads: seq<seq<byte>>)
      requires Valid()
      modifies `ContinuityCounter, `clock, tshdr
      ensures Valid() && out == Flatten(packets)
      ensures ContinuityCounter == old(ContinuityCounter) + |packets|
      ensures Carry(packets, pid, sync, old(ContinuityCounter), payloads)
      ensures Flatten(datav) <= Flatten(payloads)
      ensures !paddata ==> Flatten(payloads) == Flatten(datav)
      ensures packets == [] <==> Flatten(datav) == []
      ensures packets != [] ==> |payloads[0]| >= Room(pcr != 0) || Flatten(datav) <= payloads[0]
      ensures clock == if packets == [] || pcr == 0 then old(clock) else Some(pcr)
      ensures AllStretched(packets, payloads, pcr, clock)
      ensures Cut(payloads, pcr) && (paddata ==> Full(payloads, pcr))
    {
      hide Flatten, VecLen, IsPacket, Stretched, AllStretched, Carry, BE48, TimeToPCR, Fillers, Cut, Full;
      var datavlen := VecLen(datav);
      var writev := new seq<byte>[|datav|];
      var writepos := 0;
      ghost var pad := [];
      out, packets, payloads := [], [], [];
      Nothing();
      NothingCarried(pid, sync, ContinuityCounter, pcr, clock);
      while writepos < datavlen
        invariant 0 <= writepos <= datavlen && Valid() && writev.Length == |datav| && fresh(writev)
        invariant out == Flatten(packets) && ContinuityCounter == old(ContinuityCounter) + |packets|
        invariant |packets| == |payloads|
        invariant Carry(packets, pid, sync, old(ContinuityCounter), payloads)
        invariant packets == [] <==> writepos == 0
        invariant Flatten(payloads) == Flatten(datav)[..writepos] + pad
        invariant pad != [] ==> paddata && writepos == datavlen
        invariant packets != [] ==> |payloads[0]| >= Room(pcr != 0) || Flatten(datav) <= payloads[0]
        invariant clock == if packets == [] || pcr == 0 then old(clock) else Some(pcr)
        invariant AllStretched(packets, payloads, pcr, clock)
        invariant Cut(payloads, pcr) && (paddata || writepos < datavlen ==> Full(payloads, pcr))
      {
        ghost var was := clock;
        var packet, end;
        packet, end, pad := WriteOne(datav, writev, writepos, pcr, sync, paddata);
        ghost var payload := Flatten(datav)[writepos..end] + pad;
        AllStretchedNext(packets, payloads, pcr, was, packet, payload, clock);
        FullNext(payloads, pcr, payload);
        CarryNext(packets, pid, sync, old(ContinuityCounter), payloads, packet, payload);
        FlattenSnoc(packets, packet);
        PayloadAdded(payloads, Flatten(datav), writepos, end, pad);
        packets, payloads, out := packets + [packet], payloads + [payload], out + packet;
        writepos := end;
      }
      assert Flatten(datav)[..datavlen] == Flatten(datav);
    }
  }

  lemma PayloadAdded(payloads: seq<seq<byte>>, all: seq<byte>, from: nat, end: nat, pad: seq<byte>)
    requires from <= end <= |all| && Flatten(payloads) == all[..from]
    ensures Flatten(payloads + [all[from..end] + pad]) == all[..end] + pad
  {
    hide Flatten;
    FlattenSnoc(payloads, all[from..end] + pad);
    assert all[..end] == all[..from] + all[from..end];
  }

  lemma NothingCarried(pid: nat, key: bool, counter: nat, pcr: int, clock: Option<int>)
    ensures Carry([], pid, key, counter, []) && AllStretched([], [], pcr, clock)
    ensures Cut([], pcr) && Full([], pcr)
  {
  }

  lemma Nothing()
    ensures Flatten<byte>([]) == []
  {
  }
}
