/** What a standard reader finds among the stuffing of the packets (sections 2.4.3.4 and 2.4.3.5 of ISO/IEC 13818-1),
    where the writer's header template keeps the last clock reference (format/ts/tsio). */
module TsStuffing {
  import opened Bytes
  import opened TsPackets

  predicate AllOnes(b: seq<byte>) { forall i :: 0 <= i < |b| ==> b[i] == 0xff }

  /** What stands in a packet's header behind its flags and its clock reference, if it is flagged to have one. */
  function StuffingOf(packet: seq<byte>): seq<byte>
    requires |packet| == PACKET
  {
    var from, to := if packet[5] / 0x10 % 2 == 1 then 12 else 6, packet[4] as int + 5;
    if from <= to <= PACKET then packet[from..to] else []
  }

  const POW48 := 0x1_0000_0000_0000

  /** One more than the largest number of six bytes of which the first k are zero. */
  function Below(k: nat): nat
    requires k <= 6
  {
    [POW48, 0x100_0000_0000, 0x1_0000_0000, 0x100_0000, 0x1_0000, 0x100, 1][k]
  }

  /** The times whose clock reference begins with k ones bytes: none does with all six. */
  predicate OnesLead(tm: int, k: nat) {
    k < 6 && TimeToPCR(tm) % POW48 + Below(k) >= POW48
  }

  /** Bytes written most significant first begin with k ones bytes if and only if they are large enough. */
  lemma LeadingOnes(b: seq<byte>, k: nat)
    requires k <= |b| == 6
    ensures AllOnes(b[..k]) <==> U16BE(b) as int * TWO32 + U32BE(b[2..]) + Below(k) >= POW48
  {
    FirstOnes(b, k);
  }

  lemma FirstOnes(b: seq<byte>, k: nat)
    requires k <= |b| == 6
    ensures AllOnes(b[..k]) <==>
      && (k > 0 ==> b[0] == 0xff) && (k > 1 ==> b[1] == 0xff) && (k > 2 ==> b[2] == 0xff)
      && (k > 3 ==> b[3] == 0xff) && (k > 4 ==> b[4] == 0xff) && (k > 5 ==> b[5] == 0xff)
  {
  }

  /** The six bytes of a clock reference are the low 48 bits of its number. */
  lemma SixBytes(v: u64)
    ensures U16BE(BE48(v)) as int * TWO32 + U32BE(BE48(v)[2..]) == v % POW48
  {
    hide BE16, BE32, U16BE, U32BE;
    var high: u16, low: u32 := v / TWO32 % 0x1_0000, v % TWO32;
    var b := BE48(v);
    ReadBack16(high, BE32(low));
    ReadBack32(low, []);
    assert BE32(low) + [] == BE32(low) == b[2..];
    HighAndLow(v);
  }

  lemma HighAndLow(v: u64)
    ensures v / TWO32 % 0x1_0000 * TWO32 + v % TWO32 == v % POW48
  {
  }

  /** A clock reference is never all ones, as stuffing has to be: its extension stays below 300. */
  lemma ClockIsNoStuffing(tm: int)
    ensures TimeToPCR(tm) % POW48 + 1 < POW48
  {
    var ts := ToU64(Quot(ToI64(tm * PCR_HZ), SECOND));
    NotFull(ts / 300 % 0x2_0000_0000_0000, ts % 300);
  }

  lemma NotFull(base: nat, ext: nat)
    requires ext < 300
    ensures (base * 0x8000 + 0x7e00 + ext) % POW48 != POW48 - 1
  {
    var low := 0x7e00 + ext;
    assert (base * 0x8000 + low) % 0x8000 == low;
  }

  lemma ClockLeads(tm: int, k: nat)
    requires k <= 6
    ensures AllOnes(BE48(TimeToPCR(tm))[..k]) <==> OnesLead(tm, k)
  {
    hide BE48, TimeToPCR, AllOnes, Below;
    SixBytes(TimeToPCR(tm));
    LeadingOnes(BE48(TimeToPCR(tm)), k);
    ClockIsNoStuffing(tm);
    OneBelow();
  }

  lemma OneBelow()
    ensures Below(6) == 1
  {
  }

  function Least(a: nat, b: nat): nat { if a <= b then a else b }

  /** The first bytes behind the flags are ones if no clock reference was written so far, or the last one begins like
      that. */
  lemma FillersAreOnesIff(clock: Option<int>, n: nat)
    requires n <= PACKET - 6
    ensures AllOnes(Fillers(clock)[..n]) <==> clock.None? || OnesLead(clock.value, Least(n, 6))
  {
    hide OnesLead, BE48, TimeToPCR;
    if clock.Some? {
      var b, f, k := BE48(TimeToPCR(clock.value)), Fillers(clock), Least(n, 6);
      ClockLeads(clock.value, k);
      assert f[..n] == b[..k] + f[6..][..n - k];
      assert AllOnes(f[6..][..n - k]);
      BothOnes(b[..k], f[6..][..n - k]);
    }
  }

  lemma BothOnes(a: seq<byte>, b: seq<byte>)
    ensures AllOnes(a + b) <==> AllOnes(a) && AllOnes(b)
  {
    assert forall i :: 0 <= i < |a| ==> (a + b)[i] == a[i];
    assert forall i :: 0 <= i < |b| ==> (a + b)[|a| + i] == b[i];
  }

  /** The stuffing of a packet that carries n bytes is all ones, as the standard demands, if and only if the packet has a
      clock reference of its own, or no earlier one has been written, or its stuffing is shorter than the ones the last
      clock reference begins with. */
  lemma StuffingIsOnesIff(packet: seq<byte>, n: nat, clocked: bool, clock: Option<int>)
    requires Stretched(packet, n, clocked, clock)
    ensures AllOnes(StuffingOf(packet)) <==>
      clocked || clock.None? || OnesLead(clock.value, Least(PACKET - n - 6, 6))
  {
    hide Fillers, OnesLead;
    var behind := packet[6..PACKET - n];
    if clocked {
      assert StuffingOf(packet) == behind[6..];
      OnesBehindClock(clock, PACKET - n - 6);
    } else {
      FillersAreOnesIff(clock, PACKET - n - 6);
    }
  }

  lemma OnesBehindClock(clock: Option<int>, n: nat)
    requires 6 <= n <= PACKET - 6
    ensures AllOnes(Fillers(clock)[..n][6..])
  {
  }

  /** A header of 12 bytes or more without a clock reference shows the last one written among its stuffing; so its
      stuffing is right if and only if there was none. */
  lemma LongStuffingIsOnesIff(packet: seq<byte>, n: nat, clock: Option<int>)
    requires Stretched(packet, n, false, clock) && n <= Room(true)
    ensures |packet| == PACKET && (AllOnes(StuffingOf(packet)) <==> clock == None)
    ensures clock.Some? ==> BE48(TimeToPCR(clock.value)) <= StuffingOf(packet)
  {
    hide TimeToPCR, BE48;
    StuffingIsOnesIff(packet, n, false, clock);
    if clock.Some? {
      assert packet[6..PACKET - n][..6] == BE48(TimeToPCR(clock.value));
    }
  }

  /** How many bytes are missing in the last packet of a payload of so many bytes. */
  function Missing(length: nat, pcr: int): nat {
    var first := Room(pcr != 0);
    if length <= first then first - length else (182 - (length - first) % 182) % 182
  }

  lemma {:induction false} FullLength(payloads: seq<seq<byte>>, pcr: int)
    requires payloads != [] && Full(payloads, pcr)
    ensures |Flatten(payloads)| == Room(pcr != 0) + 182 * (|payloads| - 1)
  {
    hide Flatten;
    var n := |payloads| - 1;
    assert payloads == payloads[..n] + [payloads[n]];
    FlattenSnoc(payloads[..n], payloads[n]);
    if n == 0 {
      Nothing();
    } else {
      FullLength(payloads[..n], pcr);
    }
  }

  lemma LastMisses(payloads: seq<seq<byte>>, pcr: int)
    requires payloads != [] && Cut(payloads, pcr)
    ensures var n := |payloads| - 1; var length := |Flatten(payloads)|;
      && length > 0 && Missing(length, pcr) == Room(n == 0 && pcr != 0) - |payloads[n]|
      && (n == 0 <==> length <= Room(pcr != 0))
  {
    hide Flatten;
    var n := |payloads| - 1;
    assert payloads == payloads[..n] + [payloads[n]];
    FlattenSnoc(payloads[..n], payloads[n]);
    if n == 0 {
      Nothing();
    } else {
      assert Full(payloads[..n], pcr);
      FullLength(payloads[..n], pcr);
      Modulo(n - 1, |payloads[n]|);
    }
  }

  lemma Modulo(n: nat, last: nat)
    requires 1 <= last <= 182
    ensures (182 - (182 * n + last) % 182) % 182 == 182 - last
  {
    assert (182 * n + last) % 182 == last % 182;
  }

  predicate ProperlyStuffed(packet: seq<byte>) { |packet| == PACKET && AllOnes(StuffingOf(packet)) }

  /** The packets of a payload all have proper stuffing if and only if it fits into one packet that has a clock reference,
      or no clock reference has been written by then, or so few bytes are missing in the last packet that the ones at the
      beginning of the last clock reference do. */
  lemma RunIsStuffedIff(packets: seq<seq<byte>>, payloads: seq<seq<byte>>, pcr: int, clock: Option<int>)
    requires AllStretched(packets, payloads, pcr, clock) && Cut(payloads, pcr)
    ensures var length := |Flatten(payloads)|;
      (forall p <- packets :: ProperlyStuffed(p)) <==>
        length == 0 || (pcr != 0 && length <= Room(true)) || clock.None?
        || OnesLead(clock.value, Least(Missing(length, pcr), 6))
  {
    hide Flatten, AllOnes, StuffingOf, OnesLead, Missing, ProperlyStuffed, Stretched;
    Nothing();
    if packets != [] {
      LastMisses(payloads, pcr);
      forall k | 0 <= k < |packets|
        ensures ProperlyStuffed(packets[k]) <==>
          (k == 0 && pcr != 0) || clock.None?
          || OnesLead(clock.value, Least(Room(k == 0 && pcr != 0) - |payloads[k]|, 6))
      {
        OneIsStuffedIff(packets[k], |payloads[k]|, k == 0 && pcr != 0, clock);
      }
      if clock.Some? {
        NoneLead(clock.value);
      }
      assert packets[|packets| - 1] in packets;
    }
  }

  lemma OneIsStuffedIff(packet: seq<byte>, n: nat, clocked: bool, clock: Option<int>)
    requires Stretched(packet, n, clocked, clock)
    ensures ProperlyStuffed(packet) <==>
      clocked || clock.None? || OnesLead(clock.value, Least(Room(clocked) - n, 6))
  {
    hide OnesLead, StuffingOf, AllOnes;
    StuffingIsOnesIff(packet, n, clocked, clock);
  }

  lemma NoneLead(tm: int)
    ensures OnesLead(tm, 0)
  {
    hide TimeToPCR;
  }

  /** A key frame of 177 bytes at one second: its second packet carries a single byte, and its stuffing begins with the
      clock reference of the first. */
  method ShowsItsClock() returns (packets: seq<seq<byte>>)
    ensures exists p <- packets :: |p| == PACKET && BE48(TimeToPCR(SECOND)) <= StuffingOf(p) && !AllOnes(StuffingOf(p))
  {
    hide Flatten, TimeToPCR, BE48, StuffingOf, AllOnes, Stretched, Carry;
    var tsw := new TSWriter(0x100);
    var data := seq(177, _ => 7);
    Single(data);
    var out;
    ghost var payloads;
    out, packets, payloads := tsw.WritePackets([data], SECOND, true, false);
    LastMisses(payloads, SECOND);
    var last := |packets| - 1;
    LongStuffingIsOnesIff(packets[last], |payloads[last]|, Some(SECOND));
    assert packets[last] in packets;
  }

  lemma Single(data: seq<byte>)
    ensures Flatten([data]) == data
  {
  }
}
