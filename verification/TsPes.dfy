/** Packetised elementary stream headers and their 33-bit clock (format/ts/tsio, section 2.4.3.6 of ISO/IEC 13818-1). */
module TsPes {
  import opened Bytes
  import opened Bits
  import opened Buffers

  const PTS_HZ := 90_000
  const WRAP := 0x2_0000_0000

  type u40 = x: int | 0 <= x < 0x100_0000_0000

  /** Ticks of the 90 kHz clock, as far as the 33 bits of the field hold them. The product wraps at 64 bits. */
  function Ticks(tm: int): (ts: nat)
    ensures ts < WRAP
  {
    ToU64(Quot(ToI64(tm * PTS_HZ), SECOND)) % WRAP
  }

  /** The three pieces of the clock, each followed by a marker bit; lead goes into the top four bits. */
  function StampField(ts: nat, lead: nat): (v: u40)
    requires ts < WRAP && lead < 16
  {
    lead * 0x10_0000_0000 + ts / 0x4000_0000 * 0x2_0000_0000 + 0x1_0000_0000
    + ts / 0x8000 % 0x8000 * 0x2_0000 + 0x1_0000 + ts % 0x8000 * 2 + 1
  }

  function StampOf(v: u40): (ts: nat)
    ensures ts < WRAP
  {
    v / 0x2_0000_0000 % 8 * 0x4000_0000 + v / 0x2_0000 % 0x8000 * 0x8000 + v / 2 % 0x8000
  }

  /** The marker bits and the lead do not disturb the clock. */
  lemma StampRecovered(ts: nat, lead: nat)
    requires ts < WRAP && lead < 16
    ensures StampOf(StampField(ts, lead)) == ts
  {
    var a, b, c := ts / 0x4000_0000, ts / 0x8000 % 0x8000, ts % 0x8000;
    ThreePieces(ts);
    var h := lead * 8 + a;
    var m := h * 0x1_0000 + 0x8000 + b;
    var v := StampField(ts, lead);
    assert v == 0x2_0000_0000 * h + (0x1_0000_0000 + b * 0x2_0000 + 0x1_0000 + c * 2 + 1);
    RemainderOf(0x2_0000_0000, h, 0x1_0000_0000 + b * 0x2_0000 + 0x1_0000 + c * 2 + 1);
    assert v == 0x2_0000 * m + (0x1_0000 + c * 2 + 1);
    RemainderOf(0x2_0000, m, 0x1_0000 + c * 2 + 1);
    RemainderOf(2, m * 0x1_0000 + 0x8000 + c, 1);
    RemainderOf(8, lead, a);
    RemainderOf(0x8000, 2 * h + 1, b);
    RemainderOf(0x8000, 2 * m + 1, c);
  }

  lemma ThreePieces(ts: nat)
    requires ts < WRAP
    ensures ts / 0x4000_0000 < 8
    ensures ts == ts / 0x4000_0000 * 0x4000_0000 + ts / 0x8000 % 0x8000 * 0x8000 + ts % 0x8000
  {
    var q := ts / 0x8000;
    assert q / 0x8000 == ts / 0x4000_0000;
    assert q == q / 0x8000 * 0x8000 + q % 0x8000;
  }

  /** Ticks as time; the quotient is cut off. */
  function TimeOf(ts: nat): int { ts * SECOND / PTS_HZ }

  /** The time a reader finds for a time that was written. */
  function OnClock(tm: int): int { TimeOf(Ticks(tm)) }

  lemma TicksExact(tm: int)
    requires 0 <= tm && tm * PTS_HZ < TWO63
    ensures Ticks(tm) == tm * 9 / 100_000 % WRAP
  {
    assert ToI64(tm * PTS_HZ) == tm * PTS_HZ;
    assert tm * PTS_HZ / SECOND == tm * 9 / 100_000;
  }

  /** A time is read back less than one tick early exactly as long as the clock has not wrapped, about 26.5 hours. */
  lemma ClockTruncatesIff(tm: int)
    requires 0 <= tm && tm * PTS_HZ < TWO63
    ensures 0 <= tm - OnClock(tm) < 11_112 <==> tm * 9 / 100_000 < WRAP
  {
    TicksExact(tm);
    var q := tm * 9 / 100_000;
    assert 100_000 * q <= tm * 9 < 100_000 * q + 100_000;
    var ts := Ticks(tm);
    assert ts * SECOND / PTS_HZ == ts * 100_000 / 9;
    var r := ts * 100_000 / 9;
    assert 9 * r <= ts * 100_000 < 9 * r + 9;
    if q < WRAP {
      assert ts == q;
    } else {
      assert ts < WRAP <= q;
      assert ts == q - q / WRAP * WRAP && q / WRAP >= 1;
      assert q - ts >= WRAP;
    }
  }

  /** Writing a time that was read back keeps its tick only for every ninth tick; otherwise it drops to the tick
      before, so each further copy of a stream is one tick earlier. */
  lemma CopyLosesATick(ts: nat)
    requires ts < WRAP
    ensures Ticks(TimeOf(ts)) == if ts % 9 == 0 then ts else ts - 1
  {
    hide TimeOf, Ticks;
    var t := TimeOf(ts);
    TimeIs(ts);
    TicksExact(t);
    Inside(ts, t);
    if ts % 9 == 0 {
      Ninths(ts);
    } else {
      NotDivisible(ts);
      TickBefore(ts, t);
    }
  }

  lemma Inside(ts: nat, t: nat)
    requires ts < WRAP && 9 * t <= ts * 100_000 < 9 * t + 9
    ensures t * PTS_HZ < TWO63 && t * 9 / 100_000 < WRAP && t * 9 / 100_000 % WRAP == t * 9 / 100_000
  {
  }

  lemma TimeIs(ts: nat)
    requires ts < WRAP
    ensures var t := TimeOf(ts); t == ts * 100_000 / 9 && 9 * t <= ts * 100_000 < 9 * t + 9
  {
  }

  lemma Ninths(ts: nat)
    requires ts % 9 == 0
    ensures ts * 100_000 / 9 == ts / 9 * 100_000
  {
  }

  lemma TickBefore(ts: nat, t: nat)
    requires 9 * t <= ts * 100_000 < 9 * t + 9 && ts * 100_000 % 9 != 0
    ensures 9 * t / 100_000 == ts - 1
  {
    assert 9 * t < ts * 100_000;
  }

  lemma NotDivisible(ts: nat)
    requires ts % 9 != 0
    ensures ts * 100_000 % 9 != 0
  {
    var q, r := ts / 9, ts % 9;
    assert ts == 9 * q + r;
    assert ts * 100_000 == 9 * (q * 100_000 + r * 11_111) + r;
  }

  function BE40(v: u40): (b: seq<byte>)
    ensures |b| == 5
  {
    [v / TWO32] + BE32(v % TWO32)
  }

  function U40BE(b: seq<byte>): u40
    requires |b| >= 5
  {
    b[0] as int * TWO32 + U32BE(b[1..])
  }

  lemma ReadBack40(v: u40, rest: seq<byte>)
    ensures U40BE(BE40(v) + rest) == v
  {
    assert (BE40(v) + rest)[1..] == BE32(v % TWO32) + rest;
    ReadBack32(v % TWO32, rest);
  }

  datatype Header = Header(hdrlen: nat, streamid: byte, datalen: int, pts: int, dts: int)

  const NOTHING := Header(0, 0, 0, 0, 0)

  /** How many bytes of clock fields a header carries: a zero time is left out, and decoding time needs a
      presentation time. */
  function StampBytes(pts: int, dts: int): (n: nat) {
    if pts == 0 then 0 else if dts == 0 then 5 else 10
  }

  /** The packet length field: zero for an unbounded payload, and 16 bits wide. */
  function LengthField(datalen: int, n: nat): u16 {
    if datalen >= 0 then ToU16(datalen + n + 3) else 0
  }

  function FlagsOf(n: nat): byte { if n == 0 then 0 else if n == 5 then 0x80 else 0xc0 }

  function Stamp(tm: int, lead: nat): (b: seq<byte>)
    requires lead < 16
    ensures |b| == 5
  {
    BE40(StampField(Ticks(tm), lead))
  }

  function Stamps(pts: int, dts: int): (b: seq<byte>)
    ensures |b| == StampBytes(pts, dts)
  {
    if pts == 0 then [] else if dts == 0 then Stamp(pts, 2) else Stamp(pts, 3) + Stamp(dts, 1)
  }

  function Fixed(streamid: byte, pktlen: u16, n: nat): (b: seq<byte>)
    requires n <= 10
    ensures |b| == 9
  {
    [0, 0, 1, streamid] + BE16(pktlen) + [0x81, FlagsOf(n), n]
  }

  /** A header as its bytes. */
  function Layout(streamid: byte, datalen: int, pts: int, dts: int): (b: seq<byte>)
    ensures |b| == 9 + StampBytes(pts, dts)
  {
    var n := StampBytes(pts, dts);
    Fixed(streamid, LengthField(datalen, n), n) + Stamps(pts, dts)
  }

  /** Writes a header at the front of the buffer and returns its length. */
  method FillPESHeader(h: array<byte>, streamid: byte, datalen: int, pts: int, dts: int) returns (n: nat)
    requires h.Length >= 19
    modifies h
    ensures n == |Layout(streamid, datalen, pts, dts)| && Wrote(h, old(h[..]), Layout(streamid, datalen, pts, dts))
  {
    hide Stamp, Fixed, Wrote;
    ghost var orig := h[..];
    n := 0;
    var flags: byte := 0;
    if pts != 0 {
      flags := 0x80;
      n := n + 5;
      if dts != 0 {
        flags := 0xc0;
        n := n + 5;
      }
    }
    var pktlen: u16 := 0;
    if datalen >= 0 {
      pktlen := ToU16(datalen + n + 3);
    }
    WroteNothing(h);
    FixedIs(streamid, pktlen, flags, n);
    Put(h, 0, [0, 0, 1, streamid] + BE16(pktlen) + [0x81, flags, n], orig, []);
    ghost var fixed := Fixed(streamid, pktlen, n);
    assert [] + fixed == fixed == fixed + [];
    if flags == 0xc0 {
      Put(h, 9, Stamp(pts, 3), orig, fixed);
      Put(h, 14, Stamp(dts, 1), orig, fixed + Stamp(pts, 3));
      Joins(fixed, Stamp(pts, 3), Stamp(dts, 1));
    } else if flags == 0x80 {
      Put(h, 9, Stamp(pts, 2), orig, fixed);
    }
    n := n + 9;
  }

  lemma FixedIs(streamid: byte, pktlen: u16, flags: byte, n: nat)
    requires n <= 10 && flags == FlagsOf(n)
    ensures Fixed(streamid, pktlen, n) == [0, 0, 1, streamid] + BE16(pktlen) + [0x81, flags, n]
  {
  }

  /** The header at the front of a payload, and whether it could be read. A payload too short for the fields, which
      the original would index out of bounds, is refused as well. */
  function ParsePESHeader(h: seq<byte>): (Header, bool) {
    if |h| < 9 || h[0] != 0 || h[1] != 0 || h[2] != 1 then (NOTHING, false)
    else
      var hdrlen: nat := h[8] as int + 9;
      var pktlen: int := U16BE(h[4..6]);
      var datalen := if pktlen > 0 then pktlen - (h[8] as int + 3) else 0;
      var bare := Header(hdrlen, h[3], datalen, 0, 0);
      if h[7] / 0x80 % 2 == 0 then (bare, true)
      else if |h| < 14 then (bare, false)
      else
        var timed := bare.(pts := TimeOf(StampOf(U40BE(h[9..14]))));
        if h[7] / 0x40 % 2 == 0 then (timed, true)
        else if |h| < 19 then (timed, false)
        else (timed.(dts := TimeOf(StampOf(U40BE(h[14..19])))), true)
  }

  /** The payload length a reader takes from the length field: the written one, up to the wrap at 16 bits. */
  function LengthRead(datalen: int, n: nat): int {
    if LengthField(datalen, n) == 0 then 0 else LengthField(datalen, n) - n - 3
  }

  /** A header reads back as it was written: times on the clock's grid, and the length as far as 16 bits go. */
  lemma HeaderReadsBack(streamid: byte, datalen: int, pts: int, dts: int, rest: seq<byte>)
    ensures var n := StampBytes(pts, dts);
      ParsePESHeader(Layout(streamid, datalen, pts, dts) + rest) ==
        (Header(9 + n, streamid, LengthRead(datalen, n), if n == 0 then 0 else OnClock(pts), if n
            == 10 then OnClock(dts) else 0), true)
  {
    hide Stamp, StampOf, U40BE, TimeOf, OnClock, LengthField;
    var n := StampBytes(pts, dts);
    var h := Layout(streamid, datalen, pts, dts) + rest;
    assert h[9..] == Stamps(pts, dts) + rest;
    assert h[4..6] == BE16(LengthField(datalen, n)) + [];
    ReadBack16(LengthField(datalen, n), []);
    if n == 5 {
      OneStamp(h, pts, 2, 9, rest);
    } else if n == 10 {
      Joins(Stamp(pts, 3), Stamp(dts, 1), rest);
      OneStamp(h, pts, 3, 9, Stamp(dts, 1) + rest);
      assert h[14..] == Stamp(dts, 1) + rest;
      OneStamp(h, dts, 1, 14, rest);
    }
  }

  lemma OneStamp(h: seq<byte>, tm: int, lead: nat, at: nat, rest: seq<byte>)
    requires lead < 16 && at <= |h| && h[at..] == Stamp(tm, lead) + rest
    ensures at + 5 <= |h| && TimeOf(StampOf(U40BE(h[at..at + 5]))) == OnClock(tm)
  {
    hide StampField, StampOf, Ticks, BE40, U40BE, TimeOf;
    var v := StampField(Ticks(tm), lead);
    assert h[at..at + 5] == h[at..][..5] == BE40(v) + [];
    ReadBack40(v, []);
    StampRecovered(Ticks(tm), lead);
  }

  /** What the reader's length check makes of a payload of the announced length: the allocation fails for a negative
      length, and any length but zero must be met exactly. */
  predicate LengthAccepted(read: int, actual: nat) {
    read == 0 || read == actual
  }

  /** A bounded payload passes the check if and only if its length field did not wrap, or wrapped to where no check
      is made. */
  lemma LengthAcceptedIff(datalen: nat, pts: int, dts: int)
    ensures var n := StampBytes(pts, dts);
      LengthAccepted(LengthRead(datalen, n), datalen) <==>
        (datalen + n + 3 < 0x1_0000 || (datalen + n + 3) % 0x1_0000 == 0 || datalen % 0x1_0000 == 0)
  {
    var n := StampBytes(pts, dts);
    var x := datalen + n + 3;
    assert x == x / 0x1_0000 * 0x1_0000 + x % 0x1_0000;
    if x % 0x1_0000 == n + 3 {
      assert datalen == x / 0x1_0000 * 0x1_0000;
    }
    if datalen % 0x1_0000 == 0 {
      assert x == datalen / 0x1_0000 * 0x1_0000 + (n + 3);
    }
  }
}
