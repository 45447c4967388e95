/** Program specific information: sections with their checksum, association tables and program maps
    (format/ts/tsio, section 2.4.4 of ISO/IEC 13818-1). */
module Psi {
  import opened Bytes
  import opened Buffers
  import opened ByteBits
  import opened Checksum

  function AllBits(b: seq<byte>): (r: seq<bv8>)
    ensures |r| == |b|
  {
    seq(|b|, i requires 0 <= i < |b| => ToBits(b[i]))
  }

  function AllBytes(b: seq<bv8>): (r: seq<byte>)
    ensures |r| == |b|
  {
    seq(|b|, i requires 0 <= i < |b| => ToByte(b[i]))
  }

  lemma BitsOfBytes(b: seq<bv8>)
    ensures AllBits(AllBytes(b)) == b
  {
    forall i | 0 <= i < |b|
      ensures ToBits(ToByte(b[i])) == b[i]
    {
      SameBits(b[i]);
    }
  }

  lemma BitsAppend(a: seq<byte>, b: seq<byte>)
    ensures AllBits(a + b) == AllBits(a) + AllBits(b)
  {
    hide ToBits;
  }

  const ALL_ONES: bv32 := 0xffff_ffff

  /** The pointer field and the fixed part of a section. The length field counts what follows it, checksum
      included. */
  function Head(tableid: byte, tableext: u16, datalen: nat): (b: seq<byte>)
    ensures |b| == 9
  {
    [0, tableid] + BE16(ToU16(0xa009 + datalen)) + BE16(tableext) + [0xc1, 0, 0]
  }

  /** A section up to its checksum, without the pointer field. */
  function Section(tableid: byte, tableext: u16, payload: seq<byte>): seq<byte> {
    (Head(tableid, tableext, |payload|) + payload)[1..]
  }

  function Sum(section: seq<byte>): bv32 {
    Crc(ALL_ONES, AllBits(section))
  }

  function SumBytes(crc: bv32): (b: seq<byte>)
    ensures |b| == 4
  {
    AllBytes(Bytes4(crc))
  }

  /** A section behind its pointer field, with its checksum, low byte first. */
  function Filled(tableid: byte, tableext: u16, payload: seq<byte>): (b: seq<byte>)
    ensures |b| == 13 + |payload|
  {
    Head(tableid, tableext, |payload|) + payload + SumBytes(Sum(Section(tableid, tableext, payload)))
  }

  /** Puts header and checksum around a payload that is already in place. */
  method FillPSI(h: array<byte>, tableid: byte, tableext: u16, datalen: nat) returns (n: nat)
    requires h.Length >= 13 + datalen
    modifies h
    ensures n == 13 + datalen && Wrote(h, old(h[..]), Filled(tableid, tableext, old(h[9..9 + datalen])))
  {
    hide Wrote, Crc, AllBits, SumBytes, BE16;
    ghost var orig := h[..];
    ghost var payload := h[9..9 + datalen];
    WroteNothing(h);
    n := 0;
    Put(h, n, [0, tableid] + BE16(ToU16(0xa009 + datalen)) + BE16(tableext) + [0xc1, 0, 0], orig, []);
    n := n + 9;
    hide Head;
    ghost var head := Head(tableid, tableext, datalen);
    assert [] + head == head;
    Skipped(h, orig, head, datalen);
    assert orig[9..9 + datalen] == payload;
    n := n + datalen;
    Written(h, orig, head + payload, 1, n);
    assert (head + payload)[1..n] == Section(tableid, tableext, payload);
    var crc := CalcCRC32(ALL_ONES, AllBits(h[1..n]));
    Put(h, n, SumBytes(crc), orig, head + payload);
    n := n + 4;
  }

  lemma Written(h: array<byte>, orig: seq<byte>, done: seq<byte>, from: nat, to: nat)
    requires Wrote(h, orig, done) && from <= to <= |done|
    ensures to <= h.Length && h[from..to] == done[from..to]
  {
    assert h[from..to] == h[..][from..to];
  }

  /** The checksum register over a filled section, its own checksum included, ends at zero. */
  lemma SectionChecksItself(tableid: byte, tableext: u16, payload: seq<byte>)
    ensures Sum(Filled(tableid, tableext, payload)[1..]) == 0
  {
    hide Crc, Bytes4, AllBits, AllBytes, Head;
    var s := Section(tableid, tableext, payload);
    var c := Bytes4(Sum(s));
    assert Filled(tableid, tableext, payload)[1..] == s + SumBytes(Sum(s));
    BitsAppend(s, AllBytes(c));
    BitsOfBytes(c);
    ChecksItself(ALL_ONES, AllBits(s));
  }

  lemma BitsTell(x: seq<byte>, y: seq<byte>)
    requires AllBits(x) == AllBits(y)
    ensures x == y
  {
    hide ToBits, ToByte;
    forall i | 0 <= i < |x|
      ensures x[i] == y[i]
    {
      assert AllBits(x)[i] == ToBits(x[i]) && AllBits(y)[i] == ToBits(y[i]);
      SameByte(x[i]);
      SameByte(y[i]);
    }
  }

  /** A section with up to four neighbouring bytes changed never passes the check. */
  lemma DamagedSectionFails(before: seq<byte>, x: seq<byte>, y: seq<byte>, after: seq<byte>)
    requires |x| == |y| <= 4 && x != y && Sum(before + x + after) == 0
    ensures Sum(before + y + after) != 0
  {
    hide Crc, AllBits;
    BitsAppend(before + x, after);
    BitsAppend(before, x);
    BitsAppend(before + y, after);
    BitsAppend(before, y);
    if Sum(before + y + after) == 0 {
      BurstsAreDetected(ALL_ONES, AllBits(before), AllBits(x), AllBits(y), AllBits(after));
      BitsTell(x, y);
    }
  }

  datatype Header = Header(tableid: byte, tableext: u16, hdrlen: nat, datalen: nat)

  /** The header of a section behind its pointer field. */
  function ParsePSI(h: seq<byte>): Option<Header> {
    if |h| < 8 then None
    else
      var start: nat := h[0] as int + 1;
      if |h| < start + 12 then None
      else
        var datalen := U16BE(h[start + 1..]) as int % 0x400 - 9;
        if datalen < 0 then None
        else Some(Header(h[start], U16BE(h[start + 3..]), start + 8, datalen))
  }

  /** A filled section is found again exactly if its length fits into ten bits. */
  lemma SectionFoundIff(tableid: byte, tableext: u16, payload: seq<byte>, rest: seq<byte>)
    ensures var h := Filled(tableid, tableext, payload) + rest;
      h[9..9 + |payload|] == payload
    ensures var h := Filled(tableid, tableext, payload) + rest;
      ParsePSI(h) == Some(Header(tableid, tableext, 9, |payload|)) <==> |payload| + 9 < 0x400
  {
    hide SumBytes, Section, Head, ParsePSI, Sum, Crc, AllBits;
    var head, sum := Head(tableid, tableext, |payload|), SumBytes(Sum(Section(tableid, tableext, payload)));
    var tail := payload + sum + rest;
    assert head + payload + sum + rest == head + tail;
    HeadRead(tableid, tableext, |payload|, tail);
    assert (head + payload + sum + rest)[9..9 + |payload|] == payload;
  }

  /** Its header tells its length even if only its first bytes are there. */
  lemma SectionBegins(tableid: byte, tableext: u16, payload: seq<byte>, n: nat)
    requires 13 <= n <= |Filled(tableid, tableext, payload)| && |payload| + 9 < 0x400
    ensures ParsePSI(Filled(tableid, tableext, payload)[..n]) == Some(Header(tableid, tableext, 9, |payload|))
  {
    hide SumBytes, Section, Head, ParsePSI, Sum, Crc, AllBits;
    var head, sum := Head(tableid, tableext, |payload|), SumBytes(Sum(Section(tableid, tableext, payload)));
    assert (head + payload + sum)[..n] == head + (payload + sum)[..n - 9];
    HeadRead(tableid, tableext, |payload|, (payload + sum)[..n - 9]);
  }

  lemma HeadRead(tableid: byte, tableext: u16, datalen: nat, tail: seq<byte>)
    requires |tail| >= 4
    ensures ParsePSI(Head(tableid, tableext, datalen) + tail) ==
      if (9 + datalen) % 0x400 < 9 then None else Some(Header(tableid, tableext, 9, (9 + datalen) % 0x400 - 9))
  {
    hide U16BE, BE16, ToU16;
    var len := ToU16(0xa009 + datalen);
    var h := Head(tableid, tableext, datalen) + tail;
    var after := [0xc1, 0, 0] + tail;
    assert h == [0, tableid] + (BE16(len) + (BE16(tableext) + after));
    assert h[2..] == BE16(len) + (BE16(tableext) + after);
    ReadBack16(len, BE16(tableext) + after);
    assert h[4..] == BE16(tableext) + after;
    ReadBack16(tableext, after);
    LengthKept(datalen);
  }

  lemma LengthKept(datalen: nat)
    ensures ToU16(0xa009 + datalen) % 0x400 == (9 + datalen) % 0x400
  {
    var n := 9 + datalen;
    LowTen(40 * 0x400 + n);
    Remainder(40 * 0x400 + n, 40 + n / 0x400, n % 0x400);
  }

  lemma LowTen(x: nat)
    ensures x % 0x1_0000 % 0x400 == x % 0x400
  {
    var q, a, r := x / 0x1_0000, x / 0x400, x % 0x400;
    assert x == a * 0x400 + r;
    Remainder(x % 0x1_0000, a - q * 0x40, r);
  }

  lemma Remainder(y: nat, k: int, r: nat)
    requires y == k * 0x400 + r && r < 0x400
    ensures y % 0x400 == r
  {
  }

  datatype PatEntry = PatEntry(programNumber: u16, networkPid: u16, programMapPid: u16)

  /** A packet id in 13 bits under three set bits. */
  function PidField(pid: u16): u16 { pid % 0x2000 + 0xe000 }

  function EntryBytes(e: PatEntry): (b: seq<byte>)
    ensures |b| == 4
  {
    BE16(e.programNumber) + BE16(PidField(if e.programNumber == 0 then e.networkPid else e.programMapPid))
  }

  function PatBytes(entries: seq<PatEntry>): (b: seq<byte>)
    ensures |b| == 4 * |entries|
  {
    if entries == [] then [] else EntryBytes(entries[0]) + PatBytes(entries[1..])
  }

  function ReadEntry(b: seq<byte>): PatEntry
    requires |b| >= 4
  {
    var number, pid := U16BE(b), U16BE(b[2..]) % 0x2000;
    if number == 0 then PatEntry(0, pid, 0) else PatEntry(number, 0, pid)
  }

  function ReadPat(b: seq<byte>): Option<seq<PatEntry>> {
    if b == [] then Some([])
    else if |b| < 4 then None
    else
      match ReadPat(b[4..])
      case None => None
      case Some(more) => Some([ReadEntry(b)] + more)
  }

  /** Writes a table at a place in the buffer and returns its length. */
  method MarshalPat(entries: seq<PatEntry>, h: array<byte>, at: nat, ghost orig: seq<byte>, ghost done: seq<byte>)
    returns (n: nat)
    requires Wrote(h, orig, done) && at == |done| && at + 4 * |entries| <= h.Length
    modifies h
    ensures n == 4 * |entries| && Wrote(h, orig, done + PatBytes(entries))
  {
    hide Wrote, PatBytes, BE16;
    n := 0;
    PatSplit(entries, 0, done);
    for i := 0 to |entries|
      invariant n == 4 * i && Wrote(h, orig, done + PatBytes(entries[..i]))
    {
      var e := entries[i];
      PatSplit(entries, i, done);
      ghost var so := done + PatBytes(entries[..i]);
      Put(h, at + n, BE16(e.programNumber), orig, so);
      n := n + 2;
      if e.programNumber == 0 {
        Put(h, at + n, BE16(PidField(e.networkPid)), orig, so + BE16(e.programNumber));
        n := n + 2;
      } else {
        Put(h, at + n, BE16(PidField(e.programMapPid)), orig, so + BE16(e.programNumber));
        n := n + 2;
      }
    }
    assert entries[..|entries|] == entries;
  }

  lemma PatSplit(entries: seq<PatEntry>, i: nat, done: seq<byte>)
    requires i <= |entries|
    ensures i == 0 ==> done + PatBytes(entries[..0]) == done
    ensures i < |entries| ==> (var e := entries[i];
      done + PatBytes(entries[..i + 1]) == done + PatBytes(entries[..i]) + BE16(e.programNumber)
        + BE16(PidField(if e.programNumber == 0 then e.networkPid else e.programMapPid)))
  {
    hide BE16;
    if i < |entries| {
      PatSnoc(entries[..i], entries[i]);
      assert entries[..i + 1] == entries[..i] + [entries[i]];
      var e := entries[i];
      var x, y := BE16(e.programNumber), BE16(PidField(if e.programNumber == 0 then e.networkPid else e.programMapPid));
      assert done + (PatBytes(entries[..i]) + (x + y)) == done + PatBytes(entries[..i]) + x + y;
    }
  }

  lemma {:induction false} PatSnoc(entries: seq<PatEntry>, e: PatEntry)
    ensures PatBytes(entries + [e]) == PatBytes(entries) + EntryBytes(e)
  {
    hide EntryBytes;
    if entries == [] {
      assert [e][1..] == [] && PatBytes([]) == [];
    } else {
      assert (entries + [e])[1..] == entries[1..] + [e];
      PatSnoc(entries[1..], e);
    }
  }

  method UnmarshalPat(b: seq<byte>) returns (entries: seq<PatEntry>, ok: bool)
    ensures ok <==> ReadPat(b).Some?
    ensures ok ==> entries == ReadPat(b).value
  {
    hide ReadEntry;
    entries := [];
    var n := 0;
    assert b[0..] == b;
    while n < |b|
      invariant 0 <= n <= |b|
      invariant ReadPat(b).Some? <==> ReadPat(b[n..]).Some?
      invariant ReadPat(b[n..]).Some? ==> ReadPat(b).value == entries + ReadPat(b[n..]).value
    {
      if n + 4 <= |b| {
        assert b[n..][4..] == b[n + 4..];
        entries := entries + [ReadEntry(b[n..])];
        n := n + 4;
      } else {
        break;
      }
    }
    ok := n == |b|;
  }

  /** An entry with the one packet id its program number calls for, in 13 bits. */
  predicate Proper(e: PatEntry) {
    if e.programNumber == 0 then e.programMapPid == 0 && e.networkPid < 0x2000
    else e.networkPid == 0 && e.programMapPid < 0x2000
  }

  lemma EntryReadsBack(e: PatEntry, rest: seq<byte>)
    ensures ReadEntry(EntryBytes(e) + rest) == e <==> Proper(e)
  {
    hide BE16, U16BE;
    var p := PidField(if e.programNumber == 0 then e.networkPid else e.programMapPid);
    assert EntryBytes(e) + rest == BE16(e.programNumber) + (BE16(p) + rest);
    ReadBack16(e.programNumber, BE16(p) + rest);
    assert (EntryBytes(e) + rest)[2..] == BE16(p) + rest;
    ReadBack16(p, rest);
  }

  /** A table reads back as it was written exactly if all of its entries are proper. */
  lemma {:induction false} PatReadsBackIff(entries: seq<PatEntry>)
    ensures ReadPat(PatBytes(entries)).Some?
    ensures ReadPat(PatBytes(entries)).value == entries <==> forall e <- entries :: Proper(e)
  {
    hide EntryBytes, ReadEntry, Proper;
    if entries != [] {
      var e, rest := entries[0], PatBytes(entries[1..]);
      EntryReadsBack(e, rest);
      PatReadsBackIff(entries[1..]);
      assert (EntryBytes(e) + rest)[4..] == rest;
      assert entries == [e] + entries[1..];
      assert forall x :: x in entries <==> x == e || x in entries[1..];
      var got := ReadPat(PatBytes(entries)).value;
      assert got == [ReadEntry(EntryBytes(e) + rest)] + ReadPat(rest).value;
      assert got == entries <==> got[0] == entries[0] && got[1..] == entries[1..];
    }
  }
}
