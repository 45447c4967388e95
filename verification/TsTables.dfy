/** The tables at the start of a transport stream: writing them (format/ts/muxer.go) and finding the streams by them
    (format/ts/demuxer.go). */
module TsTables {
  import opened Bytes
  import opened Buffers
  import Maps = ProgramMaps
  import Psi
  import Ts = TsPackets

  const PMT_PID: u16 := 0x1000
  const PCR_PID: u16 := 0x100
  const TABLE_PAT: byte := 0
  const TABLE_PMT: byte := 2
  const EXTENSION: u16 := 1

  function TheProgram(): seq<Psi.PatEntry> { [Psi.PatEntry(1, 0, PMT_PID)] }

  function MapOf(streams: seq<Maps.StreamInfo>): Maps.Pmt { Maps.Pmt(PCR_PID, [], streams) }

  /** Packets whose payloads begin with a section. */
  ghost predicate Carries(packets: seq<seq<byte>>, payloads: seq<seq<byte>>, pid: nat, counter: nat,
                          tableid: byte, payload: seq<byte>) {
    var section := Psi.Filled(tableid, EXTENSION, payload);
    && Ts.Carry(packets, pid, false, counter, payloads) && packets != []
    && section <= Flatten(payloads)
    && (|payloads[0]| >= Ts.PACKET - 6 || section <= payloads[0])
  }

  class Tables {
    const psidata: array<byte>
    const tswpat: Ts.TSWriter
    const tswpmt: Ts.TSWriter

    constructor ()
      ensures Valid() && tswpat.pid == 0 && tswpmt.pid == 0x1000
    {
      hide Ts.TSWriter.Valid, Ts.PidOf;
      psidata := new byte[188];
      tswpat := new Ts.TSWriter(0);
      tswpmt := new Ts.TSWriter(PMT_PID);
    }

    ghost predicate Valid()
      reads this, tswpat, tswpmt, tswpat.tshdr, tswpmt.tshdr
    {
      && psidata.Length == 188 && tswpat.Valid() && tswpmt.Valid() && tswpat != tswpmt
      && psidata != tswpat.tshdr && psidata != tswpmt.tshdr && tswpat.tshdr != tswpmt.tshdr
    }

    /** Puts a section around the payload that is in place and sends it, padded to whole packets. */
    method Send(tsw: Ts.TSWriter, tableid: byte, datalen: nat)
      returns (out: seq<byte>, ghost packets: seq<seq<byte>>, ghost payloads: seq<seq<byte>>)
      requires Valid() && (tsw == tswpat || tsw == tswpmt) && 13 + datalen <= 188
      modifies psidata, tsw, tsw.tshdr
      ensures Valid() && out == Flatten(packets)
      ensures Carries(packets, payloads, tsw.pid, old(tsw.ContinuityCounter), tableid, old(psidata[9..9 + datalen]))
    {
      hide Flatten, Ts.IsPacket, Psi.Filled, Wrote;
      ghost var payload := psidata[9..9 + datalen];
      ghost var section := Psi.Filled(tableid, EXTENSION, payload);
      ghost var orig := psidata[..];
      var n := Psi.FillPSI(psidata, tableid, EXTENSION, datalen);
      Psi.Written(psidata, orig, section, 0, n);
      assert section[0..n] == section && psidata[0..n] == psidata[..n];
      OnePiece(psidata[..n]);
      var ps;
      out, ps, payloads := tsw.WritePackets([psidata[..n]], 0, false, true);
      packets := ps;
    }

    /** The one program of the stream, then its map. A map of more than 35 streams is refused; one of 35 leaves no
        room for its checksum, so it fails as well. */
    method WritePATPMT(streams: seq<Maps.StreamInfo>)
      returns (ok: bool, out: seq<byte>, ghost pat: seq<seq<byte>>, ghost patloads: seq<seq<byte>>,
               ghost pmt: seq<seq<byte>>, ghost pmtloads: seq<seq<byte>>)
      requires Valid() && forall s <- streams :: Maps.Plain(s)
      modifies psidata, tswpat, tswpat.tshdr, tswpmt, tswpmt.tshdr
      ensures Valid() && (ok <==> |streams| <= 34)
      ensures Carries(pat, patloads, tswpat.pid, old(tswpat.ContinuityCounter), TABLE_PAT, Psi.PatBytes(TheProgram()))
      ensures ok ==> Carries(pmt, pmtloads, tswpmt.pid, old(tswpmt.ContinuityCounter), TABLE_PMT, Maps.PmtBytes(MapOf(streams)))
      ensures ok ==> out == Flatten(pat) + Flatten(pmt)
    {
      hide Flatten, Carries, Psi.PatBytes, Maps.PmtBytes, Maps.Size, Wrote, Maps.Plain;
      pmt, pmtloads := [], [];
      ghost var orig := psidata[..];
      FirstNine(psidata);
      var patlen := Psi.MarshalPat(TheProgram(), psidata, 9, orig, orig[..9]);
      Psi.Written(psidata, orig, orig[..9] + Psi.PatBytes(TheProgram()), 9, 9 + patlen);
      assert (orig[..9] + Psi.PatBytes(TheProgram()))[9..9 + patlen] == Psi.PatBytes(TheProgram());
      out, pat, patloads := Send(tswpat, TABLE_PAT, patlen);
      PlainSize(streams);
      var pmtlen := Maps.Size(MapOf(streams));
      if pmtlen + 9 > psidata.Length {
        return false, out, pat, patloads, pmt, pmtloads;
      }
      if pmtlen + 13 > psidata.Length {
        return false, out, pat, patloads, pmt, pmtloads;
      }
      orig := psidata[..];
      FirstNine(psidata);
      var m := Maps.MarshalPmt(MapOf(streams), psidata, 9, orig, orig[..9]);
      Psi.Written(psidata, orig, orig[..9] + Maps.PmtBytes(MapOf(streams)), 9, 9 + m);
      assert (orig[..9] + Maps.PmtBytes(MapOf(streams)))[9..9 + m] == Maps.PmtBytes(MapOf(streams));
      var more;
      more, pmt, pmtloads := Send(tswpmt, TABLE_PMT, pmtlen);
      out := out + more;
      ok := true;
    }
  }

  lemma OnePiece(b: seq<byte>)
    ensures Flatten([b]) == b
  {
  }

  lemma FirstNine(b: array<byte>)
    requires b.Length >= 9
    ensures Wrote(b, b[..], b[..9])
  {
  }

  lemma {:induction false} PlainSizes(streams: seq<Maps.StreamInfo>)
    requires forall s <- streams :: Maps.Plain(s)
    ensures Maps.StreamsSize(streams) == 5 * |streams|
  {
    if streams != [] {
      assert forall s <- streams[1..] :: s in streams;
      PlainSizes(streams[1..]);
      assert Maps.Plain(streams[0]);
    }
  }

  lemma PlainSize(streams: seq<Maps.StreamInfo>)
    requires forall s <- streams :: Maps.Plain(s)
    ensures Maps.Size(MapOf(streams)) == 4 + 5 * |streams|
  {
    PlainSizes(streams);
  }

  /** What the demuxer makes of the payload of a program map packet. A section that does not end in it stops the
      original. */
  function ReadMap(payload: seq<byte>): Option<Maps.Pmt> {
    match Psi.ParsePSI(payload)
    case None => None
    case Some(h) =>
      if h.hdrlen + h.datalen > |payload| then None else Maps.ReadPmt(payload[h.hdrlen..h.hdrlen + h.datalen])
  }

  function ReadProgram(payload: seq<byte>): Option<seq<Psi.PatEntry>> {
    match Psi.ParsePSI(payload)
    case None => None
    case Some(h) =>
      if h.hdrlen + h.datalen > |payload| then None else Psi.ReadPat(payload[h.hdrlen..h.hdrlen + h.datalen])
  }

  lemma FirstHolds(payloads: seq<seq<byte>>, section: seq<byte>)
    requires payloads != [] && section <= Flatten(payloads) && |section| <= |payloads[0]|
    ensures section <= payloads[0]
  {
    assert Flatten(payloads)[..|section|] == payloads[0][..|section|];
  }

  /** The first packet of the association table tells the demuxer where the map is. */
  lemma ProgramFound(packets: seq<seq<byte>>, payloads: seq<seq<byte>>, pid: nat, counter: nat)
    requires Carries(packets, payloads, pid, counter, TABLE_PAT, Psi.PatBytes(TheProgram()))
    ensures payloads != [] && ReadProgram(payloads[0]) == Some(TheProgram())
  {
    hide Flatten, Ts.IsPacket, Psi.Filled, Psi.PatBytes, Psi.ParsePSI, Psi.ReadPat;
    var b := Psi.PatBytes(TheProgram());
    var section := Psi.Filled(TABLE_PAT, EXTENSION, b);
    FirstHoldsAll(payloads, section);
    var p := payloads[0];
    assert p == section + p[|section|..];
    Psi.SectionFoundIff(TABLE_PAT, EXTENSION, b, p[|section|..]);
    Psi.PatReadsBackIff(TheProgram());
    ProgramIsProper();
  }

  lemma ProgramIsProper()
    ensures forall e <- TheProgram() :: Psi.Proper(e)
  {
  }

  lemma FirstHoldsAll(payloads: seq<seq<byte>>, section: seq<byte>)
    requires payloads != [] && section <= Flatten(payloads) && |section| <= Ts.PACKET - 6
    requires |payloads[0]| >= Ts.PACKET - 6 || section <= payloads[0]
    ensures section <= payloads[0]
  {
    hide Flatten;
    if |payloads[0]| >= Ts.PACKET - 6 {
      FirstHolds(payloads, section);
    }
  }

  /** The demuxer looks at the first packet of the map only: it gives back exactly the streams if there are at most 33,
      and of the 34 that the muxer still writes it gives back nothing. */
  lemma StreamsFoundIff(packets: seq<seq<byte>>, payloads: seq<seq<byte>>, pid: nat, counter: nat,
      streams: seq<Maps.StreamInfo>)
    requires Carries(packets, payloads, pid, counter, TABLE_PMT, Maps.PmtBytes(MapOf(streams)))
    requires |streams| <= 34 && forall s <- streams :: Maps.Plain(s)
    ensures payloads != [] && (ReadMap(payloads[0]) == Some(MapOf(streams)) <==> |streams| <= 33)
    ensures |streams| == 34 ==> ReadMap(payloads[0]) == None
  {
    hide Flatten, Ts.IsPacket, Psi.Filled, Maps.PmtBytes, Psi.ParsePSI, Maps.ReadPmt, Maps.Plain, Maps.Size;
    var b := Maps.PmtBytes(MapOf(streams));
    var section := Psi.Filled(TABLE_PMT, EXTENSION, b);
    PlainSize(streams);
    assert Maps.Size(MapOf(streams)) == |b|;
    var p := payloads[0];
    if |streams| <= 33 {
      FirstHoldsAll(payloads, section);
      assert p == section + p[|section|..];
      Psi.SectionFoundIff(TABLE_PMT, EXTENSION, b, p[|section|..]);
      Maps.PmtReadsBackIff(MapOf(streams));
    } else {
      FirstIsBeginning(packets, payloads, pid, counter, section);
      Psi.SectionBegins(TABLE_PMT, EXTENSION, b, |p|);
    }
  }

  lemma FirstIsBeginning(packets: seq<seq<byte>>, payloads: seq<seq<byte>>, pid: nat, counter: nat, section: seq<byte>)
    requires Ts.Carry(packets, pid, false, counter, payloads) && payloads != []
    requires section <= Flatten(payloads) && |section| > Ts.Room(false)
    requires |payloads[0]| >= Ts.PACKET - 6 || section <= payloads[0]
    ensures |payloads[0]| == Ts.Room(false) && payloads[0] == section[..Ts.Room(false)]
  {
    assert Ts.IsPacket(packets[0], pid, true, false, counter, payloads[0]);
    assert Flatten(payloads)[..|payloads[0]|] == payloads[0];
  }
}
