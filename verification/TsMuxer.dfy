/** Writing frames as elementary stream packets (format/ts/muxer.go). */
module TsMuxer {
  import opened Bytes
  import opened Buffers
  import opened Nalus
  import opened TsDemuxer
  import opened Vectors
  import Adts
  import Pes = TsPes
  import Ts = TsPackets

  /** What one call of the muxer sends: the header's fields and the bytes behind it. */
  datatype Payload = Payload(streamid: byte, datalen: int, pts: int, dts: int, key: bool, body: seq<byte>)

  function Head(p: Payload): seq<byte> {
    Pes.Layout(p.streamid, p.datalen, p.pts, p.dts)
  }

  /** Transport packets that carry a payload; its header fits into the first. */
  ghost predicate Sends(packets: seq<seq<byte>>, payloads: seq<seq<byte>>, pid: nat, counter: nat, p: Payload) {
    && Ts.Carry(packets, pid, p.key, counter, payloads)
    && Flatten(payloads) == Head(p) + p.body
    && payloads != [] && |payloads[0]| >= |Head(p)|
  }

  function Units(sps: seq<byte>, pps: seq<byte>, pkt: Packet): seq<seq<byte>> {
    (if pkt.isKeyFrame then [sps, pps] else []) + Split(pkt.data).0
  }

  /** A picture has no announced length, both its times, and its parameter sets in front if it is a key frame. */
  function VideoPayload(sps: seq<byte>, pps: seq<byte>, pkt: Packet): Payload {
    var t := pkt.time + SECOND;
    Payload(0xe0, -1, t + pkt.compositionTime, t, pkt.isKeyFrame, Joined(Units(sps, pps, pkt)))
  }

  /** An audio frame has its length announced and one time, and every frame is an entry point. */
  function AudioPayload(config: Adts.Config, pkt: Packet): Payload {
    Payload(0xc0, 7 + |pkt.data|, pkt.time + SECOND, 0, true, Adts.Layout(config, 1024, |pkt.data|) + pkt.data)
  }

  class Stream {
    const kind: Kind
    const sps: seq<byte>
    const pps: seq<byte>
    const config: Adts.Config
    const tsw: Ts.TSWriter
    const peshdr: array<byte>
    const adtshdr: array<byte>

    constructor (kind: Kind, pid: u16, sps: seq<byte>, pps: seq<byte>, config: Adts.Config)
      ensures Valid() && tsw.pid == pid % 0x2000 && tsw.ContinuityCounter == 0
      ensures this.kind == kind && this.sps == sps && this.pps == pps && this.config == config
      ensures fresh(tsw) && fresh(tsw.tshdr) && fresh(peshdr) && fresh(adtshdr)
    {
      this.kind, this.sps, this.pps, this.config := kind, sps, pps, config;
      tsw := new Ts.TSWriter(pid);
      peshdr := new byte[19];
      adtshdr := new byte[7];
    }

    ghost predicate Valid()
      reads this, tsw, tsw.tshdr
    {
      && tsw.Valid() && peshdr.Length == 19 && adtshdr.Length == 7
      && peshdr != tsw.tshdr && adtshdr != tsw.tshdr && peshdr != adtshdr
    }

    /** Times are moved one second on, so that none of them is zero. */
    method WritePacket(pkt: Packet) returns (out: seq<byte>, ghost packets: seq<seq<byte>>,
        ghost payloads: seq<seq<byte>>)
      requires Valid()
      modifies tsw, tsw.tshdr, peshdr, adtshdr
      ensures Valid() && out == Flatten(packets) && tsw.ContinuityCounter == old(tsw.ContinuityCounter) + |packets|
      ensures Sends(packets, payloads, tsw.pid, old(tsw.ContinuityCounter),
                    if kind.Audio? then AudioPayload(config, pkt) else VideoPayload(sps, pps, pkt))
    {
      hide Flatten, Joined, Units, Split, Pes.Layout, Adts.Layout, Wrote, Sends, Head, VideoPayload, AudioPayload, Ts.TSWriter.Valid;
      var time := pkt.time + SECOND;
      if kind.Audio? {
        var n := Pes.FillPESHeader(peshdr, 0xc0, 7 + |pkt.data|, time, 0);
        HeadWritten(peshdr, n, Pes.Layout(0xc0, 7 + |pkt.data|, time, 0));
        Adts.FillADTSHeader(adtshdr, config, 1024, |pkt.data|);
        var datav := [peshdr[..n], adtshdr[..], pkt.data];
        AudioVector(datav, config, pkt);
        out, packets, payloads := Send(datav, time, true, AudioPayload(config, pkt));
      } else {
        var nalus := [];
        if pkt.isKeyFrame {
          nalus := nalus + [sps];
          nalus := nalus + [pps];
        }
        var pktnalus, _ := SplitNALUs(pkt.data);
        nalus := nalus + pktnalus;
        UnitsAre(nalus, sps, pps, pkt);
        var datav := Vector(nalus);
        var n := Pes.FillPESHeader(peshdr, 0xe0, -1, time + pkt.compositionTime, time);
        HeadWritten(peshdr, n, Pes.Layout(0xe0, -1, time + pkt.compositionTime, time));
        VideoVector(datav, peshdr[..n], sps, pps, pkt);
        datav := datav[0 := peshdr[..n]];
        out, packets, payloads := Send(datav, time, pkt.isKeyFrame, VideoPayload(sps, pps, pkt));
      }
    }

    /** Hands a vector that begins with the header to the packetiser. */
    method Send(datav: seq<seq<byte>>, pcr: int, sync: bool, ghost p: Payload)
      returns (out: seq<byte>, ghost packets: seq<seq<byte>>, ghost payloads: seq<seq<byte>>)
      requires Valid() && Flatten(datav) == Head(p) + p.body && p.key == sync
      modifies tsw, tsw.tshdr
      ensures Valid() && out == Flatten(packets) && tsw.ContinuityCounter == old(tsw.ContinuityCounter) + |packets|
      ensures Sends(packets, payloads, tsw.pid, old(tsw.ContinuityCounter), p)
    {
      hide Flatten, Ts.IsPacket;
      var ps;
      out, ps, payloads := tsw.WritePackets(datav, pcr, sync, false);
      packets := ps;
      assert |Head(p)| <= 19 && Flatten(datav) != [];
      assert |payloads[0]| >= Ts.Room(pcr != 0) || Flatten(datav) <= payloads[0];
    }

    /** A place for the header, then every unit behind the bytes that announce it. */
    method Vector(nalus: seq<seq<byte>>) returns (datav: seq<seq<byte>>)
      ensures |datav| > 0 && Flatten(datav[1..]) == Joined(nalus)
    {
      hide *;
      datav := [[]];
      NoUnitsYet(datav, nalus);
      for i := 0 to |nalus|
        invariant |datav| > 0 && Flatten(datav[1..]) == Joined(nalus[..i])
      {
        OneMoreUnit(datav, nalus, i);
        if i == 0 {
          datav := datav + [AUD_BYTES];
        } else {
          datav := datav + [StartCode(false)];
        }
        datav := datav + [nalus[i]];
      }
      WholeList(nalus);
    }

    static lemma WholeList<T>(s: seq<T>)
      ensures s[..|s|] == s
    {
    }

    static lemma NoUnitsYet(datav: seq<seq<byte>>, nalus: seq<seq<byte>>)
      requires datav == [[]]
      ensures Flatten(datav[1..]) == Joined(nalus[..0])
    {
    }

    static lemma OneMoreUnit(datav: seq<seq<byte>>, nalus: seq<seq<byte>>, i: nat)
      requires i < |nalus| && |datav| > 0 && Flatten(datav[1..]) == Joined(nalus[..i])
      ensures var lead := if i == 0 then AUD_BYTES else StartCode(false);
        Flatten((datav + [lead] + [nalus[i]])[1..]) == Joined(nalus[..i + 1])
    {
      hide Flatten, Joined;
      var lead := if i == 0 then AUD_BYTES else StartCode(false);
      var v := datav[1..];
      assert (datav + [lead] + [nalus[i]])[1..] == v + [lead] + [nalus[i]];
      FlattenSnoc(v, lead);
      FlattenSnoc(v + [lead], nalus[i]);
      JoinedSnoc(nalus[..i], nalus[i]);
      assert nalus[..i + 1] == nalus[..i] + [nalus[i]];
      Joins(Joined(nalus[..i]), lead, nalus[i]);
    }

    static lemma JoinedSnoc(units: seq<seq<byte>>, u: seq<byte>)
      ensures Joined(units + [u]) == Joined(units) + ((if units == [] then AUD_BYTES else StartCode(false)) + u)
    {
      if units == [] {
        assert (units + [u])[1..] == [];
        assert Joined([u]) == AUD_BYTES + u + Coded(Shorts([]));
        assert Coded(Shorts([])) == [];
      } else {
        assert (units + [u])[1..] == units[1..] + [u];
        ShortsSnoc(units[1..], u);
        FirstAndRest(AUD_BYTES + units[0], Coded(Shorts(units[1..])), StartCode(false) + u);
      }
    }

    static lemma FirstAndRest<T>(a: seq<T>, b: seq<T>, c: seq<T>)
      ensures a + (b + c) == a + b + c
    {
    }

    static lemma {:induction false} ShortsSnoc(units: seq<seq<byte>>, u: seq<byte>)
      ensures Coded(Shorts(units + [u])) == Coded(Shorts(units)) + (StartCode(false) + u)
    {
      if units == [] {
        assert units + [u] == [u];
        assert Shorts([u]) == [Piece(false, u)] + Shorts([]);
        assert Coded([Piece(false, u)]) == StartCode(false) + u + Coded([]);
      } else {
        var more := units[1..];
        assert (units + [u])[1..] == more + [u];
        ShortsSnoc(more, u);
        ShortFirst(units[0], more);
        ShortFirst(units[0], more + [u]);
        assert units + [u] == [units[0]] + (more + [u]) && units == [units[0]] + more;
        FirstAndRest(StartCode(false) + units[0], Coded(Shorts(more)), StartCode(false) + u);
      }
    }

    static lemma ShortFirst(u: seq<byte>, more: seq<seq<byte>>)
      ensures Coded(Shorts([u] + more)) == StartCode(false) + u + Coded(Shorts(more))
    {
      assert ([u] + more)[1..] == more;
      assert Shorts([u] + more)[1..] == Shorts(more);
    }

    static lemma HeadWritten(h: array<byte>, n: nat, head: seq<byte>)
      requires n == |head| <= h.Length && exists orig :: Wrote(h, orig, head)
      ensures h[..n] == head
    {
    }

    static lemma UnitsAre(nalus: seq<seq<byte>>, sps: seq<byte>, pps: seq<byte>, pkt: Packet)
      requires nalus == (if pkt.isKeyFrame then [] + [sps] + [pps] else []) + Split(pkt.data).0
      ensures nalus == Units(sps, pps, pkt)
    {
      assert [] + [sps] + [pps] == [sps, pps];
    }

    static lemma VideoVector(datav: seq<seq<byte>>, head: seq<byte>, sps: seq<byte>, pps: seq<byte>, pkt: Packet)
      requires |datav| > 0 && Flatten(datav[1..]) == Joined(Units(sps, pps, pkt))
      requires head == Pes.Layout(0xe0, -1, pkt.time + SECOND + pkt.compositionTime, pkt.time + SECOND)
      ensures var p := VideoPayload(sps, pps, pkt);
        Flatten(datav[0 := head]) == Head(p) + p.body && p.key == pkt.isKeyFrame
    {
      hide Joined, Units, Pes.Layout;
      assert datav[0 := head][1..] == datav[1..];
    }

    static lemma AudioVector(datav: seq<seq<byte>>, config: Adts.Config, pkt: Packet)
      requires datav == [Pes.Layout(0xc0, 7 + |pkt.data|, pkt.time + SECOND, 0), Adts.Layout(config, 1024, |pkt.data|),
          pkt.data]
      ensures var p := AudioPayload(config, pkt);
        Flatten(datav) == Head(p) + p.body && p.key
    {
      hide Adts.Layout, Pes.Layout;
      hide Flatten;
      FlattenSnoc([datav[0], datav[1]], datav[2]);
      FlattenSnoc([datav[0]], datav[1]);
      FlattenSnoc([], datav[0]);
      NothingFlat();
      assert datav == [datav[0], datav[1]] + [datav[2]] && [datav[0], datav[1]] == [datav[0]] + [datav[1]];
      assert [] + [datav[0]] == [datav[0]] && [] + datav[0] == datav[0];
      FirstAndRest(datav[0], datav[1], datav[2]);
    }

    static lemma NothingFlat()
      ensures Flatten<byte>([]) == []
    {
    }
  }
}
