/** Reassembling elementary stream packets and cutting them into frames (format/ts/demuxer.go). */
module TsDemuxer {
  import opened Bytes
  import opened Nalus
  import Adts
  import Pes = TsPes

  datatype Kind = Video | Audio

  datatype Packet = Packet(time: int, compositionTime: int, isKeyFrame: bool, data: seq<byte>)

  /** A stream while it is read; data is absent between payloads. */
  datatype State = State(kind: Kind, key: bool, pts: int, dts: int, data: Option<seq<byte>>, datalen: int,
      pkts: seq<Packet>)

  /** A missing decoding time is the presentation time. */
  function PacketOf(s: State, payload: seq<byte>, delta: int): Packet {
    var dts := if s.dts == 0 then s.pts else s.dts;
    Packet(dts + delta, s.pts - dts, s.key, payload)
  }

  predicate IsData(unit: seq<byte>) {
    unit != [] && 1 <= unit[0] % 0x20 <= 5
  }

  /** The packets of a picture: one for every unit that carries picture data, behind its length. */
  function VideoPackets(s: State, units: seq<seq<byte>>): seq<Packet> {
    if units == [] then []
    else
      (if IsData(units[0]) then [PacketOf(s, BE32(ToU32(|units[0]|)) + units[0], 0)] else [])
      + VideoPackets(s, units[1..])
  }

  /** The packets of an audio payload, frame by frame, and whether all of it could be read. Each frame is later than
      the one before by its samples. */
  function AudioPackets(s: State, payload: seq<byte>, delta: int): (seq<Packet>, bool)
    decreases |payload|
  {
    if payload == [] then ([], true)
    else
      match Adts.Parse(payload)
      case None => ([], false)
      case Some(f) =>
        if f.framelen > |payload| then ([], false)
        else
          var first := PacketOf(s, payload[f.hdrlen..f.framelen], delta);
          if f.config.rateIndex >= |Adts.RATES| then ([first], false)
          else
            var (more, ok) := AudioPackets(s, payload[f.framelen..],
                delta + f.samples * SECOND / Adts.RATES[f.config.rateIndex]);
            ([first] + more, ok)
  }

  function Emitted(s: State, payload: seq<byte>): (seq<Packet>, bool) {
    if s.kind.Video? then (VideoPackets(s, Split(payload).0), true)
    else AudioPackets(s, payload, 0)
  }

  /** The end of a payload: its frames are delivered if it has the length that was announced. */
  function Ended(s: State): (State, bool) {
    if s.data.None? then (s, true)
    else if s.datalen != 0 && |s.data.value| != s.datalen then (s, false)
    else
      var (pkts, ok) := Emitted(s, s.data.value);
      (s.(data := None, pkts := s.pkts + pkts), ok)
  }

  /** One transport packet of the stream. A start ends the payload before; anything else is appended. A header that
      cannot be read, is longer than the packet or announces a negative length stops the reader. */
  function Handle(s: State, start: bool, key: bool, payload: seq<byte>): (State, bool) {
    if !start then (s.(data := Some((if s.data.Some? then s.data.value else []) + payload)), true)
    else
      var (s1, ok) := Ended(s);
      if !ok then (s1, false)
      else
        var (h, read) := Pes.ParsePESHeader(payload);
        var s2 := s1.(datalen := h.datalen, pts := h.pts, dts := h.dts);
        if !read then (s2, false)
        else if h.datalen < 0 || h.hdrlen > |payload| then (s2.(key := key), false)
        else (s2.(key := key, data := Some(payload[h.hdrlen..])), true)
  }

  class Stream {
    const kind: Kind
    var key: bool
    var pts: int
    var dts: int
    var data: Option<seq<byte>>
    var datalen: int
    var pkts: seq<Packet>

    constructor (kind: Kind)
      ensures Contents() == State(kind, false, 0, 0, None, 0, [])
    {
      this.kind := kind;
      key, pts, dts, data, datalen, pkts := false, 0, 0, None, 0, [];
    }

    ghost function Contents(): State
      reads this
    {
      State(kind, key, pts, dts, data, datalen, pkts)
    }

    method AddPacket(payload: seq<byte>, timedelta: int)
      modifies `pkts
      ensures pkts == old(pkts) + [PacketOf(old(Contents()), payload, timedelta)]
    {
      var d, p := dts, pts;
      if d == 0 {
        d := p;
      }
      var pkt := Packet(d + timedelta, 0, key, payload);
      if p != d {
        pkt := pkt.(compositionTime := p - d);
      }
      pkts := pkts + [pkt];
    }

    /** A packet takes nothing else from the stream. */
    static lemma SamePacket(s: State, data: Option<seq<byte>>, pkts: seq<Packet>, payload: seq<byte>, delta: int)
      ensures PacketOf(s.(data := data, pkts := pkts), payload, delta) == PacketOf(s, payload, delta)
    {
    }

    method PayloadEnd() returns (ok: bool)
      modifies this
      ensures (Contents(), ok) == Ended(old(Contents()))
    {
      hide Split, VideoPackets, AudioPackets;
      if data.None? {
        return true;
      }
      var payload := data.value;
      if datalen != 0 && |payload| != datalen {
        return false;
      }
      data := None;
      ok := true;
      if kind.Video? {
        var nalus, _ := SplitNALUs(payload);
        EndVideo(nalus, old(Contents()));
      } else {
        ok := EndAudio(payload, old(Contents()));
      }
    }

    method EndVideo(nalus: seq<seq<byte>>, ghost s: State)
      requires Contents() == s.(data := None)
      modifies `pkts
      ensures pkts == old(pkts) + VideoPackets(s, nalus)
    {
      hide VideoPackets, PacketOf, BE32;
      assert nalus[0..] == nalus;
      assert pkts + VideoPackets(s, nalus) == old(pkts) + VideoPackets(s, nalus);
      for i := 0 to |nalus|
        invariant Contents() == s.(data := None, pkts := pkts)
        invariant pkts + VideoPackets(s, nalus[i..]) == old(pkts) + VideoPackets(s, nalus)
      {
        NextUnit(s, pkts, nalus, i);
        var nalu := nalus[i];
        if |nalu| > 0 {
          var naltype := nalu[0] % 0x20;
          if 1 <= naltype <= 5 {
            SamePacket(s, None, pkts, BE32(ToU32(|nalu|)) + nalu, 0);
            AddPacket(BE32(ToU32(|nalu|)) + nalu, 0);
          }
        }
      }
      NoUnits(s, pkts, nalus);
    }

    static lemma NoUnits(s: State, before: seq<Packet>, units: seq<seq<byte>>)
      ensures before + VideoPackets(s, units[|units|..]) == before
    {
    }

    static lemma NextUnit(s: State, before: seq<Packet>, units: seq<seq<byte>>, i: nat)
      requires i < |units|
      ensures IsData(units[i]) ==>
        (before + VideoPackets(s, units[i..]) ==
         before + [PacketOf(s, BE32(ToU32(|units[i]|)) + units[i], 0)] + VideoPackets(s, units[i + 1..]))
      ensures !IsData(units[i]) ==> before + VideoPackets(s, units[i..]) == before + VideoPackets(s, units[i + 1..])
    {
      hide IsData, PacketOf;
      assert units[i..][0] == units[i] && units[i..][1..] == units[i + 1..];
    }

    method EndAudio(payload: seq<byte>, ghost s: State) returns (ok: bool)
      requires Contents() == s.(data := None)
      modifies `pkts
      ensures (pkts, ok) == (old(pkts) + AudioPackets(s, payload, 0).0, AudioPackets(s, payload, 0).1)
    {
      hide AudioPackets, PacketOf, Adts.Parse;
      var rest, delta := payload, 0;
      assert [] + AudioPackets(s, payload, 0).0 == AudioPackets(s, payload, 0).0;
      while |rest| > 0
        invariant Contents() == s.(data := None, pkts := pkts)
        invariant pkts + AudioPackets(s, rest, delta).0 == old(pkts) + AudioPackets(s, payload, 0).0
        invariant AudioPackets(s, rest, delta).1 == AudioPackets(s, payload, 0).1
        decreases |rest|
      {
        NextFrame(s, pkts, rest, delta);
        var frame := Adts.Parse(rest);
        if frame.None? || frame.value.framelen > |rest| {
          return false;
        }
        var f := frame.value;
        FrameFits(rest);
        SamePacket(s, None, pkts, rest[f.hdrlen..f.framelen], delta);
        AddPacket(rest[f.hdrlen..f.framelen], delta);
        if f.config.rateIndex >= |Adts.RATES| {
          return false;
        }
        delta := delta + f.samples * SECOND / Adts.RATES[f.config.rateIndex];
        rest := rest[f.framelen..];
      }
      NoFrame(s, pkts, delta);
      return true;
    }

    static lemma NoFrame(s: State, before: seq<Packet>, delta: int)
      ensures AudioPackets(s, [], delta) == ([], true) && before + [] == before
    {
    }

    static lemma FrameFits(payload: seq<byte>)
      ensures var f := Adts.Parse(payload); f.Some? ==> 0 < f.value.hdrlen <= f.value.framelen
    {
    }

    static lemma NextFrame(s: State, before: seq<Packet>, payload: seq<byte>, delta: int)
      requires payload != []
      ensures var f := Adts.Parse(payload); var (pkts, ok) := AudioPackets(s, payload, delta);
        && (f.None? || f.value.framelen > |payload| ==> before + pkts == before && !ok)
        && (f.Some? && f.value.framelen <= |payload| ==>
              var first := PacketOf(s, payload[f.value.hdrlen..f.value.framelen], delta);
              if f.value.config.rateIndex >= |Adts.RATES| then before + pkts == before + [first] && !ok
              else var (more, ok') := AudioPackets(s, payload[f.value.framelen..],
                                                   delta
                                                       + f.value.samples * SECOND / Adts.RATES[f.value.config.rateIndex]);
                   before + pkts == before + [first] + more && ok == ok')
    {
      hide PacketOf, Adts.Parse;
      FrameFits(payload);
    }

    /** One transport packet of this stream. */
    method HandleTSPacket(start: bool, iskeyframe: bool, payload: seq<byte>) returns (ok: bool)
      modifies this
      ensures (Contents(), ok) == Handle(old(Contents()), start, iskeyframe, payload)
    {
      hide Pes.ParsePESHeader, Ended;
      if start {
        ok := PayloadEnd();
        if !ok {
          return;
        }
        var (h, read) := Pes.ParsePESHeader(payload);
        datalen, pts, dts := h.datalen, h.pts, h.dts;
        if !read {
          return false;
        }
        key := iskeyframe;
        if h.datalen < 0 || h.hdrlen > |payload| {
          return false;
        }
        data := Some(payload[h.hdrlen..]);
      } else {
        data := Some((if data.Some? then data.value else []) + payload);
      }
      ok := true;
    }
  }
}
