/** Program map tables and their descriptors (format/ts/tsio, section 2.4.4.8 of ISO/IEC 13818-1). */
module ProgramMaps {
  import opened Bytes
  import opened Buffers
  import Psi

  datatype Descriptor = Descriptor(tag: byte, data: seq<byte>)

  datatype StreamInfo = StreamInfo(streamType: byte, pid: u16, descriptors: seq<Descriptor>)

  datatype Pmt = Pmt(pcrPid: u16, descriptors: seq<Descriptor>, streams: seq<StreamInfo>)

  function DescBytes(ds: seq<Descriptor>): (b: seq<byte>) {
    if ds == [] then [] else [ds[0].tag, ToU8(|ds[0].data|)] + ds[0].data + DescBytes(ds[1..])
  }

  function DescSize(ds: seq<Descriptor>): (n: nat)
    ensures n == |DescBytes(ds)|
  {
    if ds == [] then 0 else 2 + |ds[0].data| + DescSize(ds[1..])
  }

  /** A length of a descriptor list: twelve bits under four set bits. */
  function LengthField(n: nat): u16 { ToU16(n) % 0x1000 + 0xf000 }

  function StreamBytes(s: StreamInfo): seq<byte> {
    [s.streamType] + BE16(Psi.PidField(s.pid)) + BE16(LengthField(DescSize(s.descriptors))) + DescBytes(s.descriptors)
  }

  function StreamsBytes(streams: seq<StreamInfo>): seq<byte> {
    if streams == [] then [] else StreamBytes(streams[0]) + StreamsBytes(streams[1..])
  }

  function PmtBytes(p: Pmt): seq<byte> {
    BE16(Psi.PidField(p.pcrPid)) + BE16(LengthField(DescSize(p.descriptors))) + DescBytes(p.descriptors)
    + StreamsBytes(p.streams)
  }

  function StreamsSize(streams: seq<StreamInfo>): (n: nat)
    ensures n == |StreamsBytes(streams)|
  {
    if streams == [] then 0 else 5 + DescSize(streams[0].descriptors) + StreamsSize(streams[1..])
  }

  function Size(p: Pmt): (n: nat)
    ensures n == |PmtBytes(p)|
  {
    4 + DescSize(p.descriptors) + StreamsSize(p.streams)
  }

  method FillDescs(ds: seq<Descriptor>, h: array<byte>, at: nat, ghost orig: seq<byte>, ghost done: seq<byte>)
    returns (n: nat)
    requires Wrote(h, orig, done) && at == |done| && at + DescSize(ds) <= h.Length
    modifies h
    ensures n == DescSize(ds) && Wrote(h, orig, done + DescBytes(ds))
  {
    hide Wrote, DescBytes, DescSize;
    n := 0;
    DescStep(ds, 0, done);
    for i := 0 to |ds|
      invariant n == DescSize(ds[..i]) && Wrote(h, orig, done + DescBytes(ds[..i]))
    {
      DescStep(ds, i, done);
      ghost var so := done + DescBytes(ds[..i]);
      Put(h, at + n, [ds[i].tag], orig, so);
      n := n + 1;
      Put(h, at + n, [ToU8(|ds[i].data|)], orig, so + [ds[i].tag]);
      n := n + 1;
      Put(h, at + n, ds[i].data, orig, so + [ds[i].tag] + [ToU8(|ds[i].data|)]);
      n := n + |ds[i].data|;
    }
    assert ds[..|ds|] == ds;
  }

  lemma DescStep(ds: seq<Descriptor>, i: nat, done: seq<byte>)
    requires i <= |ds|
    ensures i == 0 ==> DescSize(ds[..0]) == 0 && done + DescBytes(ds[..0]) == done
    ensures i < |ds| ==> DescSize(ds[..i + 1]) == DescSize(ds[..i]) + 2 + |ds[i].data| <= DescSize(ds)
    ensures i < |ds| ==> (done + DescBytes(ds[..i + 1]) ==
      done + DescBytes(ds[..i]) + [ds[i].tag] + [ToU8(|ds[i].data|)] + ds[i].data)
  {
    hide DescBytes, DescSize;
    NoDescsYet(done);
    if i == 0 {
      assert ds[..0] == [];
    }
    if i < |ds| {
      DescSnoc(ds[..i], ds[i]);
      assert ds[..i + 1] == ds[..i] + [ds[i]];
      DescAppend(ds[..i + 1], ds[i + 1..]);
      assert ds == ds[..i + 1] + ds[i + 1..];
      DescParts(done, DescBytes(ds[..i]), ds[i]);
    }
  }

  lemma NoDescsYet(done: seq<byte>)
    ensures DescSize([]) == 0 && done + DescBytes([]) == done
  {
  }

  lemma DescParts(done: seq<byte>, b: seq<byte>, d: Descriptor)
    ensures done + (b + ([d.tag, ToU8(|d.data|)] + d.data)) == done + b + [d.tag] + [ToU8(|d.data|)] + d.data
  {
  }

  lemma {:induction false} DescAppend(a: seq<Descriptor>, b: seq<Descriptor>)
    ensures DescBytes(a + b) == DescBytes(a) + DescBytes(b)
    ensures DescSize(a + b) == DescSize(a) + DescSize(b)
  {
    if a == [] {
      assert a + b == b;
    } else {
      assert (a + b)[1..] == a[1..] + b;
      DescAppend(a[1..], b);
      Joins([a[0].tag, ToU8(|a[0].data|)] + a[0].data, DescBytes(a[1..]), DescBytes(b));
    }
  }

  lemma DescSnoc(a: seq<Descriptor>, d: Descriptor)
    ensures DescBytes(a + [d]) == DescBytes(a) + ([d.tag, ToU8(|d.data|)] + d.data)
    ensures DescSize(a + [d]) == DescSize(a) + 2 + |d.data|
  {
    DescAppend(a, [d]);
    assert [d][1..] == [] && DescBytes([]) == [];
  }

  /** A list of descriptors behind the field with its length, which is filled in last. */
  method FillList(ds: seq<Descriptor>, h: array<byte>, at: nat, ghost orig: seq<byte>, ghost done: seq<byte>)
    returns (n: nat)
    requires Wrote(h, orig, done) && at == |done| && at + 2 + DescSize(ds) <= h.Length
    modifies h
    ensures n == 2 + DescSize(ds) && Wrote(h, orig, done + BE16(LengthField(DescSize(ds))) + DescBytes(ds))
  {
    hide DescBytes, DescSize, BE16;
    n := 0;
    var hold := at + n;
    n := n + 2;
    var pos := n;
    ghost var gap := orig[|done|..|done| + 2];
    Skipped(h, orig, done, 2);
    var m := FillDescs(ds, h, at + n, orig, done + gap);
    n := n + m;
    var desclen := n - pos;
    Patch(h, hold, BE16(LengthField(desclen)), orig, done, gap, DescBytes(ds));
  }

  method MarshalPmt(p: Pmt, h: array<byte>, at: nat, ghost orig: seq<byte>, ghost done: seq<byte>) returns (n: nat)
    requires Wrote(h, orig, done) && at == |done| && at + Size(p) <= h.Length
    modifies h
    ensures n == Size(p) && Wrote(h, orig, done + PmtBytes(p))
  {
    hide Wrote, DescBytes, DescSize, StreamsBytes, StreamsSize, StreamBytes, BE16;
    n := 0;
    Put(h, at + n, BE16(Psi.PidField(p.pcrPid)), orig, done);
    n := n + 2;
    ghost var so := done + BE16(Psi.PidField(p.pcrPid));
    var m := FillList(p.descriptors, h, at + n, orig, so);
    n := n + m;
    so := so + BE16(LengthField(DescSize(p.descriptors))) + DescBytes(p.descriptors);
    var base := n;
    StreamStep(p.streams, 0, so);
    for i := 0 to |p.streams|
      invariant n == base + StreamsSize(p.streams[..i]) && Wrote(h, orig, so + StreamsBytes(p.streams[..i]))
    {
      StreamStep(p.streams, i, so);
      var info := p.streams[i];
      ghost var upto := so + StreamsBytes(p.streams[..i]);
      Put(h, at + n, [info.streamType], orig, upto);
      n := n + 1;
      Put(h, at + n, BE16(Psi.PidField(info.pid)), orig, upto + [info.streamType]);
      n := n + 2;
      m := FillList(info.descriptors, h, at + n, orig, upto + [info.streamType] + BE16(Psi.PidField(info.pid)));
      n := n + m;
    }
    assert p.streams[..|p.streams|] == p.streams;
    PmtParts(p, done);
  }

  lemma PmtParts(p: Pmt, done: seq<byte>)
    ensures done + PmtBytes(p) == done + BE16(Psi.PidField(p.pcrPid)) + BE16(LengthField(DescSize(p.descriptors)))
      + DescBytes(p.descriptors) + StreamsBytes(p.streams)
  {
    hide BE16, DescBytes, StreamsBytes;
  }

  lemma StreamStep(ss: seq<StreamInfo>, i: nat, done: seq<byte>)
    requires i <= |ss|
    ensures i == 0 ==> StreamsSize(ss[..0]) == 0 && done + StreamsBytes(ss[..0]) == done
    ensures i < |ss| ==> StreamsSize(ss[..i + 1]) == StreamsSize(ss[..i]) + 5 + DescSize(ss[i].descriptors) <= StreamsSize(ss)
    ensures i < |ss| ==> (done + StreamsBytes(ss[..i + 1]) ==
      done + StreamsBytes(ss[..i]) + [ss[i].streamType] + BE16(Psi.PidField(ss[i].pid))
      + BE16(LengthField(DescSize(ss[i].descriptors))) + DescBytes(ss[i].descriptors))
  {
    if i == 0 {
      assert StreamsBytes([]) == [] && StreamsSize([]) == 0 && done + [] == done;
    }
    if i < |ss| {
      hide *;
      Upto(ss, i);
      StreamSnoc(ss[..i], ss[i]);
      StreamsAppend(ss[..i + 1], ss[i + 1..]);
      StreamParts(ss[i], done, StreamsBytes(ss[..i]));
    }
  }

  lemma Upto<T>(s: seq<T>, i: nat)
    requires i < |s|
    ensures s[..i + 1] == s[..i] + [s[i]] && s == s[..i + 1] + s[i + 1..]
  {
  }

  lemma StreamParts(s: StreamInfo, done: seq<byte>, b: seq<byte>)
    ensures done + (b + StreamBytes(s)) == done + b + [s.streamType] + BE16(Psi.PidField(s.pid))
      + BE16(LengthField(DescSize(s.descriptors))) + DescBytes(s.descriptors)
  {
    hide BE16, DescBytes;
  }

  lemma {:induction false} StreamsAppend(a: seq<StreamInfo>, b: seq<StreamInfo>)
    ensures StreamsBytes(a + b) == StreamsBytes(a) + StreamsBytes(b)
    ensures StreamsSize(a + b) == StreamsSize(a) + StreamsSize(b)
  {
    hide StreamBytes;
    if a == [] {
      assert a + b == b;
    } else {
      assert (a + b)[1..] == a[1..] + b;
      StreamsAppend(a[1..], b);
      Joins(StreamBytes(a[0]), StreamsBytes(a[1..]), StreamsBytes(b));
    }
  }

  lemma StreamSnoc(a: seq<StreamInfo>, s: StreamInfo)
    ensures StreamsBytes(a + [s]) == StreamsBytes(a) + StreamBytes(s)
    ensures StreamsSize(a + [s]) == StreamsSize(a) + 5 + DescSize(s.descriptors)
  {
    hide StreamBytes;
    StreamsAppend(a, [s]);
    assert [s][1..] == [] && StreamsBytes([]) == [];
  }

  /** Descriptors as the reader finds them. The last one must end before the list does, so a list that ends with its
      last descriptor is either refused or, if that descriptor is empty, read without it. */
  function ReadDescs(b: seq<byte>): Option<seq<Descriptor>> {
    if b == [] then Some([])
    else if |b| < 2 then None
    else if 2 + b[1] as int < |b| then
      match ReadDescs(b[2 + b[1] as int..])
      case None => None
      case Some(more) => Some([Descriptor(b[0], b[2..2 + b[1] as int])] + more)
    else if |b| == 2 then Some([])
    else None
  }

  function ReadStreams(b: seq<byte>): Option<seq<StreamInfo>> {
    if b == [] then Some([])
    else if |b| < 5 then None
    else
      var desclen: nat := U16BE(b[3..]) % 0x400;
      if |b| < 5 + desclen then None
      else
        match ReadDescs(b[5..5 + desclen])
        case None => None
        case Some(ds) =>
          match ReadStreams(b[5 + desclen..])
          case None => None
          case Some(more) => Some([StreamInfo(b[0], U16BE(b[1..]) % 0x2000, ds)] + more)
  }

  function ReadPmt(b: seq<byte>): Option<Pmt> {
    if |b| < 4 then None
    else
      var desclen: nat := U16BE(b[2..]) % 0x400;
      if |b| < 4 + desclen then None
      else
        match ReadDescs(b[4..4 + desclen])
        case None => None
        case Some(ds) =>
          match ReadStreams(b[4 + desclen..])
          case None => None
          case Some(streams) => Some(Pmt(U16BE(b) % 0x2000, ds, streams))
  }

  method ParseDescs(b: seq<byte>) returns (ds: seq<Descriptor>, ok: bool)
    ensures ok <==> ReadDescs(b).Some?
    ensures ok ==> ds == ReadDescs(b).value
  {
    hide ReadDescs;
    ds := [];
    var n := 0;
    EmptyList();
    assert b[0..] == b && b[|b|..] == [];
    while n < |b|
      invariant 0 <= n <= |b|
      invariant ReadDescs(b).Some? <==> ReadDescs(b[n..]).Some?
      invariant ReadDescs(b[n..]).Some? ==> ReadDescs(b).value == ds + ReadDescs(b[n..]).value
      decreases |b| - n
    {
      DescNext(b, n);
      if n + 2 <= |b| {
        var tag, len := b[n], b[n + 1] as int;
        n := n + 2;
        if n + len < |b| {
          ds := ds + [Descriptor(tag, b[n..n + len])];
          n := n + len;
        } else {
          break;
        }
      } else {
        break;
      }
    }
    ok := n == |b|;
  }

  lemma DescNext(b: seq<byte>, n: nat)
    requires n < |b|
    ensures n + 2 > |b| ==> ReadDescs(b[n..]) == None
    ensures n + 2 <= |b| ==> (var len := b[n + 1] as int;
      if n + 2 + len < |b| then
        var next := ReadDescs(b[n + 2 + len..]);
        ReadDescs(b[n..]) == if next.None? then None else Some([Descriptor(b[n], b[n + 2..n + 2 + len])] + next.value)
      else ReadDescs(b[n..]) == if n + 2 == |b| then Some([]) else None)
  {
    if n + 2 <= |b| && n + 2 + b[n + 1] as int < |b| {
      var len := b[n + 1] as int;
      assert b[n..][2 + len..] == b[n + 2 + len..];
      assert b[n..][2..2 + len] == b[n + 2..n + 2 + len];
    }
  }

  method UnmarshalPmt(b: seq<byte>) returns (p: Pmt, ok: bool)
    ensures ok <==> ReadPmt(b).Some?
    ensures ok ==> p == ReadPmt(b).value
  {
    hide ReadDescs, U16BE;
    p := Pmt(0, [], []);
    if |b| < 4 {
      return p, false;
    }
    var pcrPid := U16BE(b) % 0x2000;
    var desclen: nat := U16BE(b[2..]) % 0x400;
    var n := 4;
    var program := [];
    EmptyList();
    if desclen > 0 {
      if |b| < n + desclen {
        return p, false;
      }
      program, ok := ParseDescs(b[n..n + desclen]);
      if !ok {
        return;
      }
      n := n + desclen;
    } else {
      assert b[4..4] == [];
    }
    assert n == 4 + desclen && ReadDescs(b[4..4 + desclen]) == Some(program);
    var streams;
    streams, ok := ParseStreams(b[n..]);
    p := Pmt(pcrPid, program, streams);
  }

  lemma EmptyList()
    ensures ReadDescs([]) == Some([])
  {
  }

  method ParseStreams(b: seq<byte>) returns (streams: seq<StreamInfo>, ok: bool)
    ensures ok <==> ReadStreams(b).Some?
    ensures ok ==> streams == ReadStreams(b).value
  {
    hide ReadDescs, U16BE, ReadStreams;
    streams := [];
    var n := 0;
    StreamNext(b, 0);
    assert b[0..] == b;
    while n < |b|
      invariant 0 <= n <= |b|
      invariant ReadStreams(b).Some? <==> ReadStreams(b[n..]).Some?
      invariant ReadStreams(b[n..]).Some? ==> ReadStreams(b).value == streams + ReadStreams(b[n..]).value
    {
      StreamNext(b, n);
      if |b| < n + 5 {
        return streams, false;
      }
      var streamType := b[n];
      n := n + 1;
      var pid := U16BE(b[n..]) % 0x2000;
      n := n + 2;
      var desclen: nat := U16BE(b[n..]) % 0x400;
      n := n + 2;
      var ds := [];
      EmptyList();
      if desclen > 0 {
        if |b| < n + desclen {
          return streams, false;
        }
        ds, ok := ParseDescs(b[n..n + desclen]);
        if !ok {
          return;
        }
        n := n + desclen;
      } else {
        assert b[n..n + desclen] == [];
      }
      streams := streams + [StreamInfo(streamType, pid, ds)];
    }
    StreamNext(b, |b|);
    ok := true;
  }

  lemma StreamNext(b: seq<byte>, n: nat)
    requires n <= |b|
    ensures n == |b| ==> ReadStreams(b[n..]) == Some([])
    ensures n < |b| < n + 5 ==> ReadStreams(b[n..]) == None
    ensures n + 5 <= |b| ==> (var desclen: nat := U16BE(b[n + 3..]) % 0x400;
      if |b| < n + 5 + desclen then ReadStreams(b[n..]) == None
      else
        var ds, next := ReadDescs(b[n + 5..n + 5 + desclen]), ReadStreams(b[n + 5 + desclen..]);
        ReadStreams(b[n..]) ==
          if ds.None? || next.None? then None else Some([StreamInfo(b[n], U16BE(b[n + 1..]) % 0x2000, ds.value)]
              + next.value))
  {
    hide ReadDescs, U16BE;
    if n + 5 <= |b| {
      assert b[n..][3..] == b[n + 3..] && b[n..][1..] == b[n + 1..];
      var desclen: nat := U16BE(b[n + 3..]) % 0x400;
      if |b| >= n + 5 + desclen {
        assert b[n..][5..5 + desclen] == b[n + 5..n + 5 + desclen];
        assert b[n..][5 + desclen..] == b[n + 5 + desclen..];
      }
    }
  }

  /** Reading a list always falls two bytes short: the last descriptor is dropped. */
  lemma {:induction false} ListFallsShort(b: seq<byte>)
    requires b != [] && ReadDescs(b).Some?
    ensures DescSize(ReadDescs(b).value) == |b| - 2
    decreases |b|
  {
    if |b| >= 2 && 2 + b[1] as int < |b| {
      ListFallsShort(b[2 + b[1] as int..]);
      var more := ReadDescs(b[2 + b[1] as int..]).value;
      assert ([Descriptor(b[0], b[2..2 + b[1] as int])] + more)[1..] == more;
    }
  }

  lemma LengthKept(n: nat)
    ensures LengthField(n) % 0x400 == n % 0x400
  {
    var m := n % 0x1_0000;
    var a, r := n / 0x400, n % 0x400;
    assert n == a * 0x400 + r;
    Psi.Remainder(m % 0x1000 + 0xf000, a - n / 0x1_0000 * 0x40 - m / 0x1000 * 4 + 60, r);
  }

  /** So a list of descriptors is never read back, whatever its length field says. */
  lemma ListNeverReadBack(ds: seq<Descriptor>, rest: seq<byte>)
    requires ds != []
    ensures var n := LengthField(DescSize(ds)) % 0x400;
      n <= |DescBytes(ds) + rest| && ReadDescs((DescBytes(ds) + rest)[..n]) != Some(ds)
  {
    hide ReadDescs, DescBytes, LengthField;
    LengthKept(DescSize(ds));
    var n := DescSize(ds) % 0x400;
    var b := (DescBytes(ds) + rest)[..n];
    EmptyList();
    if b != [] && ReadDescs(b).Some? {
      ListFallsShort(b);
    }
  }

  predicate Plain(s: StreamInfo) { s.pid < 0x2000 && s.descriptors == [] }

  lemma TwoWords(t: seq<byte>, p: seq<byte>, l: seq<byte>, d: seq<byte>, rest: seq<byte>)
    requires |t| == 1 && |p| == |l| == 2
    ensures var b := t + p + l + d + rest;
      |b| >= 5 && b[0] == t[0] && b[1..] == p + (l + (d + rest)) && b[3..] == l + (d + rest) && b[5..] == d + rest
  {
  }

  lemma StreamFields(s: StreamInfo, rest: seq<byte>)
    ensures var b := StreamBytes(s) + rest;
      && |b| >= 5 && b[0] == s.streamType && U16BE(b[1..]) % 0x2000 == s.pid % 0x2000
      && U16BE(b[3..]) == LengthField(DescSize(s.descriptors)) && b[5..] == DescBytes(s.descriptors) + rest
  {
    hide BE16, U16BE, DescBytes, LengthField;
    var p, l, d := BE16(Psi.PidField(s.pid)), BE16(LengthField(DescSize(s.descriptors))), DescBytes(s.descriptors);
    TwoWords([s.streamType], p, l, d, rest);
    ReadBack16(Psi.PidField(s.pid), l + (d + rest));
    ReadBack16(LengthField(DescSize(s.descriptors)), d + rest);
  }

  lemma StreamReadBack(s: StreamInfo, rest: seq<byte>)
    ensures s.descriptors == [] ==> var next := ReadStreams(rest);
      ReadStreams(StreamBytes(s) + rest) == if next.None? then None
          else Some([StreamInfo(s.streamType, s.pid % 0x2000, [])] + next.value)
    ensures s.descriptors != [] ==> var r := ReadStreams(StreamBytes(s) + rest);
      r.Some? ==> r.value != [] && r.value[0] != s
  {
    hide StreamBytes, DescBytes, U16BE, ReadDescs, LengthField, ReadStreams;
    StreamFields(s, rest);
    var b := StreamBytes(s) + rest;
    StreamNext(b, 0);
    assert b[0..] == b && b[0 + 5..] == b[5..];
    var n: nat := LengthField(DescSize(s.descriptors)) % 0x400;
    LengthKept(DescSize(s.descriptors));
    if s.descriptors == [] {
      NoDescs();
      assert [] + rest == rest && b[5..5] == [];
      EmptyList();
    } else {
      ListNeverReadBack(s.descriptors, rest);
      assert b[5..5 + n] == b[5..][..n];
    }
  }

  lemma NoDescs()
    ensures DescSize([]) == 0 && DescBytes([]) == []
  {
  }

  lemma {:induction false} StreamsReadBackIff(streams: seq<StreamInfo>)
    ensures ReadStreams(StreamsBytes(streams)) == Some(streams) <==> forall s <- streams :: Plain(s)
  {
    hide StreamBytes, ReadStreams;
    if streams == [] {
      StreamNext([], 0);
    } else {
      var s, more := streams[0], streams[1..];
      var rest := StreamsBytes(more);
      StreamReadBack(s, rest);
      StreamsReadBackIff(more);
      OfFirst(streams);
      var next := ReadStreams(rest);
      if s.descriptors == [] && next.Some? {
        FirstAndMore(StreamInfo(s.streamType, s.pid % 0x2000, []), next.value, streams);
      }
    }
  }

  lemma OfFirst(streams: seq<StreamInfo>)
    requires streams != []
    ensures (forall s <- streams :: Plain(s)) <==> Plain(streams[0]) && forall s <- streams[1..] :: Plain(s)
  {
    assert streams == [streams[0]] + streams[1..];
  }

  lemma FirstAndMore<T>(x: T, more: seq<T>, s: seq<T>)
    requires s != []
    ensures [x] + more == s <==> x == s[0] && more == s[1..]
  {
    assert ([x] + more)[1..] == more && s == [s[0]] + s[1..];
  }

  /** A program map reads back as it was written exactly if it holds no descriptor and packet ids of 13 bits. */
  lemma PmtReadsBackIff(p: Pmt)
    ensures ReadPmt(PmtBytes(p)) == Some(p) <==>
      (p.pcrPid < 0x2000 && p.descriptors == [] && forall s <- p.streams :: Plain(s))
  {
    hide BE16, U16BE, DescBytes, LengthField, StreamsBytes, ReadStreams, ReadDescs, Plain;
    var f, l, d, rest := BE16(Psi.PidField(p.pcrPid)), BE16(LengthField(DescSize(p.descriptors))), DescBytes(p.descriptors), StreamsBytes(p.streams);
    var b := PmtBytes(p);
    assert b == f + (l + (d + rest));
    ReadBack16(Psi.PidField(p.pcrPid), l + (d + rest));
    assert b[2..] == l + (d + rest) && b[4..] == d + rest;
    ReadBack16(LengthField(DescSize(p.descriptors)), d + rest);
    LengthKept(DescSize(p.descriptors));
    var n: nat := LengthField(DescSize(p.descriptors)) % 0x400;
    if p.descriptors == [] {
      NoDescs();
      assert [] + rest == rest && b[4..4] == [];
      EmptyList();
      StreamsReadBackIff(p.streams);
    } else {
      ListNeverReadBack(p.descriptors, rest);
      assert b[4..4 + n] == b[4..][..n];
    }
  }
}
