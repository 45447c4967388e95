/** Command and data messages of RTMP: AMF0 values, one after the other (format/rtmp/rtmp.go). */
module RtmpCommands {
  import opened Bytes
  import opened Amf0

  /** A command: its name, transaction, object and further parameters. */
  datatype Command = Command(name: seq<byte>, transid: u64, obj: Option<map<Key, Val>>, params: seq<Val>)

  /** Values up to the last byte. */
  function ParseAll(b: seq<byte>): Option<seq<Val>>
    decreases |b|
  {
    if b == [] then Some([])
    else
      match Parse(b)
      case None => None
      case Some((v, n)) =>
        match ParseAll(b[n..])
        case None => None
        case Some(more) => Some([v] + more)
  }

  /** At least three values, the first a string. A transaction that is no number counts as zero, and what is no object
      as none. */
  function ParseCommand(b: seq<byte>): Option<Command> {
    match ParseAll(b)
    case None => None
    case Some(vs) =>
      if |vs| < 3 || !vs[0].String? then None
      else
        Some(Command(vs[0].s, if vs[1].Number? then vs[1].bits else 0,
                     if vs[2].Object? then Some(vs[2].m) else None, vs[3..]))
  }

  /** Some values in front of the rest. */
  function Before(vs: seq<Val>, r: Option<seq<Val>>): Option<seq<Val>> {
    if r.None? then None else Some(vs + r.value)
  }

  lemma NextValue(b: seq<byte>, n: nat, vs: seq<Val>)
    requires n <= |b|
    ensures n == |b| ==> Before(vs, ParseAll(b[n..])) == Some(vs)
    ensures n < |b| && Parse(b[n..]).None? ==> Before(vs, ParseAll(b[n..])) == None
    ensures n < |b| && Parse(b[n..]).Some? ==>
      var (v, k) := Parse(b[n..]).value;
      n + k <= |b| && Before(vs, ParseAll(b[n..])) == Before(vs + [v], ParseAll(b[n + k..]))
  {
    hide Parse;
    if n == |b| {
      assert vs + [] == vs;
    } else if Parse(b[n..]).Some? {
      var (v, k) := Parse(b[n..]).value;
      assert b[n..][k..] == b[n + k..];
      var more := ParseAll(b[n + k..]);
      if more.Some? {
        assert vs + ([v] + more.value) == vs + [v] + more.value;
      }
    }
  }

  /** The loop over the values of a data message. */
  method ReadValues(b: seq<byte>, from: nat, before: seq<Val>) returns (r: Option<seq<Val>>)
    requires from <= |b|
    ensures r == Before(before, ParseAll(b[from..]))
  {
    hide Parse, ParseAll, Before;
    var n, vs := from, before;
    NextValue(b, n, vs);
    while n < |b|
      invariant from <= n <= |b|
      invariant Before(before, ParseAll(b[from..])) == Before(vs, ParseAll(b[n..]))
      decreases |b| - n
    {
      NextValue(b, n, vs);
      var val := ParseAMF0Val(b[n..]);
      if val.None? {
        return None;
      }
      n, vs := n + val.value.1, vs + [val.value.0];
    }
    NextValue(b, n, vs);
    r := Some(vs);
  }

  /** A command, value by value. */
  method ReadCommand(b: seq<byte>) returns (r: Option<Command>)
    ensures r == ParseCommand(b)
  {
    hide Parse, ParseAll, Before;
    var vs: seq<Val>, n: nat := [], 0;
    assert b[0..] == b;
    BeforeNothing(b);
    for i := 0 to 3
      invariant |vs| == i && n <= |b|
      invariant Before([], ParseAll(b)) == Before(vs, ParseAll(b[n..]))
    {
      NextValue(b, n, vs);
      if n == |b| {
        return None;
      }
      var val := ParseAMF0Val(b[n..]);
      if val.None? {
        return None;
      }
      vs, n := vs + [val.value.0], n + val.value.1;
    }
    AtLeast(vs, ParseAll(b[n..]));
    if !vs[0].String? {
      return None;
    }
    var params := ReadValues(b, n, []);
    BeforeNothing(b[n..]);
    if params.None? {
      return None;
    }
    r := Some(Command(vs[0].s, if vs[1].Number? then vs[1].bits else 0, if vs[2].Object? then Some(vs[2].m) else None,
        params.value));
  }

  lemma BeforeNothing(b: seq<byte>)
    ensures Before([], ParseAll(b)) == ParseAll(b)
  {
    hide ParseAll;
    if ParseAll(b).Some? {
      assert [] + ParseAll(b).value == ParseAll(b).value;
    }
  }

  lemma AtLeast(vs: seq<Val>, r: Option<seq<Val>>)
    requires |vs| == 3
    ensures var all := Before(vs, r);
      && (all.None? <==> r.None?)
      && (r.Some? ==>
            && |all.value| >= 3 && all.value[3..] == r.value
            && all.value[0] == vs[0] && all.value[1] == vs[1] && all.value[2] == vs[2])
  {
  }

  function ReadAll(ws: seq<Walk>): (vs: seq<Val>)
    ensures |vs| == |ws|
  {
    if ws == [] then [] else [Read(Value(ws[0]))] + ReadAll(ws[1..])
  }

  /** Values written one after the other are read one after the other. */
  lemma {:induction false} ValuesReadBack(ws: seq<Walk>)
    requires forall w <- ws :: Fits(w)
    ensures ParseAll(FillVals(ws)) == Some(ReadAll(ws))
  {
    hide Fill, Parse, Fits, Read, Value;
    if ws != [] {
      assert ws[0] in ws;
      ReadsBack(ws[0], FillVals(ws[1..]));
      ValuesReadBack(ws[1..]);
      assert FillVals(ws)[|Fill(ws[0])|..] == FillVals(ws[1..]);
    }
  }

  lemma CommandOf(b: seq<byte>, name: seq<byte>, transid: u64, obj: Val, params: seq<Val>)
    requires ParseAll(b) == Some([String(name), Number(transid)] + ([obj] + params))
    ensures ParseCommand(b) == Some(Command(name, transid, if obj.Object? then Some(obj.m) else None, params))
  {
    hide ParseAll;
    assert ([String(name), Number(transid)] + ([obj] + params))[3..] == params;
  }

  lemma TwoMore(a: Walk, b: Walk, rest: seq<Walk>)
    ensures ReadAll([a, b] + rest) == [Read(Value(a)), Read(Value(b))] + ReadAll(rest)
    ensures Fits(a) && Fits(b) && (forall w <- rest :: Fits(w)) ==> forall w <- [a, b] + rest :: Fits(w)
  {
    hide Read, Value, Fits;
    var ws := [a, b] + rest;
    assert ws[1..] == [b] + rest && ws[1..][1..] == rest;
    assert ReadAll(ws) == [Read(Value(a))] + ([Read(Value(b))] + ReadAll(rest));
  }

  /** A command of fitting values, its name first, is read as it was meant. */
  lemma CommandReadsBack(name: seq<byte>, transid: u64, obj: Walk, params: seq<Walk>)
    requires |name| < 0x1_0000 && Fits(obj) && forall w <- params :: Fits(w)
    ensures var seen := Read(Value(obj));
      ParseCommand(FillVals([WString(name), WNumber(transid)] + ([obj] + params)))
      == Some(Command(name, transid, if seen.Object? then Some(seen.m) else None, ReadAll(params)))
  {
    hide FillVals, ParseAll, ParseCommand;
    var rest := [obj] + params;
    assert rest[1..] == params;
    TwoMore(WString(name), WNumber(transid), rest);
    ValuesReadBack([WString(name), WNumber(transid)] + rest);
    CommandOf(FillVals([WString(name), WNumber(transid)] + rest), name, transid, Read(Value(obj)), ReadAll(params));
  }
}
