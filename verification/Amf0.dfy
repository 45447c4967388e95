/** Values of the AMF0 format: their bytes and reading them back (format/flv/flvio/amf0.go). */
module Amf0 {
  import opened Bytes
  import opened Buffers

  type Key = seq<byte>

  /** A value. Every numeric type is written as the 64 bits of a double; a date is only ever read. */
  datatype Val =
    | Number(bits: u64)
    | Boolean(b: bool)
    | String(s: seq<byte>)
    | Object(m: map<Key, Val>)
    | Ecma(m: map<Key, Val>)
    | Array(vs: seq<Val>)
    | Null
    | Date(bits: u64)

  /** A value together with the order in which the maps in it are walked. */
  datatype Walk =
    | WNumber(bits: u64)
    | WBoolean(b: bool)
    | WString(s: seq<byte>)
    | WObject(items: seq<Item>)
    | WEcma(items: seq<Item>)
    | WArray(vs: seq<Walk>)
    | WNull

  datatype Item = Item(key: Key, val: Walk)

  function Value(w: Walk): Val {
    match w
    case WNumber(bits) => Number(bits)
    case WBoolean(b) => Boolean(b)
    case WString(s) => String(s)
    case WObject(items) => Object(Values(items, map[]))
    case WEcma(items) => Ecma(Values(items, map[]))
    case WArray(vs) => Array(seq(|vs|, i requires 0 <= i < |vs| => Value(vs[i])))
    case WNull => Null
  }

  function Values(items: seq<Item>, acc: map<Key, Val>): map<Key, Val>
    decreases items
  {
    if items == [] then acc else Values(items[1..], acc[items[0].key := Value(items[0].val)])
  }

  const OBJECT_END: seq<byte> := [0, 0, 9]

  function Fill(w: Walk): (b: seq<byte>)
    ensures |b| >= 1
  {
    match w
    case WNumber(bits) => [0] + BE64(bits)
    case WBoolean(b) => [1, if b then 1 else 0]
    case WString(s) => if |s| <= 65536 then [2] + BE16(ToU16(|s|)) + s else [12] + BE32(ToU32(|s|)) + s
    case WObject(items) => [3] + FillItems(items, true) + OBJECT_END
    case WEcma(items) => [8] + BE32(ToU32(|items|)) + FillItems(items, false) + OBJECT_END
    case WArray(vs) => [10] + BE32(ToU32(|vs|)) + FillVals(vs)
    case WNull => [5]
  }

  /** Entries of a map. Objects leave out the empty key. */
  function FillItems(items: seq<Item>, skip: bool): seq<byte> {
    if items == [] then []
    else
      (if skip && items[0].key == [] then [] else ItemBytes(items[0])) + FillItems(items[1..], skip)
  }

  function ItemBytes(x: Item): (b: seq<byte>)
    ensures |b| == 2 + |x.key| + |Fill(x.val)|
  {
    BE16(ToU16(|x.key|)) + x.key + Fill(x.val)
  }

  function FillVals(vs: seq<Walk>): seq<byte> {
    if vs == [] then [] else Fill(vs[0]) + FillVals(vs[1..])
  }

  /** A value at the front of the bytes, and its length. Dates keep their bits. */
  function Parse(b: seq<byte>): (r: Option<(Val, nat)>)
    ensures r.Some? ==> 1 <= r.value.1 <= |b|
    decreases |b|, 0
  {
    if |b| < 1 then None
    else if b[0] == 0 then
      if |b| < 9 then None else Some((Number(U64BE(b[1..])), 9))
    else if b[0] == 1 then
      if |b| < 2 then None else Some((Boolean(b[1] != 0), 2))
    else if b[0] == 2 then
      if |b| < 3 || |b| < 3 + U16BE(b[1..]) as nat then None
      else Some((String(b[3..3 + U16BE(b[1..]) as nat]), 3 + U16BE(b[1..]) as nat))
    else if b[0] == 3 then
      match ParseItems(b[1..], map[])
      case None => None
      case Some((m, n)) => if |b| < 1 + n + 1 then None else Some((Object(m), 1 + n + 1))
    else if b[0] == 5 || b[0] == 6 then Some((Null, 1))
    else if b[0] == 8 then
      if |b| < 5 then None
      else
        match ParseItems(b[5..], map[])
        case None => None
        case Some((m, n)) => if |b| < 5 + n + 1 then None else Some((Object(m), 5 + n + 1))
    else if b[0] == 9 then
      if |b| < 4 then None else Some((Null, 4))
    else if b[0] == 10 then
      if |b| < 5 then None
      else
        match ParseVals(b[5..], U32BE(b[1..]))
        case None => None
        case Some((vs, n)) => Some((Array(vs), 5 + n))
    else if b[0] == 11 then
      if |b| < 11 then None else Some((Date(U64BE(b[1..])), 11))
    else if b[0] == 12 then
      if |b| < 5 || |b| < 5 + U32BE(b[1..]) as nat then None
      else Some((String(b[5..5 + U32BE(b[1..]) as nat]), 5 + U32BE(b[1..]) as nat))
    else None
  }

  /** Entries up to an empty key. */
  function ParseItems(b: seq<byte>, acc: map<Key, Val>): (r: Option<(map<Key, Val>, nat)>)
    ensures r.Some? ==> 2 <= r.value.1 <= |b|
    decreases |b|, 1
  {
    if |b| < 2 then None
    else
      var len: nat := U16BE(b);
      if len == 0 then Some((acc, 2))
      else if |b| < 2 + len then None
      else
        match Parse(b[2 + len..])
        case None => None
        case Some((v, n)) =>
          match ParseItems(b[2 + len + n..], acc[b[2..2 + len] := v])
          case None => None
          case Some((m, k)) => Some((m, 2 + len + n + k))
  }

  function ParseVals(b: seq<byte>, count: nat): (r: Option<(seq<Val>, nat)>)
    ensures r.Some? ==> r.value.1 <= |b| && |r.value.0| == count
    decreases |b|, 1
  {
    if count == 0 then Some(([], 0))
    else
      match Parse(b)
      case None => None
      case Some((v, n)) =>
        match ParseVals(b[n..], count - 1)
        case None => None
        case Some((vs, k)) => Some(([v] + vs, n + k))
  }

  // Writing and measuring, following the value.

  lemma ItemsNext(items: seq<Item>, skip: bool, i: nat)
    requires i <= |items|
    ensures i == 0 ==> FillItems(items[..0], skip) == []
    ensures |FillItems(items[..i], skip)| <= |FillItems(items, skip)| && items[..|items|] == items
    ensures i < |items| && skip && items[i].key == [] ==> FillItems(items[..i + 1], skip) == FillItems(items[..i], skip)
    ensures i < |items| && !(skip && items[i].key == []) ==> (FillItems(items[..i + 1], skip) ==
      FillItems(items[..i], skip) + ItemBytes(items[i]))
  {
    hide Fill, ItemBytes;
    if i < |items| {
      assert items[..i + 1] == items[..i] + [items[i]];
      ItemsAppend(items[..i], [items[i]], skip);
      OneItem(items[i], skip);
    }
    assert items == items[..i] + items[i..];
    ItemsAppend(items[..i], items[i..], skip);
  }

  lemma OneItem(x: Item, skip: bool)
    ensures FillItems([x], skip) == if skip && x.key == [] then [] else ItemBytes(x)
  {
    hide Fill, ItemBytes;
    assert [x][1..] == [];
  }

  lemma {:induction false} ItemsAppend(x: seq<Item>, y: seq<Item>, skip: bool)
    ensures FillItems(x + y, skip) == FillItems(x, skip) + FillItems(y, skip)
  {
    hide Fill, ItemBytes;
    if x == [] {
      assert x + y == y;
    } else {
      assert (x + y)[1..] == x[1..] + y;
      ItemsAppend(x[1..], y, skip);
    }
  }

  lemma ValsNext(vs: seq<Walk>, i: nat)
    requires i <= |vs|
    ensures i == 0 ==> FillVals(vs[..0]) == []
    ensures |FillVals(vs[..i])| <= |FillVals(vs)| && vs[..|vs|] == vs
    ensures i < |vs| ==> FillVals(vs[..i + 1]) == FillVals(vs[..i]) + Fill(vs[i])
  {
    hide Fill;
    if i < |vs| {
      assert vs[..i + 1] == vs[..i] + [vs[i]];
      ValsAppend(vs[..i], [vs[i]]);
      assert [vs[i]][1..] == [] && FillVals([vs[i]]) == Fill(vs[i]) + FillVals([]);
    }
    assert vs == vs[..i] + vs[i..];
    ValsAppend(vs[..i], vs[i..]);
  }

  lemma {:induction false} ValsAppend(x: seq<Walk>, y: seq<Walk>)
    ensures FillVals(x + y) == FillVals(x) + FillVals(y)
  {
    hide Fill;
    if x == [] {
      assert x + y == y;
    } else {
      assert (x + y)[1..] == x[1..] + y;
      ValsAppend(x[1..], y);
    }
  }

  method LenAMF0Val(w: Walk) returns (n: nat)
    ensures n == |Fill(w)|
    decreases w
  {
    match w
    case WNumber(_) =>
      n := 9;
    case WString(s) =>
      var u := |s|;
      n := if u <= 65536 then 3 else 5;
      n := n + u;
    case WEcma(items) =>
      n := 5;
      var m := LenItems(w, items, false);
      n := n + m + 3;
    case WObject(items) =>
      n := 1;
      var m := LenItems(w, items, true);
      n := n + m + 3;
    case WArray(vs) =>
      n := 5;
      ValsNext(vs, 0);
      for i := 0 to |vs|
        invariant n == 5 + |FillVals(vs[..i])|
      {
        ValsNext(vs, i);
        var m := LenAMF0Val(vs[i]);
        n := n + m;
      }
      ValsNext(vs, |vs|);
    case WBoolean(_) =>
      n := 2;
    case WNull =>
      n := 1;
  }

  method LenItems(w: Walk, items: seq<Item>, skip: bool) returns (n: nat)
    requires (w.WObject? || w.WEcma?) && items == w.items
    ensures n == |FillItems(items, skip)|
    decreases w, 0
  {
    hide Fill, FillItems;
    n := 0;
    ItemsNext(items, skip, 0);
    for i := 0 to |items|
      invariant n == |FillItems(items[..i], skip)|
    {
      ItemsNext(items, skip, i);
      if !skip || |items[i].key| > 0 {
        n := n + 2 + |items[i].key|;
        var m := LenAMF0Val(items[i].val);
        n := n + m;
      }
    }
    ItemsNext(items, skip, |items|);
  }

  method FillAMF0Val(b: array<byte>, at: nat, w: Walk, ghost orig: seq<byte>, ghost done: seq<byte>) returns (n: nat)
    requires Wrote(b, orig, done) && at == |done| && at + |Fill(w)| <= b.Length
    modifies b
    ensures n == |Fill(w)| && Wrote(b, orig, done + Fill(w))
    decreases w
  {
    hide Wrote, BE16, BE32, BE64, FillItems, FillVals;
    match w
    case WNumber(bits) =>
      Put(b, at, [0], orig, done);
      Put(b, at + 1, BE64(bits), orig, done + [0]);
      Joins(done, [0], BE64(bits));
      n := 9;
    case WString(s) =>
      n := 0;
      var u := |s|;
      if u <= 65536 {
        Put(b, at + n, [2], orig, done);
        n := n + 1;
        Put(b, at + n, BE16(ToU16(u)), orig, done + [2]);
        n := n + 2;
        Put(b, at + n, s, orig, done + [2] + BE16(ToU16(u)));
        Joins3(done, [2], BE16(ToU16(u)), s);
      } else {
        Put(b, at + n, [12], orig, done);
        n := n + 1;
        Put(b, at + n, BE32(ToU32(u)), orig, done + [12]);
        n := n + 4;
        Put(b, at + n, s, orig, done + [12] + BE32(ToU32(u)));
        Joins3(done, [12], BE32(ToU32(u)), s);
      }
      n := n + |s|;
    case WEcma(items) =>
      n := 0;
      Put(b, at + n, [8], orig, done);
      n := n + 1;
      Put(b, at + n, BE32(ToU32(|items|)), orig, done + [8]);
      n := n + 4;
      ghost var so := done + [8] + BE32(ToU32(|items|));
      var m := PutItems(b, at + n, w, items, false, orig, so);
      n := n + m;
      Put(b, at + n, OBJECT_END, orig, so + FillItems(items, false));
      n := n + 3;
      Joins4(done, [8], BE32(ToU32(|items|)), FillItems(items, false), OBJECT_END);
    case WObject(items) =>
      n := 0;
      Put(b, at + n, [3], orig, done);
      n := n + 1;
      var m := PutItems(b, at + n, w, items, true, orig, done + [3]);
      n := n + m;
      Put(b, at + n, OBJECT_END, orig, done + [3] + FillItems(items, true));
      n := n + 3;
      Joins3(done, [3], FillItems(items, true), OBJECT_END);
    case WArray(vs) =>
      n := 0;
      Put(b, at + n, [10], orig, done);
      n := n + 1;
      Put(b, at + n, BE32(ToU32(|vs|)), orig, done + [10]);
      n := n + 4;
      var m := PutVals(b, at + n, w, vs, orig, done + [10] + BE32(ToU32(|vs|)));
      n := n + m;
      Joins3(done, [10], BE32(ToU32(|vs|)), FillVals(vs));
    case WBoolean(x) =>
      Put(b, at, [1], orig, done);
      Put(b, at + 1, [if x then 1 else 0], orig, done + [1]);
      Joins(done, [1], [if x then 1 else 0]);
      assert [1] + [if x then 1 else 0] == [1, if x then 1 else 0];
      n := 2;
    case WNull =>
      Put(b, at, [5], orig, done);
      n := 1;
  }

  lemma Joins3(a: seq<byte>, b: seq<byte>, c: seq<byte>, d: seq<byte>)
    ensures a + b + c + d == a + (b + c + d)
  {
  }

  lemma Joins4(a: seq<byte>, b: seq<byte>, c: seq<byte>, d: seq<byte>, e: seq<byte>)
    ensures a + b + c + d + e == a + (b + c + d + e)
  {
  }

  method PutVals(b: array<byte>, at: nat, w: Walk, vs: seq<Walk>, ghost orig: seq<byte>, ghost done: seq<byte>)
    returns (n: nat)
    requires w.WArray? && vs == w.vs
    requires Wrote(b, orig, done) && at == |done| && at + |FillVals(vs)| <= b.Length
    modifies b
    ensures n == |FillVals(vs)| && Wrote(b, orig, done + FillVals(vs))
    decreases w, 0
  {
    hide Wrote, Fill, FillVals;
    n := 0;
    ValsNext(vs, 0);
    assert done + [] == done;
    for i := 0 to |vs|
      invariant n == |FillVals(vs[..i])| && Wrote(b, orig, done + FillVals(vs[..i]))
    {
      ValsNext(vs, i);
      ValsNext(vs, i + 1);
      var m := FillAMF0Val(b, at + n, vs[i], orig, done + FillVals(vs[..i]));
      n := n + m;
      Joins(done, FillVals(vs[..i]), Fill(vs[i]));
    }
    ValsNext(vs, |vs|);
  }

  method PutItems(b: array<byte>, at: nat, w: Walk, items: seq<Item>, skip: bool, ghost orig: seq<byte>,
      ghost done: seq<byte>)
    returns (n: nat)
    requires (w.WObject? || w.WEcma?) && items == w.items
    requires Wrote(b, orig, done) && at == |done| && at + |FillItems(items, skip)| <= b.Length
    modifies b
    ensures n == |FillItems(items, skip)| && Wrote(b, orig, done + FillItems(items, skip))
    decreases w, 0
  {
    hide Wrote, Fill, FillItems, BE16;
    n := 0;
    ItemsNext(items, skip, 0);
    assert done + [] == done;
    for i := 0 to |items|
      invariant n == |FillItems(items[..i], skip)| && Wrote(b, orig, done + FillItems(items[..i], skip))
    {
      ItemsNext(items, skip, i);
      ItemsNext(items, skip, i + 1);
      if !skip || |items[i].key| > 0 {
        var k := items[i].key;
        ghost var so := done + FillItems(items[..i], skip);
        Put(b, at + n, BE16(ToU16(|k|)), orig, so);
        n := n + 2;
        Put(b, at + n, k, orig, so + BE16(ToU16(|k|)));
        n := n + |k|;
        var m := FillAMF0Val(b, at + n, items[i].val, orig, so + BE16(ToU16(|k|)) + k);
        n := n + m;
        Joins3(so, BE16(ToU16(|k|)), k, Fill(items[i].val));
        Joins(done, FillItems(items[..i], skip), ItemBytes(items[i]));
      }
    }
    ItemsNext(items, skip, |items|);
  }

  // Reading back.

  /** What reading gives for a value: objects lose an empty key, and counted maps become objects. */
  function Read(v: Val): Val {
    match v
    case Object(m) => Object(map k | k in m && k != [] :: Read(m[k]))
    case Ecma(m) => Object(map k | k in m && k != [] :: Read(m[k]))
    case Array(vs) => Array(seq(|vs|, i requires 0 <= i < |vs| => Read(vs[i])))
    case _ => v
  }

  function ReadMap(m: map<Key, Val>): map<Key, Val> {
    map k | k in m && k != [] :: Read(m[k])
  }

  /** Values whose lengths fit their fields. A string of exactly 65536 bytes does not. */
  predicate Fits(w: Walk) {
    match w
    case WString(s) => |s| < TWO32 && |s| != 65536
    case WObject(items) => ItemsFit(items, true)
    case WEcma(items) => ItemsFit(items, false)
    case WArray(vs) => |vs| < TWO32 && ValsFit(vs)
    case _ => true
  }

  predicate ItemsFit(items: seq<Item>, skip: bool) {
    items == []
    || ((if items[0].key == [] then skip else |items[0].key| < 0x1_0000 && Fits(items[0].val))
        && ItemsFit(items[1..], skip))
  }

  predicate ValsFit(vs: seq<Walk>) {
    vs == [] || (Fits(vs[0]) && ValsFit(vs[1..]))
  }

  /** For every value whose lengths fit, in whatever order its maps are walked, and whatever follows: reading what was
      written gives the value, and its length. */
  lemma {:induction false} ReadsBack(w: Walk, rest: seq<byte>)
    requires Fits(w)
    ensures Parse(Fill(w) + rest) == Some((Read(Value(w)), |Fill(w)|))
    decreases w
  {
    hide Parse, FillItems, FillVals, Values, ParseItems, ParseVals, ReadMap;
    match w
    case WNumber(bits) =>
      NumberReadsBack(bits, rest);
    case WBoolean(_) =>
      SmallReadsBack(w, rest);
    case WString(s) =>
      StringReadsBack(s, rest);
    case WObject(items) =>
      ItemsReadBack(w, items, true, map[], [9] + rest);
      ObjectReadsBack(items, rest);
    case WEcma(items) =>
      ItemsReadBack(w, items, false, map[], [9] + rest);
      EcmaReadsBack(items, rest);
    case WArray(vs) =>
      ValsReadBack(w, vs, rest);
      ArrayReadsBack(vs, rest);
    case WNull =>
      SmallReadsBack(w, rest);
  }

  lemma SmallReadsBack(w: Walk, rest: seq<byte>)
    requires w.WBoolean? || w.WNull?
    ensures Parse(Fill(w) + rest) == Some((Value(w), |Fill(w)|))
  {
  }

  lemma NumberReadsBack(bits: u64, rest: seq<byte>)
    ensures Parse([0] + BE64(bits) + rest) == Some((Number(bits), 9))
  {
    hide U64BE, BE64;
    var b := [0] + BE64(bits) + rest;
    assert b[1..] == BE64(bits) + rest;
    ReadBack64(bits, rest);
  }

  lemma StringReadsBack(s: seq<byte>, rest: seq<byte>)
    requires |s| < TWO32 && |s| != 65536
    ensures Parse(Fill(WString(s)) + rest) == Some((String(s), |Fill(WString(s))|))
  {
    hide Parse, BE16, BE32;
    if |s| < 65536 {
      ShortReadsBack(s, |s|, rest);
      ShortIs(s, |s|, rest);
      assert (s + rest)[..|s|] == s;
    } else {
      LongReadsBack(s, rest);
    }
  }

  lemma ShortIs(s: seq<byte>, n: u16, rest: seq<byte>)
    requires |s| <= 65536 && n == ToU16(|s|)
    ensures Fill(WString(s)) + rest == [2] + BE16(n) + (s + rest)
  {
    hide BE16;
  }

  lemma LongReadsBack(s: seq<byte>, rest: seq<byte>)
    requires 65536 < |s| < TWO32
    ensures Parse([12] + BE32(ToU32(|s|)) + s + rest) == Some((String(s), 5 + |s|))
  {
    hide BE32, U32BE;
    var n: u32 := |s|;
    assert ToU32(|s|) == n;
    var b := [12] + BE32(n) + s + rest;
    assert b == [12] + BE32(n) + (s + rest);
    Tagged(12, BE32(n), s + rest, |s|);
    ReadBack32(n, s + rest);
    assert (s + rest)[..|s|] == s;
  }

  lemma ShortReadsBack(s: seq<byte>, n: u16, rest: seq<byte>)
    requires n <= |s + rest|
    ensures Parse([2] + BE16(n) + (s + rest)) == Some((String((s + rest)[..n]), 3 + n))
  {
    hide BE16, U16BE;
    var t := s + rest;
    var b := [2] + BE16(n) + t;
    Tagged(2, BE16(n), t, n);
    ReadBack16(n, t);
  }

  lemma Tagged(tag: byte, len: seq<byte>, t: seq<byte>, n: nat)
    requires n <= |t|
    ensures var b := [tag] + len + t;
      b[1..] == len + t && b[1 + |len|..1 + |len| + n] == t[..n]
  {
  }

  /** A string is read back exactly if its length is not 65536: then the short form is chosen, whose length field
      wraps to zero. */
  lemma StringReadsBackIff(s: seq<byte>, rest: seq<byte>)
    requires |s| < TWO32
    ensures Parse(Fill(WString(s)) + rest) == Some((String(s), |Fill(WString(s))|)) <==> |s| != 65536
  {
    hide Parse, Fill;
    if |s| == 65536 {
      ShortReadsBack(s, 0, rest);
      ShortIs(s, 0, rest);
      assert (s + rest)[..0] == [];
    } else {
      StringReadsBack(s, rest);
    }
  }

  lemma MapExtends(acc: map<Key, Val>, k: Key, v: Val)
    ensures k == [] ==> ReadMap(acc[k := v]) == ReadMap(acc)
    ensures k != [] ==> ReadMap(acc[k := v]) == ReadMap(acc)[k := Read(v)]
  {
  }

  lemma {:induction false} ItemsReadBack(w: Walk, items: seq<Item>, skip: bool, acc: map<Key, Val>, rest: seq<byte>)
    requires ItemsFit(items, skip) && (w.WObject? || w.WEcma?) && (forall x <- items :: x in w.items)
    ensures ParseItems(FillItems(items, skip) + ([0, 0] + rest), ReadMap(acc)) ==
      Some((ReadMap(Values(items, acc)), |FillItems(items, skip)| + 2))
    decreases w, items
  {
    hide Fill, Parse, ParseItems, Fits, Value, Read, BE16, U16BE, ReadMap, ItemBytes;
    if items == [] {
      NoItems(ReadMap(acc), rest);
    } else {
      var x, more := items[0], items[1..];
      MapExtends(acc, x.key, Value(x.val));
      var next := acc[x.key := Value(x.val)];
      ItemsReadBack(w, more, skip, next, rest);
      var tail := FillItems(more, skip) + ([0, 0] + rest);
      if x.key == [] {
        assert [] + FillItems(more, skip) == FillItems(more, skip);
      } else {
        assert x in w.items;
        ReadsBack(x.val, tail);
        ItemReadsBack(x, ReadMap(acc), tail, Read(Value(x.val)));
        Joins(ItemBytes(x), FillItems(more, skip), [0, 0] + rest);
      }
    }
  }

  lemma NoItems(acc: map<Key, Val>, rest: seq<byte>)
    ensures ParseItems([] + ([0, 0] + rest), acc) == Some((acc, 2))
  {
    assert [] + ([0, 0] + rest) == [0, 0] + rest;
    assert U16BE([0, 0] + rest) == 0;
  }

  lemma ItemReadsBack(x: Item, acc: map<Key, Val>, tail: seq<byte>, v: Val)
    requires 0 < |x.key| < 0x1_0000 && Parse(Fill(x.val) + tail) == Some((v, |Fill(x.val)|))
    ensures var r := ParseItems(tail, acc[x.key := v]);
      ParseItems(ItemBytes(x) + tail, acc) == if r.None? then None else Some((r.value.0, |ItemBytes(x)| + r.value.1))
  {
    hide Fill, Parse, BE16, U16BE, ParseItems;
    var n: u16 := |x.key|;
    assert ToU16(|x.key|) == n;
    var f := Fill(x.val);
    var b := ItemBytes(x) + tail;
    assert b == BE16(n) + (x.key + (f + tail));
    ReadBack16(n, x.key + (f + tail));
    assert b[2..2 + n] == x.key && b[2 + n..] == f + tail;
    assert (f + tail)[|f|..] == tail && b[2 + n + |f|..] == tail;
    ItemParsed(b, acc, n, v, |f|);
  }

  lemma ItemParsed(b: seq<byte>, acc: map<Key, Val>, len: nat, v: Val, n: nat)
    requires |b| >= 2 + len && U16BE(b) == len > 0 && Parse(b[2 + len..]) == Some((v, n))
    ensures var r := ParseItems(b[2 + len + n..], acc[b[2..2 + len] := v]);
      ParseItems(b, acc) == if r.None? then None else Some((r.value.0, 2 + len + n + r.value.1))
  {
    hide Parse, U16BE;
  }

  lemma ObjectReadsBack(items: seq<Item>, rest: seq<byte>)
    requires ParseItems(FillItems(items, true) + ([0, 0] + ([9] + rest)), ReadMap(map[])) ==
      Some((ReadMap(Values(items, map[])), |FillItems(items, true)| + 2))
    ensures Parse(Fill(WObject(items)) + rest) == Some((Read(Value(WObject(items))), |Fill(WObject(items))|))
  {
    hide FillItems, ParseItems, Values;
    assert ReadMap(map[]) == map[];
    var b := Fill(WObject(items)) + rest;
    assert b[1..] == FillItems(items, true) + ([0, 0] + ([9] + rest));
  }

  lemma EcmaReadsBack(items: seq<Item>, rest: seq<byte>)
    requires ParseItems(FillItems(items, false) + ([0, 0] + ([9] + rest)), ReadMap(map[])) ==
      Some((ReadMap(Values(items, map[])), |FillItems(items, false)| + 2))
    ensures Parse(Fill(WEcma(items)) + rest) == Some((Read(Value(WEcma(items))), |Fill(WEcma(items))|))
  {
    hide FillItems, ParseItems, Values, BE32;
    assert ReadMap(map[]) == map[];
    var b := Fill(WEcma(items)) + rest;
    assert b[5..] == FillItems(items, false) + ([0, 0] + ([9] + rest));
  }

  lemma ArrayReadsBack(vs: seq<Walk>, rest: seq<byte>)
    requires |vs| < TWO32
    requires ParseVals(FillVals(vs) + rest, |vs|) == Some((ReadVals(vs), |FillVals(vs)|))
    ensures Parse(Fill(WArray(vs)) + rest) == Some((Read(Value(WArray(vs))), |Fill(WArray(vs))|))
  {
    hide FillVals, ParseVals, BE32, U32BE, ReadVals;
    var n: u32 := |vs|;
    assert ToU32(|vs|) == n;
    var b := Fill(WArray(vs)) + rest;
    assert b[1..] == BE32(n) + (FillVals(vs) + rest);
    ReadBack32(n, FillVals(vs) + rest);
    assert b[5..] == FillVals(vs) + rest;
    ReadValsAre(vs);
  }

  function ReadVals(vs: seq<Walk>): (r: seq<Val>)
    ensures |r| == |vs|
  {
    if vs == [] then [] else [Read(Value(vs[0]))] + ReadVals(vs[1..])
  }

  lemma ReadValsAre(vs: seq<Walk>)
    ensures Read(Value(WArray(vs))) == Array(ReadVals(vs))
  {
    var r := Read(Value(WArray(vs)));
    forall i | 0 <= i < |vs|
      ensures r.vs[i] == ReadVals(vs)[i]
    {
      ReadValAt(vs, i);
    }
    assert r.vs == ReadVals(vs);
  }

  lemma {:induction false} ReadValAt(vs: seq<Walk>, i: nat)
    requires i < |vs|
    ensures ReadVals(vs)[i] == Read(Value(vs[i]))
  {
    hide Read, Value;
    if i > 0 {
      ReadValAt(vs[1..], i - 1);
    }
  }

  lemma {:induction false} ValsReadBack(w: Walk, vs: seq<Walk>, rest: seq<byte>)
    requires ValsFit(vs) && w.WArray? && (forall x <- vs :: x in w.vs)
    ensures ParseVals(FillVals(vs) + rest, |vs|) == Some((ReadVals(vs), |FillVals(vs)|))
    decreases w, vs
  {
    hide Fill, Parse, Fits, Value, Read;
    if vs == [] {
    } else {
      var x, more := vs[0], vs[1..];
      assert x in w.vs;
      assert FillVals(vs) + rest == Fill(x) + (FillVals(more) + rest);
      ReadsBack(x, FillVals(more) + rest);
      ValsReadBack(w, more, rest);
      assert (Fill(x) + (FillVals(more) + rest))[|Fill(x)|..] == FillVals(more) + rest;
    }
  }

  // Parsing, step by step.

  /** Any bytes at all: the parser comes to an end, with the value the specification gives. */
  method ParseAMF0Val(b: seq<byte>) returns (r: Option<(Val, nat)>)
    ensures r == Parse(b)
    decreases |b|, 0
  {
    hide U64BE, U32BE, U16BE, ParseItems, ParseVals;
    var n := 0;
    if |b| < n + 1 {
      return None;
    }
    var marker := b[n];
    n := n + 1;
    match marker {
      case 0 =>
        if |b| < n + 8 {
          return None;
        }
        return Some((Number(U64BE(b[n..])), n + 8));
      case 1 =>
        if |b| < n + 1 {
          return None;
        }
        return Some((Boolean(b[n] != 0), n + 1));
      case 2 =>
        if |b| < n + 2 {
          return None;
        }
        var length: nat := U16BE(b[n..]);
        n := n + 2;
        if |b| < n + length {
          return None;
        }
        return Some((String(b[n..n + length]), n + length));
      case 3 =>
        var entries := ParseEntries(b[n..]);
        if entries.None? {
          return None;
        }
        n := n + entries.value.1;
        if |b| < n + 1 {
          return None;
        }
        return Some((Object(entries.value.0), n + 1));
      case 5 =>
        return Some((Null, n));
      case 6 =>
        return Some((Null, n));
      case 8 =>
        if |b| < n + 4 {
          return None;
        }
        n := n + 4;
        var entries := ParseEntries(b[n..]);
        if entries.None? {
          return None;
        }
        n := n + entries.value.1;
        if |b| < n + 1 {
          return None;
        }
        return Some((Object(entries.value.0), n + 1));
      case 9 =>
        if |b| < n + 3 {
          return None;
        }
        return Some((Null, n + 3));
      case 10 =>
        if |b| < n + 4 {
          return None;
        }
        var count: nat := U32BE(b[n..]);
        n := n + 4;
        var vals := ParseElements(b[n..], count);
        if vals.None? {
          return None;
        }
        return Some((Array(vals.value.0), n + vals.value.1));
      case 11 =>
        if |b| < n + 8 + 2 {
          return None;
        }
        return Some((Date(U64BE(b[n..])), n + 8 + 2));
      case 12 =>
        if |b| < n + 4 {
          return None;
        }
        var length: nat := U32BE(b[n..]);
        n := n + 4;
        if |b| < n + length {
          return None;
        }
        return Some((String(b[n..n + length]), n + length));
      case _ =>
        return None;
    }
  }

  function Later<T>(r: Option<(T, nat)>, n: nat): Option<(T, nat)> {
    if r.None? then None else Some((r.value.0, n + r.value.1))
  }

  method ParseEntries(b: seq<byte>) returns (r: Option<(map<Key, Val>, nat)>)
    ensures r == ParseItems(b, map[])
    decreases |b|, 1
  {
    hide ParseItems, Parse, U16BE;
    var obj: map<Key, Val>, n := map[], 0;
    assert b[0..] == b;
    while true
      invariant n <= |b| && ParseItems(b, map[]) == Later(ParseItems(b[n..], obj), n)
      decreases |b| - n
    {
      NextEntry(b, n, obj);
      if |b| < n + 2 {
        return None;
      }
      var length: nat := U16BE(b[n..]);
      n := n + 2;
      if length == 0 {
        return Some((obj, n));
      }
      if |b| < n + length {
        return None;
      }
      var okey := b[n..n + length];
      n := n + length;
      var val := ParseAMF0Val(b[n..]);
      if val.None? {
        return None;
      }
      n := n + val.value.1;
      obj := obj[okey := val.value.0];
    }
  }

  lemma NextEntry(b: seq<byte>, n: nat, obj: map<Key, Val>)
    requires n <= |b|
    ensures |b| < n + 2 ==> ParseItems(b[n..], obj) == None
    ensures |b| >= n + 2 ==> EntryStep(b, n, obj, n + 2 + U16BE(b[n..]) as nat)
  {
    hide Parse, U16BE, ParseItems;
    EntryParsed(b[n..], obj);
    if |b| >= n + 2 {
      var length: nat := U16BE(b[n..]);
      var at := n + 2 + length;
      if length > 0 && at <= |b| {
        Slices(b, n, 2, 2 + length);
        var val := Parse(b[at..]);
        if val.Some? {
          Slices(b, n, 2, 2 + length + val.value.1);
        }
      }
    }
  }

  ghost predicate EntryStep(b: seq<byte>, n: nat, obj: map<Key, Val>, at: nat)
    requires n + 2 <= at && n + 2 <= |b|
  {
    if at == n + 2 then ParseItems(b[n..], obj) == Some((obj, 2))
    else if |b| < at || Parse(b[at..]).None? then ParseItems(b[n..], obj) == None
    else
      var (v, k) := Parse(b[at..]).value;
      at + k <= |b| && ParseItems(b[n..], obj) == Later(ParseItems(b[at + k..], obj[b[n + 2..at] := v]), at - n + k)
  }

  lemma Slices(b: seq<byte>, n: nat, i: nat, j: nat)
    requires n + i <= n + j <= |b|
    ensures b[n..][i..j] == b[n + i..n + j] && b[n..][j..] == b[n + j..]
  {
  }

  lemma EntryParsed(b: seq<byte>, acc: map<Key, Val>)
    ensures |b| < 2 ==> ParseItems(b, acc) == None
    ensures |b| >= 2 && U16BE(b) == 0 ==> ParseItems(b, acc) == Some((acc, 2))
    ensures |b| >= 2 && U16BE(b) > 0 ==> (var at := 2 + U16BE(b) as nat;
      if |b| < at || Parse(b[at..]).None? then ParseItems(b, acc) == None
      else (var (v, k) := Parse(b[at..]).value; ParseItems(b, acc) == Later(ParseItems(b[at + k..], acc[b[2..at] := v]), at + k)))
  {
    hide Parse, U16BE;
  }

  method ParseElements(b: seq<byte>, count: nat) returns (r: Option<(seq<Val>, nat)>)
    ensures r == ParseVals(b, count)
    decreases |b|, 1
  {
    hide ParseVals, Parse;
    var vs: seq<Val>, n: nat := [], 0;
    assert b[0..] == b;
    NextElement(b, 0, count, vs);
    for i := 0 to count
      invariant n <= |b| && ParseVals(b, count) == More(vs, n, ParseVals(b[n..], count - i))
    {
      NextElement(b, n, count - i, vs);
      var val := ParseAMF0Val(b[n..]);
      if val.None? {
        return None;
      }
      n := n + val.value.1;
      vs := vs + [val.value.0];
    }
    NextElement(b, n, 0, vs);
    r := Some((vs, n));
  }

  function More(vs: seq<Val>, n: nat, r: Option<(seq<Val>, nat)>): Option<(seq<Val>, nat)> {
    if r.None? then None else Some((vs + r.value.0, n + r.value.1))
  }

  lemma NextElement(b: seq<byte>, n: nat, count: nat, vs: seq<Val>)
    requires n <= |b|
    ensures More([], 0, ParseVals(b[n..], count)) == ParseVals(b[n..], count)
    ensures count == 0 ==> More(vs, n, ParseVals(b[n..], count)) == Some((vs, n))
    ensures count > 0 && Parse(b[n..]).None? ==> ParseVals(b[n..], count) == None
    ensures count > 0 && Parse(b[n..]).Some? ==> (var (v, k) := Parse(b[n..]).value;
      n + k <= |b| &&
      More(vs, n, ParseVals(b[n..], count)) == More(vs + [v], n + k, ParseVals(b[n + k..], count - 1)))
  {
    hide Parse;
    var now := ParseVals(b[n..], count);
    if now.Some? {
      assert [] + now.value.0 == now.value.0;
    }
    if count == 0 {
      assert vs + [] == vs;
    } else {
      var val := Parse(b[n..]);
      if val.Some? {
        var k := val.value.1;
        assert b[n..][k..] == b[n + k..];
        var next := ParseVals(b[n + k..], count - 1);
        if next.Some? {
          assert vs + [val.value.0] + next.value.0 == vs + ([val.value.0] + next.value.0);
        }
      }
    }
  }

  // The length does not depend on the order either.

  ghost function Total(lens: map<Key, nat>): nat
    decreases |lens|
  {
    if lens == map[] then 0
    else
      var k :| k in lens;
      lens[k] + Total(lens - {k})
  }

  /** Any entry may be counted first. */
  lemma {:induction false} TotalWithout(lens: map<Key, nat>, k: Key)
    requires k in lens
    ensures Total(lens) == lens[k] + Total(lens - {k})
    decreases |lens|
  {
    var j :| j in lens && Total(lens) == lens[j] + Total(lens - {j});
    if j != k {
      TotalWithout(lens - {j}, k);
      TotalWithout(lens - {k}, j);
      assert lens - {j} - {k} == lens - {k} - {j};
    }
  }

  ghost function LenOf(v: Val): nat {
    match v
    case Number(_) => 9
    case Boolean(_) => 2
    case String(s) => (if |s| <= 65536 then 3 else 5) + |s|
    case Object(m) => 1 + Total(map k | k in m && k != [] :: 2 + |k| + LenOf(m[k])) + 3
    case Ecma(m) => 5 + Total(map k | k in m :: 2 + |k| + LenOf(m[k])) + 3
    case Array(vs) => 5 + SumLens(vs)
    case Null => 1
    case Date(_) => 11
  }

  ghost function SumLens(vs: seq<Val>): nat {
    if vs == [] then 0 else LenOf(vs[0]) + SumLens(vs[1..])
  }

  ghost function Lens(m: map<Key, Val>, skip: bool): map<Key, nat> {
    map k | k in m && !(skip && k == []) :: 2 + |k| + LenOf(m[k])
  }

  /** Walks of real maps meet every key once. */
  predicate Once(w: Walk) {
    match w
    case WObject(items) => ItemsOnce(items)
    case WEcma(items) => ItemsOnce(items)
    case WArray(vs) => ValsOnce(vs)
    case _ => true
  }

  predicate ItemsOnce(items: seq<Item>) {
    items == [] || ((forall x <- items[1..] :: x.key != items[0].key) && Once(items[0].val) && ItemsOnce(items[1..]))
  }

  predicate ValsOnce(vs: seq<Walk>) {
    vs == [] || (Once(vs[0]) && ValsOnce(vs[1..]))
  }

  /** In whatever order maps are walked, the bytes written are as many as the value alone calls for; so measuring in one
      order and writing in another agree. */
  lemma {:induction false} LengthIsOfValue(w: Walk)
    requires Once(w)
    ensures |Fill(w)| == LenOf(Value(w))
    decreases w
  {
    hide FillItems, FillVals, Values, Total, Lens;
    match w
    case WObject(items) =>
      ItemsLength(w, items, true, map[]);
      EmptyTotal(true);
      ObjectLength(Values(items, map[]));
    case WEcma(items) =>
      ItemsLength(w, items, false, map[]);
      EmptyTotal(false);
      EcmaLength(Values(items, map[]));
    case WArray(vs) =>
      ValsLength(w, vs);
      ValuesAre(vs);
    case _ =>
  }

  lemma ObjectLength(m: map<Key, Val>)
    ensures LenOf(Object(m)) == 4 + Total(Lens(m, true))
  {
    hide Total;
    var lens := map k | k in m && k != [] :: 2 + |k| + LenOf(m[k]);
    assert LenOf(Object(m)) == 1 + Total(lens) + 3;
    assert lens == Lens(m, true);
  }

  lemma EcmaLength(m: map<Key, Val>)
    ensures LenOf(Ecma(m)) == 8 + Total(Lens(m, false))
  {
    hide Total;
    var lens := map k | k in m :: 2 + |k| + LenOf(m[k]);
    assert LenOf(Ecma(m)) == 5 + Total(lens) + 3;
    assert lens == Lens(m, false);
  }

  lemma EmptyTotal(skip: bool)
    ensures Total(Lens(map[], skip)) == 0
  {
    assert Lens(map[], skip) == map[];
  }

  lemma {:induction false} ItemsLength(w: Walk, items: seq<Item>, skip: bool, acc: map<Key, Val>)
    requires ItemsOnce(items) && (w.WObject? || w.WEcma?) && (forall x <- items :: x in w.items)
    requires forall x <- items :: x.key !in acc
    ensures Total(Lens(Values(items, acc), skip)) == Total(Lens(acc, skip)) + |FillItems(items, skip)|
    decreases w, items
  {
    hide Fill, Value, LenOf, Total, Lens, Once;
    if items != [] {
      var x, more := items[0], items[1..];
      assert x in w.items && x.key !in acc;
      LengthIsOfValue(x.val);
      OneMore(acc, x.key, Value(x.val), skip);
      ItemsLength(w, more, skip, acc[x.key := Value(x.val)]);
    }
  }

  lemma OneMore(acc: map<Key, Val>, k: Key, v: Val, skip: bool)
    requires k !in acc
    ensures Total(Lens(acc[k := v], skip)) == Total(Lens(acc, skip))
        + (if skip && k == [] then 0 else 2 + |k| + LenOf(v))
  {
    hide Total, LenOf, Lens;
    LensExtends(acc, k, v, skip);
    if !(skip && k == []) {
      TotalWithout(Lens(acc[k := v], skip), k);
    }
  }

  lemma LensExtends(acc: map<Key, Val>, k: Key, v: Val, skip: bool)
    requires k !in acc
    ensures skip && k == [] ==> Lens(acc[k := v], skip) == Lens(acc, skip)
    ensures !(skip && k == []) ==> var now := Lens(acc[k := v], skip);
      k in now && now[k] == 2 + |k| + LenOf(v) && now - {k} == Lens(acc, skip)
  {
    hide LenOf, Lens;
    var next := acc[k := v];
    var now, was := Lens(next, skip), Lens(acc, skip);
    LensHas(next, skip, k);
    forall j
      ensures j in now - {k} <==> j in was
      ensures j in was ==> now[j] == was[j]
    {
      LensHas(next, skip, j);
      LensHas(acc, skip, j);
    }
    if skip && k == [] {
      assert now - {k} == now;
    }
    assert now - {k} == was;
  }

  lemma LensHas(m: map<Key, Val>, skip: bool, k: Key)
    ensures k in Lens(m, skip) <==> k in m && !(skip && k == [])
    ensures k in Lens(m, skip) ==> Lens(m, skip)[k] == 2 + |k| + LenOf(m[k])
  {
    hide LenOf;
  }

  lemma {:induction false} ValsLength(w: Walk, vs: seq<Walk>)
    requires ValsOnce(vs) && w.WArray? && (forall x <- vs :: x in w.vs)
    ensures |FillVals(vs)| == SumLens(ListValues(vs))
    decreases w, vs
  {
    hide Fill, Value, LenOf, Once;
    if vs != [] {
      assert vs[0] in w.vs;
      LengthIsOfValue(vs[0]);
      ValsLength(w, vs[1..]);
      assert ListValues(vs)[1..] == ListValues(vs[1..]);
    }
  }

  function ListValues(vs: seq<Walk>): (r: seq<Val>)
    ensures |r| == |vs|
  {
    if vs == [] then [] else [Value(vs[0])] + ListValues(vs[1..])
  }

  lemma ValuesAre(vs: seq<Walk>)
    ensures Value(WArray(vs)) == Array(ListValues(vs))
  {
    var r := Value(WArray(vs));
    forall i | 0 <= i < |vs|
      ensures r.vs[i] == ListValues(vs)[i]
    {
      ListValueAt(vs, i);
    }
    assert r.vs == ListValues(vs);
  }

  lemma {:induction false} ListValueAt(vs: seq<Walk>, i: nat)
    requires i < |vs|
    ensures ListValues(vs)[i] == Value(vs[i])
  {
    hide Value;
    if i > 0 {
      ListValueAt(vs[1..], i - 1);
    }
  }
}
