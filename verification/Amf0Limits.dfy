/** Which AMF0 values are read back at all (format/flv/flvio/amf0.go): the exact condition for values without counted
    maps, and what an empty key does to those. */
module Amf0Limits {
  import opened Bytes
  import opened Amf0

  /** What can come out of the parser in as many bytes as the writer uses: lengths that fit their fields. */
  ghost predicate Holds(v: Val) {
    match v
    case String(s) => |s| < TWO32 && |s| != 65536
    case Object(m) => forall k <- m :: 0 < |k| < 0x1_0000 && Holds(m[k])
    case Ecma(m) => false
    case Array(vs) => |vs| < TWO32 && forall i :: 0 <= i < |vs| ==> Holds(vs[i])
    case _ => true
  }

  ghost predicate MapHolds(m: map<Key, Val>) {
    forall k <- m :: 0 < |k| < 0x1_0000 && Holds(m[k])
  }

  ghost predicate SeqHolds(vs: seq<Val>) {
    forall i :: 0 <= i < |vs| ==> Holds(vs[i])
  }

  ghost function Cost(m: map<Key, Val>): nat { Total(Lens(m, true)) }

  /** Putting an entry into a map adds at most its own length. */
  lemma EntryCost(acc: map<Key, Val>, k: Key, v: Val)
    requires k != []
    ensures Cost(acc[k := v]) <= Cost(acc) + 2 + |k| + LenOf(v)
  {
    hide Total, LenOf, Lens;
    var was, now := Lens(acc, true), Lens(acc[k := v], true);
    LensHas(acc[k := v], true, k);
    TotalWithout(now, k);
    forall j
      ensures j in now - {k} <==> j in was - {k}
      ensures j in was - {k} ==> (now - {k})[j] == (was - {k})[j]
    {
      LensHas(acc[k := v], true, j);
      LensHas(acc, true, j);
    }
    assert now - {k} == was - {k};
    if k in was {
      TotalWithout(was, k);
    } else {
      assert was - {k} == was;
    }
  }

  /** A value never has a longer form than the bytes it was read from; if it has one as long, all its lengths fit. */
  ghost predicate Costs(v: Val, n: nat) {
    LenOf(v) <= n && (LenOf(v) == n ==> Holds(v))
  }

  lemma {:induction false} ParseCosts(b: seq<byte>)
    ensures Parse(b).Some? ==> Costs(Parse(b).value.0, Parse(b).value.1)
    decreases |b|, 0
  {
    hide ParseItems, ParseVals, LenOf, Holds, U64BE;
    var r := Parse(b);
    if r.Some? {
      if b[0] == 3 {
        ItemsCost(b[1..], map[]);
        ObjectCost(ParseItems(b[1..], map[]).value.0);
      } else if b[0] == 8 {
        ItemsCost(b[5..], map[]);
        ObjectCost(ParseItems(b[5..], map[]).value.0);
      } else if b[0] == 10 {
        ValsCost(b[5..], U32BE(b[1..]));
        ArrayCost(r.value.0.vs);
      } else {
        LeafCost(r.value.0);
      }
    }
  }

  lemma LeafCost(v: Val)
    requires !v.Object? && !v.Ecma? && !v.Array?
    ensures v.String? ==> LenOf(v) == (if |v.s| <= 65536 then 3 else 5) + |v.s|
    ensures v.String? ==> (Holds(v) <==> |v.s| < TWO32 && |v.s| != 65536)
    ensures v.Number? ==> LenOf(v) == 9
    ensures v.Boolean? ==> LenOf(v) == 2
    ensures v.Null? ==> LenOf(v) == 1
    ensures v.Date? ==> LenOf(v) == 11
    ensures !v.String? ==> Holds(v)
  {
  }

  lemma ObjectCost(m: map<Key, Val>)
    ensures LenOf(Object(m)) == 4 + Cost(m)
    ensures Holds(Object(m)) <==> MapHolds(m)
    ensures Cost(map[]) == 0
  {
    hide Total, Lens;
    ObjectLength(m);
    EmptyTotal(true);
  }

  lemma ArrayCost(vs: seq<Val>)
    ensures LenOf(Array(vs)) == 5 + SumLens(vs)
    ensures Holds(Array(vs)) <==> |vs| < TWO32 && SeqHolds(vs)
  {
  }

  lemma {:induction false} ItemsCost(b: seq<byte>, acc: map<Key, Val>)
    ensures ParseItems(b, acc).Some? ==>
      var (m, n) := ParseItems(b, acc).value;
      && Cost(m) + 2 <= Cost(acc) + n
      && (Cost(m) + 2 == Cost(acc) + n && MapHolds(acc) ==> MapHolds(m))
    decreases |b|, 1
  {
    hide Parse, ParseItems, LenOf, Holds, Cost, MapHolds, U16BE;
    if ParseItems(b, acc).Some? {
      ItemsUnfold(b, acc);
      var len: nat := U16BE(b);
      if len > 0 {
        var k := b[2..2 + len];
        var (v, n) := Parse(b[2 + len..]).value;
        ParseCosts(b[2 + len..]);
        EntryCost(acc, k, v);
        ItemsCost(b[2 + len + n..], acc[k := v]);
        if MapHolds(acc) && Holds(v) {
          EntryHolds(acc, k, v);
        }
      }
    }
  }

  lemma ItemsUnfold(b: seq<byte>, acc: map<Key, Val>)
    requires ParseItems(b, acc).Some?
    ensures |b| >= 2 && (U16BE(b) == 0 ==> ParseItems(b, acc) == Some((acc, 2)))
    ensures U16BE(b) > 0 ==>
      var len := U16BE(b) as nat;
      && 2 + len <= |b| && Parse(b[2 + len..]).Some?
      && var (v, n) := Parse(b[2 + len..]).value;
         && 2 + len + n <= |b|
         && var more := ParseItems(b[2 + len + n..], acc[b[2..2 + len] := v]);
            more.Some? && ParseItems(b, acc) == Some((more.value.0, 2 + len + n + more.value.1))
  {
    hide Parse, U16BE;
  }

  lemma EntryHolds(acc: map<Key, Val>, k: Key, v: Val)
    requires MapHolds(acc) && Holds(v) && 0 < |k| < 0x1_0000
    ensures MapHolds(acc[k := v])
  {
    hide Holds;
  }

  lemma {:induction false} ValsCost(b: seq<byte>, count: nat)
    ensures ParseVals(b, count).Some? ==>
      var (vs, n) := ParseVals(b, count).value;
      SumLens(vs) <= n && (SumLens(vs) == n ==> SeqHolds(vs))
    decreases |b|, 1
  {
    hide Parse, LenOf, Holds;
    if ParseVals(b, count).Some? && count > 0 {
      var (v, n) := Parse(b).value;
      ParseCosts(b);
      ValsCost(b[n..], count - 1);
      var more := ParseVals(b[n..], count - 1).value.0;
      assert ([v] + more)[1..] == more;
    }
  }

  /** No counted map anywhere. */
  ghost predicate Uncounted(v: Val) {
    match v
    case Object(m) => forall k <- m :: Uncounted(m[k])
    case Ecma(m) => false
    case Array(vs) => forall i :: 0 <= i < |vs| ==> Uncounted(vs[i])
    case _ => true
  }

  /** Reading such a value leaves out empty keys only, and they were not written. */
  lemma {:induction false} ReadKeepsLength(v: Val)
    requires Uncounted(v)
    ensures LenOf(Read(v)) == LenOf(v)
  {
    match v
    case Object(m) =>
      ObjectLength(m);
      ObjectLength(ReadMap(m));
      assert Read(v) == Object(ReadMap(m));
      forall k | k in m ensures LenOf(Read(m[k])) == LenOf(m[k]) {
        ReadKeepsLength(m[k]);
      }
      SameLens(m);
    case Array(vs) =>
      ReadKeepsSum(v, vs);
      ReadSeqIs(vs);
    case _ =>
  }

  lemma SameLens(m: map<Key, Val>)
    requires forall k <- m :: LenOf(Read(m[k])) == LenOf(m[k])
    ensures Lens(ReadMap(m), true) == Lens(m, true)
  {
    hide LenOf, Read;
  }

  function ReadSeq(vs: seq<Val>): (r: seq<Val>)
    ensures |r| == |vs| && forall i :: 0 <= i < |vs| ==> r[i] == Read(vs[i])
  {
    if vs == [] then [] else [Read(vs[0])] + ReadSeq(vs[1..])
  }

  lemma ReadSeqIs(vs: seq<Val>)
    ensures Read(Array(vs)) == Array(ReadSeq(vs))
  {
    assert Read(Array(vs)).vs == ReadSeq(vs);
  }

  lemma {:induction false} ReadKeepsSum(v: Val, vs: seq<Val>)
    requires v.Array? && (forall x <- vs :: x in v.vs) && forall i :: 0 <= i < |vs| ==> Uncounted(vs[i])
    ensures SumLens(ReadSeq(vs)) == SumLens(vs)
    decreases v, vs
  {
    hide LenOf, Read, Uncounted;
    if vs != [] {
      assert vs[0] in v.vs;
      ReadKeepsLength(vs[0]);
      ReadKeepsSum(v, vs[1..]);
      assert ReadSeq(vs)[1..] == ReadSeq(vs[1..]);
    }
  }

  /** A walk whose value, as it is read, holds fits its fields. */
  lemma {:induction false} HeldFits(w: Walk)
    requires Once(w) && Uncounted(Value(w)) && Holds(Read(Value(w)))
    ensures Fits(w)
    decreases w
  {
    hide Values, ItemsFit, ValsFit, ItemsOnce, ValsOnce, MapHolds, SeqHolds, LenOf, Cost, SumLens;
    match w
    case WObject(items) =>
      var m := Values(items, map[]);
      assert Read(Value(w)) == Object(ReadMap(m));
      ObjectCost(ReadMap(m));
      ItemsHeld(w, items, map[], m);
    case WArray(vs) =>
      ValuesAre(vs);
      ReadSeqIs(ListValues(vs));
      ArrayCost(ReadSeq(ListValues(vs)));
      ValsHeld(w, vs);
    case WString(_) =>
    case _ =>
  }

  /** Entries that come later, with other keys, leave an entry alone. */
  lemma {:induction false} EntryStays(items: seq<Item>, acc: map<Key, Val>, k: Key)
    requires k in acc && forall x <- items :: x.key != k
    ensures k in Values(items, acc) && Values(items, acc)[k] == acc[k]
    decreases |items|
  {
    hide Value;
    if items != [] {
      assert items[0] in items;
      EntryStays(items[1..], acc[items[0].key := Value(items[0].val)], k);
    }
  }

  lemma {:induction false} ItemsHeld(w: Walk, items: seq<Item>, acc: map<Key, Val>, m: map<Key, Val>)
    requires w.WObject? && (forall x <- items :: x in w.items) && ItemsOnce(items)
    requires m == Values(items, acc) && MapHolds(ReadMap(m)) && forall k <- m :: Uncounted(m[k])
    ensures ItemsFit(items, true)
    decreases w, items
  {
    hide Value, Fits, Uncounted, Holds, Once, Read;
    if items != [] {
      var x, more := items[0], items[1..];
      assert x in w.items;
      var next := acc[x.key := Value(x.val)];
      ItemsHeld(w, more, next, m);
      EntryStays(more, next, x.key);
      if x.key != [] {
        assert x.key in ReadMap(m) && ReadMap(m)[x.key] == Read(Value(x.val));
        HeldFits(x.val);
      }
    }
  }

  lemma {:induction false} ValsHeld(w: Walk, vs: seq<Walk>)
    requires w.WArray? && (forall x <- vs :: x in w.vs) && ValsOnce(vs)
    requires SeqHolds(ReadSeq(ListValues(vs))) && forall i :: 0 <= i < |vs| ==> Uncounted(ListValues(vs)[i])
    ensures ValsFit(vs)
    decreases w, vs
  {
    hide Value, Fits, Uncounted, Holds, Once, Read;
    if vs != [] {
      assert vs[0] in w.vs;
      var all, more := ListValues(vs), ListValues(vs[1..]);
      assert all[0] == Value(vs[0]) && all[1..] == more;
      assert Holds(ReadSeq(all)[0]);
      HeldFits(vs[0]);
      forall i | 0 <= i < |more| ensures Uncounted(more[i]) && Holds(ReadSeq(more)[i]) {
        assert all[i + 1] == more[i];
        assert Holds(ReadSeq(all)[i + 1]);
      }
      ValsHeld(w, vs[1..]);
    }
  }

  /** A value without counted maps, of any depth and in whatever order its maps are walked, is read back with its length
      if and only if every length in it fits its field: keys below 65536 bytes, strings of less than 2^32 but not of
      exactly 65536, arrays of less than 2^32 elements. */
  lemma ReadsBackIff(w: Walk, rest: seq<byte>)
    requires Once(w) && Uncounted(Value(w))
    ensures Parse(Fill(w) + rest) == Some((Read(Value(w)), |Fill(w)|)) <==> Fits(w)
  {
    hide Parse, Fill, Fits, Value, Read, LenOf, Holds, Uncounted, Once;
    if Fits(w) {
      ReadsBack(w, rest);
    } else if Parse(Fill(w) + rest) == Some((Read(Value(w)), |Fill(w)|)) {
      ParseCosts(Fill(w) + rest);
      LengthIsOfValue(w);
      ReadKeepsLength(Value(w));
      HeldFits(w);
      assert false;
    }
  }

  /** A counted map writes its empty key too, which ends it for the reader. If all else fits, it is read back if and only
      if it has none. */
  lemma CountedReadsBackIff(items: seq<Item>, rest: seq<byte>)
    requires ItemsFit(items, true)
    ensures Parse(Fill(WEcma(items)) + rest) == Some((Read(Value(WEcma(items))), |Fill(WEcma(items))|))
      <==> forall x <- items :: x.key != []
  {
    hide Parse, Fill, Fits, Value, Read, ItemsFit;
    if forall x <- items :: x.key != [] {
      NoEmptyKey(items);
      CountedFits(items);
      ReadsBack(WEcma(items), rest);
    } else {
      var i := FirstEmpty(items);
      EndsEarly(items, i, rest);
    }
  }

  lemma CountedFits(items: seq<Item>)
    requires ItemsFit(items, false)
    ensures Fits(WEcma(items))
  {
  }

  lemma {:induction false} NoEmptyKey(items: seq<Item>)
    requires ItemsFit(items, true) && forall x <- items :: x.key != []
    ensures ItemsFit(items, false)
  {
    hide Fits;
    if items != [] {
      assert items[0] in items;
      NoEmptyKey(items[1..]);
    }
  }

  lemma {:induction false} FirstEmpty(items: seq<Item>) returns (i: nat)
    requires ItemsFit(items, true) && exists x <- items :: x.key == []
    ensures i < |items| && items[i].key == [] && ItemsFit(items[..i], false)
  {
    hide Fits;
    if items[0].key == [] {
      i := 0;
    } else {
      var j := FirstEmpty(items[1..]);
      i := j + 1;
      assert items[..i][0] == items[0] && items[..i][1..] == items[1..][..j];
    }
  }

  lemma EndsEarly(items: seq<Item>, i: nat, rest: seq<byte>)
    requires i < |items| && items[i].key == [] && ItemsFit(items[..i], false)
    ensures var f := Fill(WEcma(items));
      Parse(f + rest).Some? && Parse(f + rest).value.1 < |f|
  {
    hide ItemBytes, ParseItems, Parse, FillItems, ItemsFit, Value, ReadMap, Values, BE16, BE32, U32BE;
    var front, tail := items[..i], FillItems(items[i + 1..], false) + OBJECT_END + rest;
    var v := Fill(items[i].val);
    ItemsReadBack(WEcma(front), front, false, map[], v + tail);
    EmptyItem(items[i]);
    SplitAt(items, i);
    var b := Fill(WEcma(items)) + rest;
    NoEntries();
    assert b[5..] == FillItems(front, false) + ([0, 0] + (v + tail));
    CountedParsed(b);
  }

  lemma CountedParsed(b: seq<byte>)
    requires |b| >= 5 && b[0] == 8 && ParseItems(b[5..], map[]).Some?
    ensures var (m, n) := ParseItems(b[5..], map[]).value;
      |b| >= n + 6 ==> Parse(b) == Some((Object(m), n + 6))
  {
    hide ParseItems;
  }

  lemma NoEntries()
    ensures ReadMap(map[]) == map[]
  {
  }

  lemma EmptyItem(x: Item)
    requires x.key == []
    ensures ItemBytes(x) == [0, 0] + Fill(x.val)
  {
    hide Fill;
    assert BE16(0) == [0, 0];
    assert [0, 0] + [] == [0, 0];
  }

  lemma SplitAt(items: seq<Item>, i: nat)
    requires i < |items|
    ensures FillItems(items, false) == FillItems(items[..i], false) + ItemBytes(items[i]) + FillItems(items[i + 1..], false)
  {
    hide ItemBytes, FillItems;
    assert items == items[..i + 1] + items[i + 1..];
    ItemsAppend(items[..i + 1], items[i + 1..], false);
    ItemsNext(items, false, i);
  }

  const LUCKY_BITS: u64 := 0x0001_7008_0000_0000

  /** An object with one entry, p, that is a counted map with one entry, a number with the empty key. */
  function Lucky(): Walk { WObject([Item([0x70], LuckyMap())]) }

  function LuckyMap(): Walk { WEcma([Item([], WNumber(LUCKY_BITS))]) }

  const LUCKY_MAP_BYTES: seq<byte> := [8, 0, 0, 0, 1, 0, 0, 0, 0, 1, 0x70, 8, 0, 0, 0, 0, 0, 0, 9]

  lemma NumberBytes()
    ensures Fill(WNumber(LUCKY_BITS)) == [0, 0, 1, 0x70, 8, 0, 0, 0, 0]
  {
    assert BE64(LUCKY_BITS) == [0, 1, 0x70, 8, 0, 0, 0, 0];
  }

  lemma FillsEcma(x: Item)
    ensures Fill(WEcma([x])) == [8, 0, 0, 0, 1] + ItemBytes(x) + OBJECT_END
  {
    hide ItemBytes;
    OneItem(x, false);
    assert BE32(1) == [0, 0, 0, 1];
  }

  lemma FillsObject(x: Item)
    requires x.key != []
    ensures Fill(WObject([x])) == [3] + ItemBytes(x) + OBJECT_END
  {
    hide ItemBytes;
    OneItem(x, true);
  }

  lemma LuckyMapWritten()
    ensures Fill(LuckyMap()) == LUCKY_MAP_BYTES
  {
    hide Fill, ItemBytes;
    var x := Item([], WNumber(LUCKY_BITS));
    NumberBytes();
    EmptyItem(x);
    FillsEcma(x);
  }

  lemma LuckyWritten()
    ensures Fill(Lucky()) == [3, 0, 1, 0x70] + LUCKY_MAP_BYTES + OBJECT_END
  {
    hide Fill;
    var x := Item([0x70], LuckyMap());
    LuckyMapWritten();
    FillsObject(x);
    assert BE16(1) == [0, 1];
  }

  lemma LuckyValue()
    ensures Read(Value(Lucky())) == Object(map[[0x70] := Object(map[])])
  {
    var inner, outer := [Item([], WNumber(LUCKY_BITS))], [Item([0x70], LuckyMap())];
    var m: map<Key, Val> := map[[] := Number(LUCKY_BITS)];
    assert inner[1..] == [] && outer[1..] == [];
    assert Values(inner, map[]) == m;
    assert Value(LuckyMap()) == Ecma(m);
    assert Values(outer, map[]) == map[[0x70] := Ecma(m)];
    assert Read(Ecma(m)).m == map[];
    assert Read(Object(map[[0x70] := Ecma(m)])).m == map[[0x70] := Object(map[])];
  }

  lemma EmptyMapParsed(b: seq<byte>)
    requires |b| >= 8 && b[0] == 8 && b[5] == 0 && b[6] == 0
    ensures Parse(b) == Some((Object(map[]), 8))
  {
    assert U16BE(b[5..]) == 0;
  }

  lemma KeyThere(b: seq<byte>)
    requires |b| >= 3 && b[0] == 0 && b[1] == 1
    ensures U16BE(b) == 1
  {
  }

  lemma NothingMore(b: seq<byte>, acc: map<Key, Val>)
    requires |b| >= 2 && b[0] == 0 && b[1] == 0
    ensures ParseItems(b, acc) == Some((acc, 2))
  {
  }

  /** One entry p, an empty map of 8 bytes. */
  predicate IsEmptyEntry(b: seq<byte>, at: nat) {
    && |b| >= at + 11 && b[at] == 0 && b[at + 1] == 1 && b[at + 2] == 0x70 && b[at + 3] == 8
    && b[at + 8] == 0 && b[at + 9] == 0
  }

  lemma EmptyEntry(b: seq<byte>, at: nat, acc: map<Key, Val>)
    requires IsEmptyEntry(b, at)
    ensures var r := ParseItems(b[at + 11..], acc[[0x70] := Object(map[])]);
      ParseItems(b[at..], acc) == if r.None? then None else Some((r.value.0, 11 + r.value.1))
  {
    hide Parse, ParseItems, U16BE;
    var c := b[at..];
    KeyThere(c);
    EmptyMapParsed(c[3..]);
    assert c[2..3] == [0x70] && c[11..] == b[at + 11..];
    ItemParsed(c, acc, 1, Object(map[]), 8);
  }

  lemma ObjectParsed(b: seq<byte>)
    requires |b| > 0 && b[0] == 3 && ParseItems(b[1..], map[]).Some?
    ensures var (m, n) := ParseItems(b[1..], map[]).value;
      |b| >= n + 2 ==> Parse(b) == Some((Object(m), n + 2))
  {
    hide ParseItems;
  }

  lemma LuckyLayout(b: seq<byte>)
    requires b == [3, 0, 1, 0x70] + LUCKY_MAP_BYTES + OBJECT_END
    ensures |b| == 26 && b[0] == 3 && IsEmptyEntry(b, 1) && IsEmptyEntry(b, 12) && b[23] == 0 && b[24] == 0
  {
  }

  lemma LuckyParsed(b: seq<byte>)
    requires |b| == 26 && b[0] == 3 && IsEmptyEntry(b, 1) && IsEmptyEntry(b, 12) && b[23] == 0 && b[24] == 0
    ensures Parse(b) == Some((Object(map[[0x70] := Object(map[])]), |b|))
  {
    hide Parse, ParseItems, IsEmptyEntry;
    var m: map<Key, Val> := map[[0x70] := Object(map[])];
    EmptyEntry(b, 1, map[]);
    EmptyEntry(b, 12, m);
    assert map[][[0x70] := Object(map[])] == m && m[[0x70] := Object(map[])] == m;
    NothingMore(b[23..], m);
    ObjectParsed(b);
  }

  lemma LuckyDoesNotFit()
    ensures !Fits(Lucky())
  {
    assert !ItemsFit([Item([], WNumber(LUCKY_BITS))], false);
    assert !Fits(LuckyMap());
  }

  /** Deeper inside, luck can repair the damage: here the entry behind the empty key reads as the very map that was cut
      short, so that everything comes out right although a counted map has an empty key. */
  lemma ReadBackByLuck()
    ensures !Fits(Lucky())
    ensures Parse(Fill(Lucky())) == Some((Read(Value(Lucky())), |Fill(Lucky())|))
  {
    hide *;
    LuckyDoesNotFit();
    LuckyWritten();
    LuckyValue();
    LuckyLayout(Fill(Lucky()));
    LuckyParsed(Fill(Lucky()));
  }
}
