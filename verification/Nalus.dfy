/** Splitting H.264 data into NAL units, in length-prefixed (AVCC) and start-code (Annex B of ITU-T H.264) form
    (codec/h264parser). */
module Nalus {
  import opened Bytes

  datatype Framing = Raw | Avcc | AnnexB

  /** Units behind 4-byte lengths, and what is left when the next length does not fit. The remaining length is
      compared as a 32-bit number. */
  function AvccFrom(b: seq<byte>): (seq<seq<byte>>, seq<byte>)
    decreases |b|
  {
    if |b| < 4 then ([], b)
    else
      var val, rest := U32BE(b), b[4..];
      if val > ToU32(|rest|) then ([], rest)
      else
        var (more, left) := AvccFrom(rest[val..]);
        ([rest[..val]] + more, left)
  }

  /** A start code at a position: the length of the code, or 0. */
  function CodeAt(b: seq<byte>, pos: nat): (n: nat)
    ensures n > 0 ==> pos + n <= |b|
  {
    if pos + 2 < |b| && b[pos] == 0 && b[pos + 1] == 0 then
      if b[pos + 2] == 1 then 3
      else if b[pos + 2] == 0 && pos + 3 < |b| && b[pos + 3] == 1 then 4
      else 0
    else 0
  }

  /** The first position from pos on with a start code, or the end. */
  function NextCode(b: seq<byte>, pos: nat): (p: nat)
    requires pos <= |b|
    ensures pos <= p <= |b| && (p < |b| ==> CodeAt(b, p) > 0)
    ensures forall q :: pos <= q < p ==> CodeAt(b, q) == 0
    decreases |b| - pos
  {
    if pos == |b| || CodeAt(b, pos) > 0 then pos else NextCode(b, pos + 1)
  }

  /** Units from start on; an empty stretch between two start codes is no unit. */
  function AnnexFrom(b: seq<byte>, start: nat): seq<seq<byte>>
    requires start <= |b|
    decreases |b| - start
  {
    if start == |b| then []
    else
      var p := NextCode(b, start);
      (if p != start then [b[start..p]] else []) + (if p == |b| then [] else AnnexFrom(b, p + CodeAt(b, p)))
  }

  predicate LooksAvcc(b: seq<byte>) {
    |b| >= 4 && U32BE(b) <= ToU32(|b|) && AvccFrom(b).1 == []
  }

  function Split(b: seq<byte>): (seq<seq<byte>>, Framing) {
    if |b| < 4 then ([b], Raw)
    else if LooksAvcc(b) then (AvccFrom(b).0, Avcc)
    else if U24BE(b) == 1 then (AnnexFrom(b, 3), AnnexB)
    else if U32BE(b) == 1 then (AnnexFrom(b, 4), AnnexB)
    else ([b], Raw)
  }

  /** Scans a buffer for its framing and returns its units. */
  method SplitNALUs(b: seq<byte>) returns (nalus: seq<seq<byte>>, typ: Framing)
    ensures (nalus, typ) == Split(b)
  {
    if |b| < 4 {
      return [b], Raw;
    }
    var val3, val4 := U24BE(b), U32BE(b);
    if val4 <= ToU32(|b|) {
      var units, left := ScanAvcc(b);
      if |left| == 0 {
        return units, Avcc;
      }
    }
    if val3 == 1 || val4 == 1 {
      nalus := ScanAnnexB(b, val3 as int, val4 as int);
      return nalus, AnnexB;
    }
    return [b], Raw;
  }

  method ScanAvcc(b: seq<byte>) returns (nalus: seq<seq<byte>>, left: seq<byte>)
    requires |b| >= 4
    ensures (nalus, left) == AvccFrom(b)
  {
    var val4: nat := U32BE(b);
    left := b[4..];
    nalus := [];
    AvccNext(b, []);
    assert [] + AvccFrom(b).0 == AvccFrom(b).0;
    while true
      invariant AvccFrom(b) ==
        if val4 > ToU32(|left|) then (nalus, left)
        else (nalus + [left[..val4]] + AvccFrom(left[val4..]).0, AvccFrom(left[val4..]).1)
      decreases |left|
    {
      if val4 > ToU32(|left|) {
        break;
      }
      nalus := nalus + [left[..val4]];
      left := left[val4..];
      AvccNext(left, nalus);
      if |left| < 4 {
        break;
      }
      val4 := U32BE(left);
      left := left[4..];
      if val4 > ToU32(|left|) {
        break;
      }
    }
  }

  lemma AvccNext(b: seq<byte>, before: seq<seq<byte>>)
    ensures |b| < 4 ==> (before + AvccFrom(b).0, AvccFrom(b).1) == (before, b)
    ensures |b| >= 4 ==> var val, rest := U32BE(b) as nat, b[4..];
      (before + AvccFrom(b).0, AvccFrom(b).1) ==
      if val > ToU32(|rest|) then (before, rest)
      else (before + [rest[..val]] + AvccFrom(rest[val..]).0, AvccFrom(rest[val..]).1)
  {
    assert before + [] == before;
    if |b| >= 4 && U32BE(b) <= ToU32(|b[4..]|) {
      var val, rest := U32BE(b) as nat, b[4..];
      assert before + ([rest[..val]] + AvccFrom(rest[val..]).0) == before + [rest[..val]] + AvccFrom(rest[val..]).0;
    }
  }

  /** Start codes are recognised by their last bytes; the two values keep what the last test saw. */
  method ScanAnnexB(b: seq<byte>, first3: int, first4: int) returns (nalus: seq<seq<byte>>)
    requires |b| >= 4 && (first3 == 1 || first4 == 1)
    ensures nalus == AnnexFrom(b, if first3 == 1 then 3 else 4)
  {
    hide AnnexFrom, NextCode, U24BE, U32BE, CodeAt, Stretch;
    var val3, val4, start, pos := first3, first4, 0, 0;
    nalus := [];
    ghost var whole := AnnexFrom(b, if first3 == 1 then 3 else 4);
    StretchEmpty(b, 0, nalus);
    while true
      invariant start <= pos <= |b|
      invariant pos + CodeLength(val3, val4) <= |b|
      invariant CodeLength(val3, val4) == 0 ==> pos == |b|
      invariant whole == nalus + Stretch(b, start, pos) + Beyond(b, pos, CodeLength(val3, val4))
      decreases |b| - start, CodeLength(val3, val4)
    {
      if start != pos {
        nalus := nalus + [b[start..pos]];
      }
      StretchAdded(b, start, pos, nalus);
      if val3 == 1 {
        pos := pos + 3;
      } else if val4 == 1 {
        pos := pos + 4;
      }
      start := pos;
      AnnexNext(b, start, nalus);
      if start == |b| {
        break;
      }
      pos, val3, val4 := FindCode(b, start);
    }
  }

  /** The length of the start code the two values tell of. */
  function CodeLength(val3: int, val4: int): nat {
    if val3 == 1 then 3 else if val4 == 1 then 4 else 0
  }

  /** The unit between two positions, unless it is empty. */
  function Stretch(b: seq<byte>, start: nat, end: nat): seq<seq<byte>>
    requires start <= end <= |b|
  {
    if start != end then [b[start..end]] else []
  }

  /** The units behind a start code of length n. */
  function Beyond(b: seq<byte>, pos: nat, n: nat): seq<seq<byte>>
    requires pos + n <= |b|
  {
    if n == 0 then [] else AnnexFrom(b, pos + n)
  }

  lemma StretchEmpty(b: seq<byte>, start: nat, before: seq<seq<byte>>)
    requires start <= |b|
    ensures before + Stretch(b, start, start) == before
  {
  }

  lemma StretchAdded(b: seq<byte>, start: nat, end: nat, after: seq<seq<byte>>)
    requires start <= end <= |b|
    ensures start == end ==> after + Stretch(b, start, end) == after
    ensures start != end ==> Stretch(b, start, end) == [b[start..end]]
  {
  }

  lemma AnnexNext(b: seq<byte>, start: nat, before: seq<seq<byte>>)
    requires start <= |b|
    ensures start == |b| ==> AnnexFrom(b, start) == [] && before + [] == before
    ensures start < |b| ==> (var p := NextCode(b, start);
      before + AnnexFrom(b, start) == before + Stretch(b, start, p) + Beyond(b, p, CodeAt(b, p)))
  {
    hide NextCode, CodeAt, Stretch, AnnexFrom, Beyond;
    NothingThere(b);
    AtTheEnd(before);
    if start < |b| {
      AnnexUnfold(b, start);
      var p := NextCode(b, start);
      JoinedUnits(before, Stretch(b, start, p), Beyond(b, p, CodeAt(b, p)));
    }
  }

  lemma AtTheEnd(before: seq<seq<byte>>)
    ensures before + [] == before
  {
  }

  lemma JoinedUnits(x: seq<seq<byte>>, y: seq<seq<byte>>, z: seq<seq<byte>>)
    ensures x + (y + z) == x + y + z
  {
  }

  lemma AnnexUnfold(b: seq<byte>, start: nat)
    requires start < |b|
    ensures (var p := NextCode(b, start);
      AnnexFrom(b, start) == Stretch(b, start, p) + Beyond(b, p, CodeAt(b, p)))
  {
    hide NextCode, CodeAt;
    NoCodeAtEnd(b);
  }

  lemma NoCodeAtEnd(b: seq<byte>)
    ensures CodeAt(b, |b|) == 0
  {
  }

  /** Advances to the next start code; on the way the two values take what each position offers. */
  method FindCode(b: seq<byte>, start: nat) returns (pos: nat, val3: int, val4: int)
    requires start < |b|
    ensures pos == NextCode(b, start)
    ensures pos < |b| ==> pos + CodeAt(b, pos) <= |b| && (val3 == 1 || val4 == 1)
    ensures pos < |b| ==> CodeAt(b, pos) == (if val3 == 1 then 3 else 4)
    ensures pos == |b| ==> val3 != 1 && val4 != 1
  {
    pos, val3, val4 := start, 0, 0;
    while pos < |b|
      invariant start <= pos <= |b| && val3 != 1 && val4 != 1
      invariant NextCode(b, start) == NextCode(b, pos)
    {
      if pos + 2 < |b| && b[pos] == 0 {
        val3 := U24BE(b[pos..]);
        if val3 == 0 {
          if pos + 3 < |b| {
            val4 := b[pos + 3];
            if val4 == 1 {
              break;
            }
          }
        } else if val3 == 1 {
          break;
        }
        pos := pos + 1;
      } else {
        pos := pos + 1;
      }
    }
  }

  /** Units behind their 4-byte lengths. */
  function WithLengths(units: seq<seq<byte>>): (b: seq<byte>)
    requires forall u <- units :: |u| < TWO32
  {
    if units == [] then [] else BE32(|units[0]|) + units[0] + WithLengths(units[1..])
  }

  lemma {:induction false} LengthsUndone(units: seq<seq<byte>>)
    requires forall u <- units :: |u| < TWO32
    requires |WithLengths(units)| < TWO32
    ensures AvccFrom(WithLengths(units)) == (units, [])
  {
    hide AvccFrom, BE32;
    if units == [] {
      NothingByLengths();
    } else {
      var u, tail := units[0], WithLengths(units[1..]);
      LengthsUndone(units[1..]);
      LengthFirst(u, tail);
      assert [u] + units[1..] == units;
    }
  }

  lemma LengthFirst(u: seq<byte>, tail: seq<byte>)
    requires |u| + |tail| < TWO32
    ensures var b := BE32(|u|) + u + tail;
      AvccFrom(b) == ([u] + AvccFrom(tail).0, AvccFrom(tail).1)
  {
    hide U32BE, BE32, AvccFrom;
    var b := BE32(|u|) + u + tail;
    assert b == BE32(|u|) + (u + tail);
    ReadBack32(|u|, u + tail);
    assert b[4..] == u + tail;
    LengthTaken(b, u, tail);
  }

  lemma LengthTaken(b: seq<byte>, u: seq<byte>, tail: seq<byte>)
    requires 4 <= |b| && |u| + |tail| < TWO32 && U32BE(b) == |u| && b[4..] == u + tail
    ensures AvccFrom(b) == ([u] + AvccFrom(tail).0, AvccFrom(tail).1)
  {
    hide U32BE;
    assert ToU32(|u| + |tail|) == |u| + |tail|;
    assert (u + tail)[..|u|] == u && (u + tail)[|u|..] == tail;
  }

  /** Length-prefixed units come back as they went in, whatever bytes they hold. */
  lemma LengthPrefixedRecovered(units: seq<seq<byte>>)
    requires units != [] && forall u <- units :: |u| < TWO32
    requires |WithLengths(units)| < TWO32
    ensures Split(WithLengths(units)) == (units, Avcc)
  {
    hide AvccFrom, U32BE, WithLengths;
    LengthsUndone(units);
    FirstLength(units);
  }

  lemma FirstLength(units: seq<seq<byte>>)
    requires units != [] && forall u <- units :: |u| < TWO32
    requires |WithLengths(units)| < TWO32
    ensures var b := WithLengths(units);
      |b| >= 4 && U32BE(b) <= ToU32(|b|)
  {
    hide U32BE, BE32, ToU32;
    LengthLeads(units[0], WithLengths(units[1..]));
  }

  lemma LengthLeads(u: seq<byte>, tail: seq<byte>)
    requires |u| < TWO32 && |BE32(|u|) + u + tail| < TWO32
    ensures var b := BE32(|u|) + u + tail;
      |b| >= 4 && U32BE(b) <= ToU32(|b|)
  {
    hide U32BE, BE32;
    ReadBack32(|u|, u + tail);
    assert BE32(|u|) + u + tail == BE32(|u|) + (u + tail);
  }

  /** A unit and which of the two start codes announces it. */
  datatype Piece = Piece(long: bool, unit: seq<byte>)

  function StartCode(long: bool): (c: seq<byte>)
    ensures |c| == if long then 4 else 3
  {
    if long then [0, 0, 0, 1] else [0, 0, 1]
  }

  function Coded(pieces: seq<Piece>): seq<byte> {
    if pieces == [] then [] else StartCode(pieces[0].long) + pieces[0].unit + Coded(pieces[1..])
  }

  function Bodies(pieces: seq<Piece>): seq<seq<byte>> {
    if pieces == [] then [] else [pieces[0].unit] + Bodies(pieces[1..])
  }

  predicate HasCode(u: seq<byte>, q: nat) {
    q + 2 < |u| && u[q] == 0 && u[q + 1] == 0 && u[q + 2] == 1
  }

  /** What section B.1 of ITU-T H.264 guarantees of a unit: no start code inside, no zero at the end. */
  ghost predicate Clean(u: seq<byte>) {
    u != [] && u[|u| - 1] != 0 && forall q: nat :: !HasCode(u, q)
  }

  ghost predicate AllClean(pieces: seq<Piece>) {
    pieces == [] || (Clean(pieces[0].unit) && AllClean(pieces[1..]))
  }

  /** No start code begins inside a clean unit, whatever follows it. */
  lemma NoCodeInside(b: seq<byte>, start: nat, u: seq<byte>, q: nat)
    requires Clean(u) && start + |u| <= |b| && b[start..start + |u|] == u
    requires start <= q < start + |u|
    ensures CodeAt(b, q) == 0
  {
    var i: nat := q - start;
    assert forall k :: 0 <= k < |u| ==> u[k] == b[start + k];
    assert !HasCode(u, i) && !HasCode(u, i + 1);
  }

  lemma CodeThere(b: seq<byte>, p: nat, long: bool)
    requires p + |StartCode(long)| <= |b| && b[p..p + |StartCode(long)|] == StartCode(long)
    ensures CodeAt(b, p) == |StartCode(long)|
  {
    var c := StartCode(long);
    assert forall k :: 0 <= k < |c| ==> c[k] == b[p + k];
    assert b[p] == c[0] && b[p + 1] == c[1] && b[p + 2] == c[2];
  }

  lemma UnitEnds(b: seq<byte>, start: nat, u: seq<byte>)
    requires Clean(u) && start + |u| <= |b| && b[start..start + |u|] == u
    requires start + |u| == |b| || CodeAt(b, start + |u|) > 0
    ensures NextCode(b, start) == start + |u|
  {
    hide CodeAt, NextCode;
    var p := NextCode(b, start);
    if p < start + |u| {
      NoCodeInside(b, start, u, p);
    }
  }

  lemma {:induction false} UnitsRecovered(b: seq<byte>, start: nat, u: seq<byte>, more: seq<Piece>)
    requires Clean(u) && AllClean(more)
    requires start <= |b| && b[start..] == u + Coded(more)
    ensures AnnexFrom(b, start) == [u] + Bodies(more)
    decreases |more|
  {
    hide CodeAt, NextCode, Clean, AnnexFrom, Coded;
    var end := start + |u|;
    CodeFollows(b, start, u, Coded(more));
    NonEmpty(u);
    CodedUnfold(more);
    if more == [] {
      UnitEnds(b, start, u);
      OneUnit(b, start, u);
    } else {
      var c, v, rest := StartCode(more[0].long), more[0].unit, more[1..];
      CodeFollows(b, end, c, v + Coded(rest));
      CodeThere(b, end, more[0].long);
      UnitEnds(b, start, u);
      UnitsRecovered(b, end + |c|, v, rest);
      OneUnit(b, start, u);
    }
  }

  lemma CodedUnfold(pieces: seq<Piece>)
    ensures pieces == [] ==> Coded(pieces) == []
    ensures pieces != [] ==> Coded(pieces) == StartCode(pieces[0].long) + (pieces[0].unit + Coded(pieces[1..]))
  {
    hide StartCode;
    if pieces != [] {
      assert StartCode(pieces[0].long) + pieces[0].unit + Coded(pieces[1..])
          == StartCode(pieces[0].long) + (pieces[0].unit + Coded(pieces[1..]));
    }
  }

  lemma NonEmpty(u: seq<byte>)
    requires Clean(u)
    ensures u != []
  {
  }

  lemma CodeFollows(b: seq<byte>, end: nat, c: seq<byte>, rest: seq<byte>)
    requires end <= |b| && b[end..] == c + rest
    ensures end + |c| <= |b| && b[end..end + |c|] == c && b[end + |c|..] == rest
  {
    assert b[end..end + |c|] == b[end..][..|c|];
    assert b[end + |c|..] == b[end..][|c|..];
  }

  lemma OneUnit(b: seq<byte>, start: nat, u: seq<byte>)
    requires u != [] && start + |u| <= |b| && b[start..start + |u|] == u
    requires NextCode(b, start) == start + |u|
    ensures start + |u| == |b| ==> AnnexFrom(b, start) == [u]
    ensures start + |u| < |b| ==> (var p := start + |u|;
      AnnexFrom(b, start) == [u] + AnnexFrom(b, p + CodeAt(b, p)))
  {
    hide NextCode, CodeAt;
  }

  /** The streams that can be read both ways and still give the same units: every start code reads as the length 1 of
      the one byte behind it. */
  predicate LikeLengths(pieces: seq<Piece>) {
    forall p <- pieces :: p.long && |p.unit| == 1
  }

  /** A stream of start codes and clean units gives exactly the units back if and only if its bytes do not also read as
      lengths throughout, which is tested first, or all its codes are long and all its units single bytes. */
  lemma StartCodedRecoveredIff(pieces: seq<Piece>)
    requires pieces != [] && AllClean(pieces)
    ensures Split(Coded(pieces)).0 == Bodies(pieces) <==> !LooksAvcc(Coded(pieces)) || LikeLengths(pieces)
    ensures Split(Coded(pieces)).1 == if LooksAvcc(Coded(pieces)) then Avcc else AnnexB
  {
    hide AvccFrom, AnnexFrom, Coded, StartCode, AllClean, Clean, Bodies, LikeLengths;
    var b, c, u, rest := Coded(pieces), StartCode(pieces[0].long), pieces[0].unit, Coded(pieces[1..]);
    FirstIsClean(pieces);
    CodedUnfold(pieces);
    StartsWithCode(c, u + rest, pieces[0].long);
    assert b[|c|..] == u + rest;
    UnitsRecovered(b, |c|, u, pieces[1..]);
    FirstBody(pieces);
    if LooksAvcc(b) {
      SameByLengthsIff(pieces);
    }
  }

  lemma FirstIsClean(pieces: seq<Piece>)
    requires pieces != [] && AllClean(pieces)
    ensures pieces[0].unit != [] && Clean(pieces[0].unit) && AllClean(pieces[1..])
  {
  }

  lemma FirstBody(pieces: seq<Piece>)
    requires pieces != []
    ensures Bodies(pieces) == [pieces[0].unit] + Bodies(pieces[1..])
    ensures LikeLengths(pieces) <==> pieces[0].long && |pieces[0].unit| == 1 && LikeLengths(pieces[1..])
  {
    assert pieces == [pieces[0]] + pieces[1..];
  }

  /** Read as lengths to the very end, the stream gives its own units only in the one way. */
  lemma {:induction false} SameByLengthsIff(pieces: seq<Piece>)
    requires AllClean(pieces) && AvccFrom(Coded(pieces)).1 == []
    ensures AvccFrom(Coded(pieces)).0 == Bodies(pieces) <==> LikeLengths(pieces)
    decreases |pieces|
  {
    hide AvccFrom, Coded, StartCode, AllClean, Clean, Bodies, LikeLengths, U32BE;
    CodedUnfold(pieces);
    if pieces == [] {
      NothingByLengths();
      NoBodies();
    } else {
      var u, rest := pieces[0].unit, Coded(pieces[1..]);
      FirstIsClean(pieces);
      FirstBody(pieces);
      if pieces[0].long {
        LongReadsAsOne(u, rest);
        OnlyFirstByte(u, rest, Bodies(pieces[1..]));
        if |u| == 1 {
          SameByLengthsIff(pieces[1..]);
        }
      } else {
        CodedStartsWithZero(pieces[1..]);
        ShortReadsOther(u, rest, Bodies(pieces[1..]));
      }
    }
  }

  lemma NoBodies()
    ensures Bodies([]) == [] && LikeLengths([])
  {
  }

  lemma CodedStartsWithZero(pieces: seq<Piece>)
    ensures Coded(pieces) == [] || Coded(pieces)[0] == 0
  {
  }

  /** A long start code reads as the length 1. */
  lemma LongReadsAsOne(u: seq<byte>, rest: seq<byte>)
    requires u != [] && AvccFrom(StartCode(true) + (u + rest)).1 == []
    ensures var tail := u[1..] + rest; var b := StartCode(true) + (u + rest);
      AvccFrom(b) == ([[u[0]]] + AvccFrom(tail).0, AvccFrom(tail).1)
  {
    var b, tail := StartCode(true) + (u + rest), u[1..] + rest;
    assert b[..4] == [0, 0, 0, 1] && b[4..] == u + rest && U32BE(b) == 1;
    assert (u + rest)[..1] == [u[0]] && (u + rest)[1..] == tail;
    assert 1 > ToU32(|u + rest|) ==> AvccFrom(b).1 == u + rest;
  }

  /** Only a unit of one byte is what the length 1 takes. */
  lemma OnlyFirstByte(u: seq<byte>, rest: seq<byte>, bodies: seq<seq<byte>>)
    requires u != []
    ensures var units := [[u[0]]] + AvccFrom(u[1..] + rest).0;
      units == [u] + bodies <==> |u| == 1 && AvccFrom(rest).0 == bodies
    ensures |u| == 1 ==> u[1..] + rest == rest
  {
    hide AvccFrom;
    var units, all := [[u[0]]] + AvccFrom(u[1..] + rest).0, [u] + bodies;
    if |u| == 1 {
      assert u == [u[0]] && u[1..] + rest == rest;
    }
    assert units[0] == [u[0]] && units[1..] == AvccFrom(u[1..] + rest).0;
    assert all[0] == u && all[1..] == bodies;
  }

  /** A short start code and the byte x behind it read as the length 0x100 + x, which would take the unit shifted by one
      byte, and with it the zero of the next start code as its last byte. */
  lemma ShortReadsOther(u: seq<byte>, rest: seq<byte>, bodies: seq<seq<byte>>)
    requires Clean(u) && (rest == [] || rest[0] == 0)
    ensures AvccFrom(StartCode(false) + (u + rest)).0 != [u] + bodies
  {
    hide AvccFrom;
    var b := StartCode(false) + (u + rest);
    assert b[4..] == u[1..] + rest;
    Shifted(u, rest);
    FirstByLength(b);
    assert ([u] + bodies)[0] == u;
  }

  lemma Shifted(u: seq<byte>, rest: seq<byte>)
    requires Clean(u) && (rest == [] || rest[0] == 0)
    ensures !(u <= u[1..] + rest)
  {
    var b := u[1..] + rest;
    assert rest == [] ==> |b| < |u|;
    assert rest != [] ==> b[|u| - 1] == rest[0];
  }

  lemma FirstByLength(b: seq<byte>)
    ensures AvccFrom(b).0 != [] ==> |b| >= 4 && AvccFrom(b).0[0] <= b[4..]
  {
    hide U32BE, AvccFrom;
    AvccNext(b, []);
    var units := AvccFrom(b).0;
    assert [] + units == units;
    if |b| >= 4 && U32BE(b) <= ToU32(|b[4..]|) {
      var val, rest := U32BE(b) as nat, b[4..];
      assert units == [] + [rest[..val]] + AvccFrom(rest[val..]).0;
      assert units[0] == rest[..val];
    }
  }

  lemma StartsWithCode(c: seq<byte>, rest: seq<byte>, long: bool)
    requires c == StartCode(long) && rest != []
    ensures var b := c + rest;
      |b| >= 4 && (if long then U24BE(b) == 0 && U32BE(b) == 1 else U24BE(b) == 1)
  {
  }

  /** A stream whose units can be read both ways, and for which the reading by lengths gives other units. */
  lemma MisreadAsLengths()
    ensures Clean([9, 0, 0, 0, 2, 7, 7])
    ensures Split(Coded([Piece(true, [9, 0, 0, 0, 2, 7, 7])])) == ([[9], [7, 7]], Avcc)
  {
    hide Clean, Split, Coded;
    NineIsClean();
    OnePiece(Piece(true, [9, 0, 0, 0, 2, 7, 7]));
    NineByLengths();
  }

  lemma NineIsClean()
    ensures Clean([9, 0, 0, 0, 2, 7, 7])
  {
    var u: seq<byte> := [9, 0, 0, 0, 2, 7, 7];
    assert |u| == 7 && u[2] == 0 && u[3] == 0 && u[4] == 2;
  }

  lemma OnePiece(p: Piece)
    ensures Coded([p]) == StartCode(p.long) + p.unit
  {
    assert Coded([]) == [];
  }

  lemma NineByLengths()
    ensures Split(StartCode(true) + [9, 0, 0, 0, 2, 7, 7]) == ([[9], [7, 7]], Avcc)
  {
    hide AvccFrom, AnnexFrom;
    var b: seq<byte> := [0, 0, 0, 1, 9, 0, 0, 0, 2, 7, 7];
    var c: seq<byte> := [0, 0, 0, 2, 7, 7];
    assert b == StartCode(true) + [9, 0, 0, 0, 2, 7, 7];
    assert U32BE(b) == 1 && U32BE(c) == 2;
    NothingByLengths();
    assert c[4..] == [7, 7] + [];
    LengthTaken(c, [7, 7], []);
    assert b[4..] == [9] + c;
    LengthTaken(b, [9], c);
    assert [[7, 7]] + [] == [[7, 7]];
    assert [[9]] + [[7, 7]] == [[9], [7, 7]];
    assert AvccFrom(b) == ([[9], [7, 7]], []);
    assert LooksAvcc(b);
  }

  lemma NothingByLengths()
    ensures AvccFrom([]) == ([], [])
  {
  }

  const AUD_BYTES: seq<byte> := [0, 0, 0, 1, 0x9, 0xf0, 0, 0, 0, 1]

  /** The units of one picture as the transport stream muxer joins them: the access unit delimiter and a long start
      code before the first, a short start code before each of the others. */
  function Joined(units: seq<seq<byte>>): seq<byte> {
    if units == [] then [] else AUD_BYTES + units[0] + Coded(Shorts(units[1..]))
  }

  function Shorts(units: seq<seq<byte>>): seq<Piece> {
    if units == [] then [] else [Piece(false, units[0])] + Shorts(units[1..])
  }

  lemma {:induction false} ShortBodies(units: seq<seq<byte>>)
    ensures Bodies(Shorts(units)) == units
    ensures (forall u <- units :: Clean(u)) ==> AllClean(Shorts(units))
  {
    hide Clean;
    if units != [] {
      ShortBodies(units[1..]);
    }
  }

  /** The joined stream reads as the delimiter followed by exactly the units. Its second unit would otherwise need a
      length of 0xf0000000. */
  lemma JoinedRecovered(units: seq<seq<byte>>)
    requires units != [] && forall u <- units :: Clean(u)
    requires |Joined(units)| < 0xf000_0000
    ensures Split(Joined(units)) == ([[0x9, 0xf0]] + units, AnnexB)
  {
    hide *;
    var aud, first, more := Piece(true, [0x9, 0xf0]), Piece(true, units[0]), Shorts(units[1..]);
    ShortBodies(units[1..]);
    DelimiterClean();
    TwoPieces(aud, first, more);
    JoinedForms(units);
    NotLengths(units[0] + Coded(more));
    StartCodedRecoveredIff([aud, first] + more);
    HeadAndTail(units);
  }

  lemma HeadAndTail<T>(s: seq<T>)
    requires s != []
    ensures [s[0]] + s[1..] == s
  {
  }

  lemma JoinedForms(units: seq<seq<byte>>)
    requires units != []
    ensures var u, rest := units[0], Coded(Shorts(units[1..]));
      && Joined(units) == StartCode(true) + [0x9, 0xf0] + (StartCode(true) + u + rest)
      && Joined(units) == AUD_BYTES + (u + rest)
  {
    hide Coded, Shorts, StartCode;
    var u, rest := units[0], Coded(Shorts(units[1..]));
    JoinedIsCoded(u, rest);
    assert AUD_BYTES + (u + rest) == AUD_BYTES + u + rest;
  }

  lemma DelimiterClean()
    ensures Clean([0x9, 0xf0])
  {
  }

  lemma TwoPieces(a: Piece, b: Piece, more: seq<Piece>)
    requires Clean(a.unit) && Clean(b.unit) && AllClean(more)
    ensures var all := [a, b] + more;
      && AllClean(all)
      && Coded(all) == StartCode(a.long) + a.unit + (StartCode(b.long) + b.unit + Coded(more))
      && Bodies(all) == [a.unit] + ([b.unit] + Bodies(more))
  {
    hide Clean;
    assert ([a, b] + more)[1..] == [b] + more && ([b] + more)[1..] == more;
  }

  lemma JoinedIsCoded(u: seq<byte>, rest: seq<byte>)
    ensures AUD_BYTES + u + rest == StartCode(true) + [0x9, 0xf0] + (StartCode(true) + u + rest)
  {
  }

  lemma NotLengths(rest: seq<byte>)
    requires 10 + |rest| < 0xf000_0000
    ensures !LooksAvcc(AUD_BYTES + rest)
  {
    var b := AUD_BYTES + rest;
    assert U32BE(b) == 1;
    var b1 := b[4..][1..];
    assert b1 == [0xf0, 0, 0, 0, 1] + rest;
    assert U32BE(b1) == 0xf000_0000;
    assert AvccFrom(b1).1 == b1[4..] != [];
  }

  lemma {:induction false} LengthUnitsFit(b: seq<byte>)
    ensures forall u <- AvccFrom(b).0 :: |u| <= |b|
    decreases |b|
  {
    if |b| >= 4 && U32BE(b) <= ToU32(|b[4..]|) {
      LengthUnitsFit(b[4..][U32BE(b)..]);
    }
  }

  lemma {:induction false} CodedUnitsFit(b: seq<byte>, start: nat)
    requires start <= |b|
    ensures forall u <- AnnexFrom(b, start) :: |u| <= |b|
    decreases |b| - start
  {
    hide NextCode, CodeAt;
    if start < |b| {
      var p := NextCode(b, start);
      if p < |b| {
        CodedUnitsFit(b, p + CodeAt(b, p));
      }
    }
  }

  lemma UnitsFit(b: seq<byte>)
    ensures forall u <- Split(b).0 :: |u| <= |b|
  {
    LengthUnitsFit(b);
    if |b| >= 4 {
      CodedUnitsFit(b, 3);
      CodedUnitsFit(b, 4);
    }
  }

  /** What a fragmenter stores for a packet's data: length-prefixed units. */
  function Reframed(data: seq<byte>): seq<byte>
    requires |data| < TWO32
  {
    UnitsFit(data);
    if Split(data).1 == Avcc then data else WithLengths(Split(data).0)
  }

  /** Any other framing is rewritten with a 4-byte length before each unit. */
  method Reframe(data: seq<byte>) returns (out: seq<byte>)
    requires |data| < TWO32
    ensures out == Reframed(data)
  {
    hide Split;
    var nalus, typ := SplitNALUs(data);
    if typ == Avcc {
      return data;
    }
    out := [];
    UnitsFit(data);
    for i := 0 to |nalus|
      invariant out + WithLengths(nalus[i..]) == WithLengths(nalus)
    {
      var j: u32 := |nalus[i]|;
      LengthBytes(j);
      OneMoreLength(out, nalus, i);
      out := out + [ToU8(j / 0x100_0000), ToU8(j / 0x1_0000), ToU8(j / 0x100), ToU8(j)];
      out := out + nalus[i];
    }
    assert nalus[|nalus|..] == [] && out + [] == out;
  }

  lemma LengthBytes(j: u32)
    ensures BE32(j) == [ToU8(j / 0x100_0000), ToU8(j / 0x1_0000), ToU8(j / 0x100), ToU8(j)]
  {
    var h, l := j / 0x1_0000, j % 0x1_0000;
    assert j == h * 0x1_0000 + l;
    assert j / 0x100_0000 == h / 0x100 && j / 0x100 == h * 0x100 + l / 0x100;
  }

  lemma OneMoreLength(before: seq<byte>, nalus: seq<seq<byte>>, i: nat)
    requires i < |nalus| && forall u <- nalus :: |u| < TWO32
    ensures before + WithLengths(nalus[i..]) == before + BE32(|nalus[i]|) + nalus[i] + WithLengths(nalus[i + 1..])
  {
    hide BE32;
    assert nalus[i..][0] == nalus[i] && nalus[i..][1..] == nalus[i + 1..];
  }

  /** Nothing but start codes, one after the other. */
  predicate OnlyCodes(b: seq<byte>) {
    b == []
    || ([0, 0, 1] <= b && OnlyCodes(b[3..]))
    || ([0, 0, 0, 1] <= b && OnlyCodes(b[4..]))
  }

  lemma CodeInFront(b: seq<byte>, start: nat)
    requires start < |b|
    ensures OnlyCodes(b[start..]) <==> CodeAt(b, start) > 0 && OnlyCodes(b[start + CodeAt(b, start)..])
  {
    var c := b[start..];
    var n := CodeAt(b, start);
    assert forall k :: 0 <= k < |c| ==> c[k] == b[start + k];
    assert [0, 0, 1] <= c <==> n == 3;
    assert [0, 0, 0, 1] <= c <==> n == 4;
    assert n == 3 ==> c[3..] == b[start + 3..];
    assert n == 4 ==> c[4..] == b[start + 4..];
  }

  /** Start codes alone hold no unit, and anything else holds one. */
  lemma {:induction false} NoUnitsIff(b: seq<byte>, start: nat)
    requires start <= |b|
    ensures AnnexFrom(b, start) == [] <==> OnlyCodes(b[start..])
    decreases |b| - start
  {
    hide CodeAt, NextCode, OnlyCodes, AnnexFrom;
    if start == |b| {
      NothingThere(b);
    } else {
      CodeInFront(b, start);
      AnnexUnfold(b, start);
      CodeHere(b, start);
      if NextCode(b, start) == start {
        NoUnitsIff(b, start + CodeAt(b, start));
      }
    }
  }

  lemma NothingThere(b: seq<byte>)
    ensures AnnexFrom(b, |b|) == [] && OnlyCodes(b[|b|..])
  {
  }

  lemma CodeHere(b: seq<byte>, start: nat)
    requires start < |b|
    ensures NextCode(b, start) == start <==> CodeAt(b, start) > 0
  {
    hide CodeAt;
  }

  lemma FirstCode(b: seq<byte>)
    requires |b| >= 4
    ensures U24BE(b) == 1 <==> CodeAt(b, 0) == 3
    ensures U32BE(b) == 1 <==> CodeAt(b, 0) == 4
    ensures CodeAt(b, 0) == 0 || CodeAt(b, 0) == 3 || CodeAt(b, 0) == 4
  {
  }

  lemma SplitsToNothingIff(b: seq<byte>)
    requires |b| >= 4 && !LooksAvcc(b)
    ensures Split(b).0 == [] <==> OnlyCodes(b)
  {
    hide AnnexFrom, OnlyCodes, CodeAt, LooksAvcc;
    FirstCode(b);
    assert b[0..] == b;
    CodeInFront(b, 0);
    NoUnitsIff(b, 3);
    NoUnitsIff(b, 4);
  }

  /** Rewriting keeps the units, in order, for all data but those that are made of start codes alone and do not also
      read as lengths; data already in lengths are kept as they are. */
  lemma ReframedKeepsUnitsIff(data: seq<byte>)
    requires |data| < TWO32 && |Reframed(data)| < TWO32
    ensures Split(Reframed(data)) == (Split(data).0, Avcc) <==> |data| < 4 || LooksAvcc(data) || !OnlyCodes(data)
  {
    hide OnlyCodes, LooksAvcc;
    UnitsFit(data);
    var units := Split(data).0;
    if |data| >= 4 && !LooksAvcc(data) {
      SplitsToNothingIff(data);
    }
    if Split(data).1 != Avcc && units != [] {
      hide Split;
      LengthPrefixedRecovered(units);
    }
  }
}
