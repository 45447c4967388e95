/** Slicing a vector of byte slices without copying (utils/bits/pio/vec.go). */
module Vectors {
  import opened Bytes

  function VecLen(vec: seq<seq<byte>>): (n: nat)
    ensures n == |Flatten(vec)|
  {
    if vec == [] then 0 else |vec[0]| + VecLen(vec[1..])
  }

  /** What remains from offset off of slice i on. */
  function Rest(vec: seq<seq<byte>>, i: nat, off: nat): seq<byte>
    requires i <= |vec| && (i < |vec| ==> off <= |vec[i]|)
  {
    if i == |vec| then [] else vec[i][off..] + Flatten(vec[i + 1..])
  }

  lemma RestStart(vec: seq<seq<byte>>)
    ensures Rest(vec, 0, 0) == Flatten(vec)
  {
    if vec != [] {
      assert vec[0][0..] == vec[0];
    }
  }

  /** Leaving read bytes of slice i behind, and moving on when it is used up. */
  lemma RestAdvance(vec: seq<seq<byte>>, i: nat, off: nat, read: nat)
    requires i < |vec| && off + read <= |vec[i]|
    ensures |vec[i]| - off <= |Rest(vec, i, off)|
    ensures vec[i][off..off + read] == Rest(vec, i, off)[..read]
    ensures Rest(vec, i, off)[read..] ==
      if off + read == |vec[i]| then Rest(vec, i + 1, 0) else Rest(vec, i, off + read)
  {
    hide Flatten;
    var more := Flatten(vec[i + 1..]);
    var piece := vec[i][off..];
    assert piece[..read] == vec[i][off..off + read] && piece[read..] == vec[i][off + read..];
    assert (piece + more)[..read] == piece[..read] && (piece + more)[read..] == piece[read..] + more;
    if off + read == |vec[i]| {
      assert piece[read..] + more == more;
      RestFrom(vec, i + 1);
    }
  }

  lemma RestEnd(vec: seq<seq<byte>>, off: nat)
    ensures Rest(vec, |vec|, off) == []
  {
  }

  lemma RestFrom(vec: seq<seq<byte>>, i: nat)
    requires i <= |vec|
    ensures Rest(vec, i, 0) == Flatten(vec[i..])
  {
    if i < |vec| {
      assert vec[i..][0] == vec[i] && vec[i..][1..] == vec[i + 1..];
      assert vec[i][0..] == vec[i];
    }
  }

  /** Points out[0..n] at the bytes s to e of the vector; a negative e means the end. */
  method VecSliceTo(vec: seq<seq<byte>>, out: array<seq<byte>>, from: int, to: int) returns (n: nat)
    requires var s := if from < 0 then 0 else from; s <= VecLen(vec) && (to >= 0 ==> s <= to <= VecLen(vec))
    requires |vec| <= out.Length
    modifies out
    ensures n <= |vec|
    ensures var s := if from < 0 then 0 else from; var e := if to < 0 then VecLen(vec) else to;
      Flatten(out[..n]) == Flatten(vec)[s..e]
  {
    hide VecLen, Flatten, Rest;
    var s, e := if from < 0 then 0 else from, to;
    ghost var s0 := s;
    var i, off := 0, 0;
    RestStart(vec);
    assert Flatten(vec)[s0..] == Rest(vec, 0, 0)[s..];
    while s > 0 && i < |vec|
      invariant 0 <= s <= s0 && 0 <= i <= |vec| && 0 <= off && (i < |vec| ==> off <= |vec[i]|) && (s > 0 ==> off == 0)
      invariant s <= |Rest(vec, i, off)| && Flatten(vec)[s0..] == Rest(vec, i, off)[s..]
      invariant to < 0 ==> e < 0
      invariant to >= 0 ==> e == to - (s0 - s)
      decreases s, |vec| - i
    {
      var left := |vec[i]|;
      var read := if left < s then left else s;
      RestAdvance(vec, i, off, read);
      assert Rest(vec, i, off)[s..] == Rest(vec, i, off)[read..][s - read..];
      left, off, s, e := left - read, off + read, s - read, e - read;
      if left == 0 {
        i, off := i + 1, 0;
      }
    }
    if i == |vec| {
      RestEnd(vec, off);
    }
    n := Collect(vec, out, i, off, e);
    ghost var tail := Flatten(vec)[s0..];
    assert to >= 0 ==> tail[..to - s0] == Flatten(vec)[s0..to];
    assert to < 0 ==> tail == Flatten(vec)[s0..VecLen(vec)];
  }

  /** The next e bytes from offset off of slice i, or all of them when e is negative. */
  function Wanted(vec: seq<seq<byte>>, i: nat, off: nat, e: int): seq<byte>
    requires i <= |vec| && (i < |vec| ==> off <= |vec[i]|) && e <= |Rest(vec, i, off)|
  {
    if e < 0 then Rest(vec, i, off) else Rest(vec, i, off)[..e]
  }

  lemma WantedStep(vec: seq<seq<byte>>, i: nat, off: nat, e: int)
    requires i < |vec| && off <= |vec[i]| && e <= |Rest(vec, i, off)| && e != 0
    ensures var left := |vec[i]| - off; var read := if 0 < e < left then e else left;
      var i' := if read == left then i + 1 else i; var off' := if read == left then 0 else off + read;
      && e - read <= |Rest(vec, i', off')| && (e > 0 ==> e - read >= 0)
      && Wanted(vec, i, off, e) == vec[i][off..off + read] + Wanted(vec, i', off', e - read)
  {
    hide Rest;
    var left := |vec[i]| - off;
    var read := if 0 < e < left then e else left;
    RestAdvance(vec, i, off, read);
    var rest := Rest(vec, i, off);
    if e > 0 {
      assert rest[..e] == rest[..read] + rest[read..][..e - read];
    }
  }

  lemma WantedNothing(vec: seq<seq<byte>>, i: nat, off: nat, e: int)
    requires i <= |vec| && (i < |vec| ==> off <= |vec[i]|) && e <= |Rest(vec, i, off)|
    ensures e == 0 || i == |vec| ==> Wanted(vec, i, off, e) == []
  {
  }

  /** Collects the next e bytes from offset off of slice i (all of them when e is negative). */
  method Collect(vec: seq<seq<byte>>, out: array<seq<byte>>, i0: nat, off0: nat, e0: int) returns (n: nat)
    requires i0 <= |vec| <= out.Length && (i0 < |vec| ==> off0 <= |vec[i0]|)
    requires e0 <= |Rest(vec, i0, off0)|
    modifies out
    ensures n <= |vec| && Flatten(out[..n]) == Wanted(vec, i0, off0, e0)
  {
    hide Flatten, Rest, Wanted;
    var i, off, e := i0, off0, e0;
    n := 0;
    ghost var whole := Wanted(vec, i0, off0, e0);
    assert Flatten(out[..0]) == [] by { NoPieces(out[..0]); }
    while e != 0 && i < |vec|
      invariant i0 <= i <= |vec| && 0 <= off && (i < |vec| ==> off <= |vec[i]|)
      invariant n <= i - i0 || (e == 0 && i < |vec| && n <= i - i0 + 1)
      invariant e <= |Rest(vec, i, off)|
      invariant whole == Flatten(out[..n]) + Wanted(vec, i, off, e)
      decreases |vec| - i, if e == 0 then 0 else 1
    {
      var left := |vec[i]| - off;
      var read := if 0 < e < left then e else left;
      WantedStep(vec, i, off, e);
      ghost var before := out[..n];
      out[n] := vec[i][off..off + read];
      assert out[..n + 1] == before + [vec[i][off..off + read]];
      FlattenSnoc(before, vec[i][off..off + read]);
      n := n + 1;
      left, e, off := left - read, e - read, off + read;
      if left == 0 {
        i, off := i + 1, 0;
      }
    }
    WantedNothing(vec, i, off, e);
  }

  lemma NoPieces(a: seq<seq<byte>>)
    requires a == []
    ensures Flatten(a) == []
  {
  }
}
