/** Filling a byte buffer from the front, in place. */
module Buffers {
  import opened Bytes

  /** The buffer holds what was written so far, then what it held before. */
  ghost predicate Wrote(h: array<byte>, orig: seq<byte>, done: seq<byte>)
    reads h
  {
    |done| <= |orig| == h.Length && h[..] == done + orig[|done|..]
  }

  lemma WroteNothing(h: array<byte>)
    ensures Wrote(h, h[..], [])
  {
  }

  lemma WroteNext(orig: seq<byte>, done: seq<byte>, x: byte)
    requires |done| < |orig|
    ensures (done + orig[|done|..])[|done| := x] == done + [x] + orig[|done| + 1..]
  {
  }

  lemma WroteByte(h: array<byte>, was: seq<byte>, orig: seq<byte>, done: seq<byte>, x: byte)
    requires |done| < |orig| == h.Length && was == done + orig[|done|..] && h[..] == was[|done| := x]
    ensures Wrote(h, orig, done + [x])
  {
    WroteNext(orig, done, x);
  }

  /** Writes the next bytes. */
  method Put(h: array<byte>, at: nat, b: seq<byte>, ghost orig: seq<byte>, ghost done: seq<byte>)
    requires Wrote(h, orig, done) && at == |done| && at + |b| <= h.Length
    modifies h
    ensures Wrote(h, orig, done + b)
  {
    assert done + b[..0] == done;
    for i := 0 to |b|
      invariant Wrote(h, orig, done + b[..i])
    {
      hide Wrote;
      PutOne(h, at + i, b[i], orig, done + b[..i]);
      assert done + b[..i] + [b[i]] == done + b[..i + 1];
    }
    assert done + b[..|b|] == done + b;
  }

  method PutOne(h: array<byte>, at: nat, x: byte, ghost orig: seq<byte>, ghost done: seq<byte>)
    requires Wrote(h, orig, done) && at == |done| && at < h.Length
    modifies h
    ensures Wrote(h, orig, done + [x])
  {
    ghost var was := h[..];
    h[at] := x;
    WroteByte(h, was, orig, done, x);
  }

  lemma Skipped(h: array<byte>, orig: seq<byte>, done: seq<byte>, k: nat)
    requires Wrote(h, orig, done) && |done| + k <= |orig|
    ensures Wrote(h, orig, done + orig[|done|..|done| + k])
  {
    assert orig[|done|..] == orig[|done|..|done| + k] + orig[|done| + k..];
    assert done + orig[|done|..|done| + k] + orig[|done| + k..] == done + orig[|done|..];
  }

  /** Goes back to a place that was left open and fills it. */
  method Patch(h: array<byte>, at: nat, b: seq<byte>, ghost orig: seq<byte>, ghost pre: seq<byte>, ghost gap: seq<byte>,
               ghost post: seq<byte>)
    requires Wrote(h, orig, pre + gap + post) && at == |pre| && |gap| == |b|
    modifies h
    ensures Wrote(h, orig, pre + b + post)
  {
    ghost var tail := post + orig[|pre + gap + post|..];
    assert h[..] == pre + gap + tail;
    PatchStart(pre, gap, tail);
    for i := 0 to |b|
      invariant h[..] == pre + (b[..i] + gap[i..]) + tail
    {
      PatchNext(pre, b, gap, tail, i);
      h[at + i] := b[i];
    }
    PatchEnd(pre, b, gap, post, orig);
  }

  lemma PatchStart(pre: seq<byte>, gap: seq<byte>, tail: seq<byte>)
    ensures pre + ([] + gap[0..]) + tail == pre + gap + tail
  {
  }

  lemma PatchNext(pre: seq<byte>, b: seq<byte>, gap: seq<byte>, tail: seq<byte>, i: nat)
    requires i < |b| == |gap|
    ensures (pre + (b[..i] + gap[i..]) + tail)[|pre| + i := b[i]] == pre + (b[..i + 1] + gap[i + 1..]) + tail
  {
  }

  lemma PatchEnd(pre: seq<byte>, b: seq<byte>, gap: seq<byte>, post: seq<byte>, orig: seq<byte>)
    requires |b| == |gap| && |pre| + |gap| + |post| <= |orig|
    ensures pre + (b[..|b|] + gap[|b|..]) + (post + orig[|pre + gap + post|..])
        == pre + b + post + orig[|pre + b + post|..]
  {
  }
}
