/** Prefix sums, run-length codes and positions inside them. */
module Sums {
  import opened Bytes

  /** Sum of the first k entries. */
  function Prefix(s: seq<nat>, k: nat): nat
    requires k <= |s|
  {
    if k == 0 then 0 else Prefix(s, k - 1) + s[k - 1]
  }

  lemma PrefixEmpty(s: seq<nat>)
    ensures Prefix(s, 0) == 0
  {
  }

  lemma PrefixNext(s: seq<nat>, k: nat)
    requires k < |s|
    ensures Prefix(s, k + 1) == Prefix(s, k) + s[k]
  {
  }

  lemma {:induction false} PrefixMonotone(s: seq<nat>, j: nat, k: nat)
    requires j <= k <= |s|
    ensures Prefix(s, j) <= Prefix(s, k)
    decreases k
  {
    if j < k {
      PrefixMonotone(s, j, k - 1);
    }
  }

  lemma {:induction false} PrefixStrict(s: seq<nat>, j: nat, k: nat)
    requires j < k <= |s|
    ensures Prefix(s, j) + s[j] <= Prefix(s, k)
  {
    PrefixMonotone(s, j + 1, k);
  }

  lemma {:induction false} PrefixAgree(s: seq<nat>, t: seq<nat>, k: nat)
    requires k <= |s| && k <= |t|
    requires forall i :: 0 <= i < k ==> s[i] == t[i]
    ensures Prefix(s, k) == Prefix(t, k)
  {
    if k > 0 {
      PrefixAgree(s, t, k - 1);
    }
  }

  /** An entry of a run-length table and the number of its items already passed. */
  datatype RunPos = RunPos(entry: int, off: int)

  /** Item i lies at position p; one past the last item is offset 0 of the entry after the last. */
  predicate At(counts: seq<nat>, i: int, p: RunPos) {
    && 0 <= p.entry <= |counts|
    && Prefix(counts, p.entry) + p.off == i
    && if p.entry < |counts| then 0 <= p.off < counts[p.entry] else p.off == 0
  }

  lemma AtUnique(counts: seq<nat>, i: int, p: RunPos, q: RunPos)
    requires At(counts, i, p) && At(counts, i, q)
    ensures p == q
  {
    if p.entry < q.entry {
      PrefixStrict(counts, p.entry, q.entry);
    } else if q.entry < p.entry {
      PrefixStrict(counts, q.entry, p.entry);
    }
  }

  /** Only the position past the last item lies outside the table. */
  lemma AtBounds(counts: seq<nat>, i: int, p: RunPos)
    requires At(counts, i, p)
    ensures 0 <= i <= Prefix(counts, |counts|)
    ensures p.entry < |counts| <==> i < Prefix(counts, |counts|)
    ensures p.entry < |counts| ==> p.off < counts[p.entry] <= Prefix(counts, |counts|)
  {
    PrefixMonotone(counts, p.entry, |counts|);
    if p.entry < |counts| {
      PrefixStrict(counts, p.entry, |counts|);
    }
  }

  ghost predicate AllPositive(counts: seq<nat>) {
    forall k :: 0 <= k < |counts| ==> counts[k] >= 1
  }

  /** The next position; counters are compared with table entries as 32-bit numbers. */
  function Next(counts: seq<nat>, p: RunPos): RunPos
    requires 0 <= p.entry < |counts|
  {
    if ToU32(p.off + 1) == counts[p.entry] then RunPos(p.entry + 1, 0) else RunPos(p.entry, p.off + 1)
  }

  lemma AtNext(counts: seq<nat>, i: int, p: RunPos)
    requires AllPositive(counts) && Prefix(counts, |counts|) < TWO32
    requires At(counts, i, p) && p.entry < |counts|
    ensures At(counts, i + 1, Next(counts, p))
  {
    AtBounds(counts, i, p);
  }

  /** A run: count copies of value. */
  datatype Run<T> = Run(count: nat, value: T)

  function Repeat<T>(x: T, n: nat): (s: seq<T>)
    ensures |s| == n && forall i :: 0 <= i < n ==> s[i] == x
  {
    seq(n, _ => x)
  }

  function Expand<T>(runs: seq<Run<T>>): seq<T> {
    if runs == [] then []
    else var k := |runs| - 1; Expand(runs[..k]) + Repeat(runs[k].value, runs[k].count)
  }

  function Counts<T>(runs: seq<Run<T>>): (c: seq<nat>)
    ensures |c| == |runs| && forall i :: 0 <= i < |c| ==> c[i] == runs[i].count
  {
    seq(|runs|, i requires 0 <= i < |runs| => runs[i].count)
  }

  lemma {:induction false} ExpandLength<T>(runs: seq<Run<T>>)
    ensures |Expand(runs)| == Prefix(Counts(runs), |runs|)
  {
    if runs != [] {
      var k := |runs| - 1;
      ExpandLength(runs[..k]);
      PrefixAgree(Counts(runs), Counts(runs[..k]), k);
    }
  }

  /** Offset off of run e expands to that run's value. */
  lemma {:induction false} ExpandAt<T>(runs: seq<Run<T>>, e: nat, off: nat)
    requires e < |runs| && off < runs[e].count
    ensures Prefix(Counts(runs), e) + off < |Expand(runs)|
    ensures Expand(runs)[Prefix(Counts(runs), e) + off] == runs[e].value
  {
    var k := |runs| - 1;
    ExpandLength(runs[..k]);
    PrefixAgree(Counts(runs), Counts(runs[..k]), k);
    if e < k {
      ExpandAt(runs[..k], e, off);
      PrefixAgree(Counts(runs), Counts(runs[..k]), e);
    }
  }

  /** Summing n equal entries adds n times that entry. */
  lemma {:induction false} PrefixLinear(s: seq<nat>, from: nat, n: nat, v: nat)
    requires from + n <= |s|
    requires forall i :: from <= i < from + n ==> s[i] == v
    ensures Prefix(s, from + n) == Prefix(s, from) + n * v
  {
    if n > 0 {
      PrefixLinear(s, from, n - 1, v);
      assert n * v == (n - 1) * v + v;
    }
  }

  /** Within run e the running total grows linearly. */
  lemma {:induction false} RunTotals(runs: seq<Run<u32>>, e: nat, off: nat)
    requires e < |runs| && off <= runs[e].count
    ensures Prefix(Counts(runs), e) + off <= |Expand(runs)|
    ensures Prefix(Expand(runs), Prefix(Counts(runs), e) + off)
         == Prefix(Expand(runs), Prefix(Counts(runs), e)) + off * runs[e].value
  {
    var start := Prefix(Counts(runs), e);
    ExpandLength(runs);
    PrefixStrict(Counts(runs), e, |runs|);
    forall i | start <= i < start + off ensures Expand(runs)[i] == runs[e].value {
      ExpandAt(runs, e, i - start);
    }
    PrefixLinear(Expand(runs), start, off, runs[e].value);
  }

  /** Appending a value extends the last run when it carries the same value, and opens a new run otherwise. */
  function Extend<T(==)>(runs: seq<Run<T>>, v: T): seq<Run<T>>
  {
    if runs != [] && runs[|runs| - 1].value == v
    then runs[|runs| - 1 := Run(runs[|runs| - 1].count + 1, v)]
    else runs + [Run(1, v)]
  }

  /** Neighbouring runs differ and none is empty. */
  ghost predicate Canonical<T>(runs: seq<Run<T>>) {
    && (forall i :: 0 <= i < |runs| ==> runs[i].count >= 1)
    && (forall i :: 0 < i < |runs| ==> runs[i - 1].value != runs[i].value)
  }

  lemma ExtendExpands<T>(runs: seq<Run<T>>, v: T)
    ensures Expand(Extend(runs, v)) == Expand(runs) + [v]
    ensures Canonical(runs) ==> Canonical(Extend(runs, v))
  {
    var k := |runs| - 1;
    if runs != [] && runs[k].value == v {
      var ext := runs[k := Run(runs[k].count + 1, v)];
      assert ext[..k] == runs[..k];
      assert Repeat(v, runs[k].count + 1) == Repeat(v, runs[k].count) + [v];
    } else {
      var ext := runs + [Run(1, v)];
      assert ext[..|runs|] == runs;
      assert Repeat(v, 1) == [v];
    }
  }
}
