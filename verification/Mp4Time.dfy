/** Conversions between nanoseconds and track ticks, and the search of a track's
    duration table for the sample playing at a given tick (format/mp4). */
module Mp4Time {
  import opened Bytes
  import opened Sums

  /** Ticks of a duration; the product wraps at 64 bits and the quotient truncates toward zero. */
  function TimeToTs(tm: int, scale: int): int {
    Quot(ToI64(tm * scale), SECOND)
  }

  /** Nanoseconds of a tick count. */
  function TsToTime(ts: int, scale: int): int
    requires scale > 0
  {
    Quot(ToI64(ts * SECOND), scale)
  }

  ghost predicate TimeFits(ts: int) { -TWO63 <= ts * SECOND < TWO63 }

  lemma TsToTimeMonotone(a: int, b: int, scale: int)
    requires scale > 0 && 0 <= a <= b && TimeFits(b)
    ensures TsToTime(a, scale) <= TsToTime(b, scale)
  {
    FitsI64(a * SECOND);
    FitsI64(b * SECOND);
    DivMonotone(a * SECOND, b * SECOND, scale);
  }

  lemma FitsI64(x: int)
    requires -TWO63 <= x < TWO63
    ensures ToI64(x) == x
  {
  }

  lemma MulMonotone(a: int, b: int, d: int)
    requires d >= 0
    ensures a <= b ==> a * d <= b * d
  {
  }

  lemma DivMonotone(x: int, y: int, d: int)
    requires d > 0 && x <= y
    ensures x / d <= y / d
  {
    assert x == x / d * d + x % d && y == y / d * d + y % d;
    MulMonotone(y / d + 1, x / d, d);
    assert (y / d + 1) * d == y / d * d + d;
  }

  /** Where the search believes run k begins: the length of a run is a 32-bit product. */
  function WrappedStart(runs: seq<Run<u32>>, k: nat): nat
    requires k <= |runs|
  {
    if k == 0 then 0 else WrappedStart(runs, k - 1) + ToU32(runs[k - 1].count * runs[k - 1].value)
  }

  predicate Matches(runs: seq<Run<u32>>, k: nat, target: int)
    requires k < |runs|
  {
    WrappedStart(runs, k) <= target < WrappedStart(runs, k) + ToU32(runs[k].count * runs[k].value)
  }

  lemma MatchHasDuration(runs: seq<Run<u32>>, k: nat, target: int)
    requires k < |runs| && Matches(runs, k, target)
    ensures runs[k].value > 0
  {
  }

  /** The sample number the search has settled on after the first k runs. */
  function Found(runs: seq<Run<u32>>, k: nat, target: int): Option<int>
    requires k <= |runs|
  {
    if k == 0 then None
    else if Matches(runs, k - 1, target) then
      MatchHasDuration(runs, k - 1, target);
      Some(Prefix(Counts(runs), k - 1) + (target - WrappedStart(runs, k - 1)) / runs[k - 1].value)
    else Found(runs, k - 1, target)
  }

  /** Result of the search; targets outside the track go to the first or the last sample. */
  function SampleIndexAt(runs: seq<Run<u32>>, target: int): int {
    match Found(runs, |runs|, target)
    case Some(i) => i
    case None => if target < 0 then 0 else Prefix(Counts(runs), |runs|) - 1
  }

  /** Sample i is the one playing at tick target. */
  predicate Playing(runs: seq<Run<u32>>, i: int, target: int) {
    && 0 <= i < |Expand(runs)|
    && Prefix(Expand(runs), i) <= target < Prefix(Expand(runs), i + 1)
  }

  function Ticks(runs: seq<Run<u32>>): nat { Prefix(Expand(runs), |Expand(runs)|) }

  /** No run lasts 2^32 ticks or more. */
  ghost predicate RunsFit(runs: seq<Run<u32>>, k: nat)
    requires k <= |runs|
  {
    forall j :: 0 <= j < k ==> runs[j].count * runs[j].value < TWO32
  }

  ghost predicate SearchIsRight(runs: seq<Run<u32>>) {
    forall target :: 0 <= target < Ticks(runs) ==> Playing(runs, SampleIndexAt(runs, target), target)
  }

  /** While runs fit, the search's own time line is the true one. */
  lemma {:induction false} WrappedIsTrue(runs: seq<Run<u32>>, k: nat)
    requires k <= |runs| && RunsFit(runs, k)
    ensures Prefix(Counts(runs), k) <= |Expand(runs)|
    ensures WrappedStart(runs, k) == Prefix(Expand(runs), Prefix(Counts(runs), k))
  {
    hide Expand, Prefix;
    if k == 0 {
      PrefixEmpty(Counts(runs));
      PrefixEmpty(Expand(runs));
    } else {
      WrappedIsTrue(runs, k - 1);
      PrefixNext(Counts(runs), k - 1);
      WrappedNext(runs, k - 1);
      RunTotals(runs, k - 1, runs[k - 1].count);
    }
  }

  lemma WrappedNext(runs: seq<Run<u32>>, j: nat)
    requires j < |runs| && RunsFit(runs, j + 1)
    ensures WrappedStart(runs, j + 1) == WrappedStart(runs, j) + runs[j].count * runs[j].value
  {
    assert 0 <= runs[j].count * runs[j].value < TWO32;
  }

  /** Inside run j the sample playing is found by dividing by the run's duration. */
  lemma PlayingInRun(runs: seq<Run<u32>>, j: nat, target: int)
    requires j < |runs| && RunsFit(runs, j + 1) && Matches(runs, j, target)
    ensures runs[j].value > 0
    ensures Playing(runs, Prefix(Counts(runs), j) + (target - WrappedStart(runs, j)) / runs[j].value, target)
  {
    hide Expand, Prefix, RunsFit, Matches, WrappedStart;
    MatchFits(runs, j, target);
    WrappedIsTrue(runs, j);
    var c, d, x := runs[j].count, runs[j].value, target - WrappedStart(runs, j);
    QuotientInRun(c, d, x);
    RunTotals(runs, j, x / d);
    RunTotals(runs, j, x / d + 1);
  }

  lemma MatchFits(runs: seq<Run<u32>>, j: nat, target: int)
    requires j < |runs| && RunsFit(runs, j + 1) && Matches(runs, j, target)
    ensures RunsFit(runs, j) && runs[j].value > 0
    ensures 0 <= target - WrappedStart(runs, j) < runs[j].count * runs[j].value
  {
    hide WrappedStart;
    MatchHasDuration(runs, j, target);
    assert 0 <= runs[j].count * runs[j].value < TWO32;
  }

  lemma QuotientInRun(c: nat, d: nat, x: nat)
    requires d > 0 && x < c * d
    ensures x / d < c
    ensures x / d * d <= x < (x / d + 1) * d
  {
    assert x == x / d * d + x % d;
    MulMonotone(c, x / d, d);
    assert (x / d + 1) * d == x / d * d + d;
  }

  lemma {:induction false} FoundIsPlaying(runs: seq<Run<u32>>, k: nat, target: int)
    requires k <= |runs| && RunsFit(runs, k)
    requires 0 <= target < WrappedStart(runs, k)
    ensures Found(runs, k, target).Some? && Playing(runs, Found(runs, k, target).value, target)
  {
    hide Expand, Prefix;
    if Matches(runs, k - 1, target) {
      PlayingInRun(runs, k - 1, target);
    } else {
      FoundIsPlaying(runs, k - 1, target);
    }
  }

  lemma SearchRightIfRunsFit(runs: seq<Run<u32>>)
    requires RunsFit(runs, |runs|)
    ensures SearchIsRight(runs)
  {
    hide Expand, Prefix;
    forall target | 0 <= target < Ticks(runs) ensures Playing(runs, SampleIndexAt(runs, target), target) {
      WrappedIsTrue(runs, |runs|);
      ExpandLength(runs);
      FoundIsPlaying(runs, |runs|, target);
    }
  }

  lemma {:induction false} FoundNothingBefore(runs: seq<Run<u32>>, k: nat, target: int)
    requires k <= |runs| && WrappedStart(runs, k) <= target
    ensures Found(runs, k, target).None?
  {
    if k > 0 {
      FoundNothingBefore(runs, k - 1, target);
    }
  }

  /** A tick past the wrapped end of run j is only ever attributed to samples after run j. */
  lemma {:induction false} FoundOnlyAfter(runs: seq<Run<u32>>, j: nat, k: nat, target: int)
    requires j < k <= |runs|
    requires WrappedStart(runs, j + 1) <= target
    ensures Found(runs, k, target).Some? ==> Found(runs, k, target).value >= Prefix(Counts(runs), j + 1)
  {
    hide Prefix, ToU32;
    if k == j + 1 {
      FoundNothingBefore(runs, k, target);
    } else {
      FoundOnlyAfter(runs, j, k - 1, target);
      if Matches(runs, k - 1, target) {
        PrefixMonotone(Counts(runs), j + 1, k - 1);
        MatchHasDuration(runs, k - 1, target);
        DivMonotone(0, target - WrappedStart(runs, k - 1), runs[k - 1].value);
      }
    }
  }

  /** The first run that does not fit has a tick the search attributes to the wrong sample. */
  lemma OverlongRunMissed(runs: seq<Run<u32>>, j: nat)
    requires j < |runs| && RunsFit(runs, j) && runs[j].count * runs[j].value >= TWO32
    ensures var target := WrappedStart(runs, j + 1);
            0 <= target < Ticks(runs) && !Playing(runs, SampleIndexAt(runs, target), target)
  {
    hide Expand, Prefix;
    var c, d := runs[j].count, runs[j].value;
    var w := ToU32(c * d);
    var target := WrappedStart(runs, j + 1);
    assert c >= 1;
    assert (c - 1) * d == c * d - d;
    assert (c - 1) * d > w;
    WrappedIsTrue(runs, j);
    var start := Prefix(Counts(runs), j);
    RunTotals(runs, j, c - 1);
    RunTotals(runs, j, c);
    PrefixNext(Counts(runs), j);
    assert target < Prefix(Expand(runs), start + (c - 1));
    PrefixMonotone(Expand(runs), start + (c - 1), |Expand(runs)|);
    FoundOnlyAfter(runs, j, |runs|, target);
    PrefixMonotone(Counts(runs), j + 1, |runs|);
    var i := SampleIndexAt(runs, target);
    assert i >= start + (c - 1);
    if Playing(runs, i, target) {
      PrefixMonotone(Expand(runs), start + (c - 1), i);
    }
  }

  lemma {:induction false} FirstOverlongRun(runs: seq<Run<u32>>, k: nat) returns (j: nat)
    requires k <= |runs| && !RunsFit(runs, k)
    ensures j < k && RunsFit(runs, j) && runs[j].count * runs[j].value >= TWO32
  {
    if RunsFit(runs, k - 1) {
      j := k - 1;
    } else {
      j := FirstOverlongRun(runs, k - 1);
    }
  }

  /** The search finds the playing sample for every tick of the track exactly when
      every run of equal durations is shorter than 2^32 ticks. */
  lemma SearchRightIffRunsFit(runs: seq<Run<u32>>)
    ensures SearchIsRight(runs) <==> RunsFit(runs, |runs|)
  {
    hide Expand, Prefix;
    if RunsFit(runs, |runs|) {
      SearchRightIfRunsFit(runs);
    } else {
      var j := FirstOverlongRun(runs, |runs|);
      OverlongRunMissed(runs, j);
    }
  }

  /** Targets past the end go to the last sample, targets before the start to the first. */
  lemma SearchOutside(runs: seq<Run<u32>>, target: int)
    requires RunsFit(runs, |runs|)
    ensures target < 0 ==> SampleIndexAt(runs, target) == 0
    ensures target >= Ticks(runs) ==> SampleIndexAt(runs, target) == |Expand(runs)| - 1
  {
    hide Expand, Prefix;
    WrappedIsTrue(runs, |runs|);
    ExpandLength(runs);
    if target >= Ticks(runs) {
      FoundNothingBefore(runs, |runs|, target);
    } else if target < 0 {
      FoundNothingNegative(runs, |runs|, target);
    }
  }

  lemma {:induction false} FoundNothingNegative(runs: seq<Run<u32>>, k: nat, target: int)
    requires k <= |runs| && target < 0
    ensures Found(runs, k, target).None?
  {
    if k > 0 {
      FoundNothingNegative(runs, k - 1, target);
    }
  }

  /** A 16 hour audio track of 64-tick samples at 90 kHz is long enough for the search to go wrong. */
  lemma LongTrackMissed()
    ensures var runs := [Run(81_000_000, 64)]; !SearchIsRight(runs)
  {
    var runs: seq<Run<u32>> := [Run(81_000_000, 64)];
    assert runs[0].count * runs[0].value == 5_184_000_000;
    SearchRightIffRunsFit(runs);
  }
}
