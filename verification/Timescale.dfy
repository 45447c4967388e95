/** Times in ticks of a track, rounded to nearest (format/fmp4/timescale), beside the truncation of the MP4 writer. */
module Timescale {
  import opened Bytes
  import opened Sums
  import Mp4Time

  type Time = t: int | 0 <= t < TWO63

  /** A decode time in ticks. The product has 128 bits; a quotient of more than 64 bits stops the program. */
  function ToScale(t: int, scale: u32): Option<u64> {
    var p := ToU64(t) * scale;
    if p / SECOND >= TWO64 then None
    else Some(ToU64(p / SECOND + (if p % SECOND >= SECOND / 2 then 1 else 0)))
  }

  /** The product of a time and a scale, in units of which a tick has SECOND. */
  function Exact(t: int, scale: u32): int { t * scale }

  lemma ExactBounds(t: int, scale: u32)
    requires 0 <= t < TWO63 && scale <= 2_000_000_000
    ensures 0 <= Exact(t, scale) <= (TWO63 - 1) * 2_000_000_000
  {
    Mp4Time.MulMonotone(0, t, scale);
    Mp4Time.MulMonotone(t, TWO63 - 1, scale);
    Mp4Time.MulMonotone(scale, 2_000_000_000, TWO63 - 1);
  }

  lemma ToScaleOf(t: int, scale: u32)
    requires 0 <= t < TWO63 && scale <= 2_000_000_000
    ensures var p := Exact(t, scale);
      p >= 0 && ToScale(t, scale) == Some(p / SECOND + (if p % SECOND >= SECOND / 2 then 1 else 0))
  {
    ExactBounds(t, scale);
    assert ToU64(t) == t;
    NoOverflow(Exact(t, scale));
  }

  lemma NoOverflow(p: int)
    requires 0 <= p <= (TWO63 - 1) * 2_000_000_000
    ensures p / SECOND + 1 < TWO64
  {
  }

  /** The result is the nearest tick. */
  lemma ToScaleIsNearest(t: int, scale: u32)
    requires 0 <= t < TWO63 && scale <= 2_000_000_000
    ensures ToScale(t, scale).Some?
    ensures -SECOND <= 2 * (Exact(t, scale) - ToScale(t, scale).value * SECOND) < SECOND
  {
    hide ToScale, Exact;
    ToScaleOf(t, scale);
  }

  lemma ToScaleMonotone(t: int, u: int, scale: u32)
    requires 0 <= t <= u < TWO63 && scale <= 2_000_000_000
    ensures ToScale(t, scale).Some? && ToScale(u, scale).Some?
    ensures ToScale(t, scale).value <= ToScale(u, scale).value
  {
    hide ToScale;
    ToScaleOf(t, scale);
    ToScaleOf(u, scale);
    Mp4Time.MulMonotone(t, u, scale);
  }

  /** Twice a relative time in ticks, before the half is rounded; the product wraps at 64 bits. */
  function Halves(t: int, scale: u32): int {
    Quot(ToI64(t * scale), SECOND / 2)
  }

  function Rounded(t: int, scale: u32): int {
    HalvesToTicks(Halves(t, scale), t > 0)
  }

  /** A composition time in ticks. */
  function Relative(t: int, scale: u32): int {
    ToI32(Rounded(t, scale))
  }

  predicate InRange(t: int, scale: u32) { -TWO63 < t * scale < TWO63 }

  lemma HalvesOf(t: int, scale: u32)
    requires InRange(t, scale)
    ensures var p := t * scale; Halves(t, scale) == if p >= 0 then p / (SECOND / 2) else -(-p / (SECOND / 2))
  {
    Mp4Time.FitsI64(t * scale);
  }

  lemma SignOf(t: int, scale: u32)
    ensures t >= 0 ==> t * scale >= 0
    ensures t <= 0 ==> t * scale <= 0
  {
  }

  /** Halves of a tick to ticks; a half goes away from zero. */
  function HalvesToTicks(rel: int, positive: bool): int {
    (if (rel % 2 != 0) == positive then rel + 1 else rel) / 2
  }

  lemma HalvesUp(m: nat)
    ensures HalvesToTicks(m, true) == (m + 1) / 2
  {
  }

  lemma HalvesDown(m: nat)
    ensures HalvesToTicks(0 - m, false) == -((m + 1) / 2)
  {
    if m % 2 == 0 {
      assert 0 - m == 2 * -(m / 2);
    } else {
      assert 0 - m == 2 * -((m + 1) / 2) + 1;
    }
  }

  lemma NearestHalf(p: nat)
    ensures -SECOND <= 2 * (p - (p / (SECOND / 2) + 1) / 2 * SECOND) <= SECOND
  {
    var m := p / (SECOND / 2);
    assert m * (SECOND / 2) <= p < (m + 1) * (SECOND / 2);
  }

  lemma RoundedUp(t: int, scale: u32)
    requires InRange(t, scale) && t > 0
    ensures t * scale >= 0 && Rounded(t, scale) == (t * scale / (SECOND / 2) + 1) / 2
  {
    hide HalvesToTicks, Halves;
    HalvesOf(t, scale);
    SignOf(t, scale);
    HalvesUp(t * scale / (SECOND / 2));
  }

  lemma RoundedDown(t: int, scale: u32)
    requires InRange(t, scale) && t <= 0
    ensures -(t * scale) >= 0 && Rounded(t, scale) == -((-(t * scale) / (SECOND / 2) + 1) / 2)
  {
    hide HalvesToTicks, Halves;
    HalvesOf(t, scale);
    SignOf(t, scale);
    HalvesDown(-(t * scale) / (SECOND / 2));
  }

  /** The result, before it is cut to 32 bits, is the nearest tick. */
  lemma RelativeIsNearest(t: int, scale: u32)
    requires InRange(t, scale)
    ensures -SECOND <= 2 * (t * scale - Rounded(t, scale) * SECOND) <= SECOND
  {
    hide Rounded;
    if t > 0 {
      RoundedUp(t, scale);
      NearestHalf(t * scale);
    } else {
      RoundedDown(t, scale);
      NearestHalf(-(t * scale));
    }
  }

  lemma RoundedIsOdd(t: int, scale: u32)
    requires InRange(t, scale)
    ensures InRange(-t, scale) && Rounded(-t, scale) == -Rounded(t, scale)
  {
    hide Rounded;
    Opposite(t, scale);
    if t > 0 {
      RoundedUp(t, scale);
      RoundedDown(-t, scale);
    } else if t < 0 {
      RoundedUp(-t, scale);
      RoundedDown(t, scale);
    } else {
      RoundedDown(0, scale);
      NoHalves(scale);
    }
  }

  lemma Opposite(t: int, scale: u32)
    ensures -t * scale == -(t * scale)
  {
  }

  lemma NoHalves(scale: u32)
    ensures (-(0 * scale) / (SECOND / 2) + 1) / 2 == 0
  {
  }

  /** Composition times before and after are treated alike, unless the 32-bit result is the one number that has no
      opposite. */
  lemma RelativeIsOddIff(t: int, scale: u32)
    requires InRange(t, scale)
    ensures Relative(-t, scale) == -Relative(t, scale) <==> Relative(t, scale) != -0x8000_0000
  {
    hide Rounded;
    RoundedIsOdd(t, scale);
    NegatedWord(Rounded(t, scale));
  }

  lemma NegatedWord(x: int)
    ensures ToI32(-x) == -ToI32(x) <==> ToI32(x) != -0x8000_0000
  {
    var q, r := (x + 0x8000_0000) / TWO32, (x + 0x8000_0000) % TWO32;
    assert x + 0x8000_0000 == q * TWO32 + r;
    var s := -x + 0x8000_0000;
    if r == 0 {
      assert s == (1 - q) * TWO32;
    } else {
      assert s == (-q) * TWO32 + (TWO32 - r);
    }
  }

  /** Sample durations as the MP4 writer records them, each difference cut off for itself. */
  function CutDurations(times: seq<int>, scale: u32): (d: seq<nat>)
    ensures |d| == if times == [] then 0 else |times| - 1
  {
    seq(if times == [] then 0 else |times| - 1, i requires 0 <= i < |times| - 1 =>
      ToU32(Mp4Time.TimeToTs(times[i + 1] - times[i], scale)) as nat)
  }

  /** Differences of rounded times, as the fragmenter records them. */
  function RoundedDurations(times: seq<Time>, scale: u32): (d: seq<int>)
    requires scale <= 2_000_000_000
    ensures |d| == if times == [] then 0 else |times| - 1
  {
    seq(if times == [] then 0 else |times| - 1, i requires 0 <= i < |times| - 1 =>
      Tick(times[i + 1], scale) - Tick(times[i], scale))
  }

  function Tick(t: Time, scale: u32): u64
    requires scale <= 2_000_000_000
  {
    ToScaleOf(t, scale);
    ToScale(t, scale).value
  }

  /** Times that do not decrease and leave every difference below 32 bits of ticks. */
  ghost predicate Steady(times: seq<int>, scale: u32) {
    forall i :: 0 < i < |times| ==> Step(times, i, scale)
  }

  predicate Step(times: seq<int>, i: nat, scale: u32)
    requires 0 < i < |times|
  {
    var d := times[i] - times[i - 1];
    d >= 0 && d * scale < TWO63 && d * scale / SECOND < TWO32
  }

  lemma CutAt(times: seq<int>, scale: u32, k: nat)
    requires k + 1 < |times| && Steady(times, scale)
    ensures CutDurations(times, scale)[k] == (times[k + 1] - times[k]) * scale / SECOND
  {
    hide Mp4Time.TimeToTs;
    assert Step(times, k + 1, scale);
    CutOne(times[k + 1] - times[k], scale);
  }

  lemma CutOne(d: int, scale: u32)
    requires d >= 0 && d * scale < TWO63 && d * scale / SECOND < TWO32
    ensures d * scale >= 0 && ToU32(Mp4Time.TimeToTs(d, scale)) == d * scale / SECOND
  {
    SignOf(d, scale);
    Mp4Time.FitsI64(d * scale);
  }

  /** Cut durations fall behind: the decode time of sample k is late by at least nothing and by less than a tick for
      each sample before it. */
  lemma {:induction false} CutTimesLag(times: seq<int>, scale: u32, k: nat)
    requires k < |times| && Steady(times, scale)
    ensures var lag := (times[k] - times[0]) * scale - Prefix(CutDurations(times, scale), k) * SECOND;
      0 <= lag <= k * (SECOND - 1)
  {
    hide Steady, CutDurations, Prefix;
    var d := CutDurations(times, scale);
    if k == 0 {
      PrefixEmpty(d);
    } else {
      CutTimesLag(times, scale, k - 1);
      PrefixNext(d, k - 1);
      CutAt(times, scale, k - 1);
      Distribute(times[k - 1] - times[0], times[k] - times[k - 1], scale);
      assert times[k - 1] - times[0] + (times[k] - times[k - 1]) == times[k] - times[0];
    }
  }

  lemma Distribute(a: int, b: int, c: int)
    ensures (a + b) * c == a * c + b * c
  {
  }

  /** The difference after sample i is a whole number of ticks. */
  predicate WholeTicks(times: seq<int>, i: nat, scale: u32)
    requires i + 1 < |times|
  {
    (times[i + 1] - times[i]) * scale % SECOND == 0
  }

  lemma CutLoses(d: nat)
    ensures d - d / SECOND * SECOND == d % SECOND
  {
  }

  lemma LagGrows(times: seq<int>, scale: u32, k: nat)
    requires k + 1 < |times| && Steady(times, scale)
    ensures (times[k + 1] - times[k]) * scale >= 0
    ensures (times[k + 1] - times[0]) * scale - Prefix(CutDurations(times, scale), k + 1) * SECOND
         == (times[k] - times[0]) * scale - Prefix(CutDurations(times, scale), k) * SECOND
          + (times[k + 1] - times[k]) * scale % SECOND
  {
    hide CutDurations, Prefix;
    assert Step(times, k + 1, scale);
    SignOf(times[k + 1] - times[k], scale);
    CutAt(times, scale, k);
    PrefixNext(CutDurations(times, scale), k);
    CutLoses((times[k + 1] - times[k]) * scale);
    Distribute(times[k] - times[0], times[k + 1] - times[k], scale);
    assert times[k] - times[0] + (times[k + 1] - times[k]) == times[k + 1] - times[0];
  }

  ghost predicate AllWhole(times: seq<int>, k: nat, scale: u32)
    requires k < |times|
  {
    forall i :: 0 <= i < k ==> WholeTicks(times, i, scale)
  }

  lemma AllWholeNext(times: seq<int>, k: nat, scale: u32)
    requires k + 1 < |times|
    ensures AllWhole(times, k + 1, scale) <==> AllWhole(times, k, scale) && WholeTicks(times, k, scale)
  {
    hide WholeTicks;
  }

  /** A sample's decode time is exact if and only if every difference before it is a whole number of ticks. */
  lemma {:induction false} CutTimesExactIff(times: seq<int>, scale: u32, k: nat)
    requires k < |times| && Steady(times, scale)
    ensures (times[k] - times[0]) * scale == Prefix(CutDurations(times, scale), k) * SECOND <==> AllWhole(times, k, scale)
  {
    hide Steady, CutDurations, Prefix, AllWhole;
    if k == 0 {
      PrefixEmpty(CutDurations(times, scale));
      NoneBefore(times, scale);
    } else {
      CutTimesExactIff(times, scale, k - 1);
      CutTimesLag(times, scale, k - 1);
      LagGrows(times, scale, k - 1);
      AllWholeNext(times, k - 1, scale);
    }
  }

  lemma NoneBefore(times: seq<int>, scale: u32)
    requires times != []
    ensures AllWhole(times, 0, scale)
  {
  }

  /** The lag does build up to whole ticks: at the muxer's 90000 ticks a second, the fourth of four frames a thirtieth of
      a second apart is recorded three ticks early, where rounding gives the right one. */
  lemma CutTimesDrift()
    ensures var times := [0, 33_333_333, 66_666_666, 99_999_999];
      && Steady(times, 90000) && Prefix(CutDurations(times, 90000), 3) == 8997 && Tick(99_999_999, 90000) == 9000
  {
    hide CutDurations, ToScale;
    var times := [0, 33_333_333, 66_666_666, 99_999_999];
    ThreeSteps(times, 90000);
    CutAt(times, 90000, 0);
    CutAt(times, 90000, 1);
    CutAt(times, 90000, 2);
    var d := CutDurations(times, 90000);
    PrefixEmpty(d);
    PrefixNext(d, 0);
    PrefixNext(d, 1);
    PrefixNext(d, 2);
    ToScaleOf(99_999_999, 90000);
  }

  lemma ThreeSteps(times: seq<int>, scale: u32)
    requires |times| == 4 && Step(times, 1, scale) && Step(times, 2, scale) && Step(times, 3, scale)
    ensures Steady(times, scale)
  {
    hide Step;
    forall i | 0 < i < |times|
      ensures Step(times, i, scale)
    {
      if i != 1 && i != 2 {
        assert i == 3;
      }
    }
  }

  function Total(d: seq<int>, k: nat): int
    requires k <= |d|
  {
    if k == 0 then 0 else Total(d, k - 1) + d[k - 1]
  }

  /** Rounded durations never fall behind: after any number of samples the time is within half a tick. */
  lemma {:induction false} RoundedTimesStay(times: seq<Time>, scale: u32, k: nat)
    requires k < |times| && scale <= 2_000_000_000
    ensures var at := Tick(times[0], scale) + Total(RoundedDurations(times, scale), k);
      at == Tick(times[k], scale) && -SECOND <= 2 * (Exact(times[k], scale) - at * SECOND) < SECOND
  {
    hide ToScale, Exact, Tick;
    if k > 0 {
      RoundedTimesStay(times, scale, k - 1);
    }
    TickIsNearest(times[k], scale);
  }

  lemma TickIsNearest(t: Time, scale: u32)
    requires scale <= 2_000_000_000
    ensures -SECOND <= 2 * (Exact(t, scale) - Tick(t, scale) * SECOND) < SECOND
  {
    hide ToScale, Exact;
    ToScaleIsNearest(t, scale);
  }
}
